/** The records that adding a datatype appends to a description, and what they mean.

    Source: openmpi-1.4.2/ompi/datatype/dt_add.c, `ompi_ddt_add`. */
module BuilderSpec {
  import opened Typemap
  import O = OptimizeSpec
  import G = Signature

  // ----- moving a description -----

  function MoveRec(r: Rec, d: int): Rec {
    match r
    case Data(_, _, disp, _, _) => r.(disp := disp + d)
    case Loop(_, _, _, _) => r
    case EndLoop(items, size, first) => EndLoop(items, size, first + d)
  }

  /** A description whose data lie `d` bytes further on. */
  function Moved(c: seq<Rec>, d: int): (m: seq<Rec>)
    ensures |m| == |c|
    ensures forall i :: 0 <= i < |c| ==> m[i] == MoveRec(c[i], d)
  {
    seq(|c|, i requires 0 <= i < |c| => MoveRec(c[i], d))
  }

  lemma {:induction false} MovedSlice(c: seq<Rec>, d: int, i: nat, j: nat)
    requires i <= j <= |c|
    ensures Moved(c, d)[i..j] == Moved(c[i..j], d)
  {}

  lemma {:induction false} MovedTM(c: seq<Rec>, d: int, base: int)
    ensures TM(Moved(c, d), base) == TM(c, base + d)
    decreases |c|, 0
  {
    hide Elems, Iter;
    if c != [] {
      match c[0]
      case Data(_, _, disp, _, _) =>
        assert Moved(c, d)[1..] == Moved(c[1..], d);
        MovedTM(c[1..], d, base);
        assert base + (disp + d) == base + d + disp;
      case Loop(loops, items, extent, _) =>
        if 2 <= items < |c| {
          MovedSlice(c, d, 1, items);
          assert Moved(c, d)[items + 1..] == Moved(c[items + 1..], d);
          MovedIter(c[1..items], d, base, extent, loops);
          MovedTM(c[items + 1..], d, base);
        }
      case EndLoop(_, _, _) =>
    }
  }

  lemma {:induction false} MovedIter(b: seq<Rec>, d: int, base: int, extent: int, n: nat)
    ensures Iter(Moved(b, d), base, extent, n) == Iter(b, base + d, extent, n)
    decreases |b|, 1 + n
  {
    if n > 0 {
      MovedTM(b, d, base);
      MovedIter(b, d, base + extent, extent, n - 1);
      assert base + extent + d == base + d + extent;
    }
  }

  /** The parts of a well-formed stretch that starts with a loop. */
  ghost predicate LoopParts(c: seq<Rec>, items: nat) {
    && 2 <= items < |c| && c[0].Loop? && c[0].loops >= 1 && c[0].items == items
    && WF(c[1..items]) && c[1..items] != [] && WF(c[items + 1..])
    && c[items] == EndLoop(items, |TM(c[1..items], 0)|, First(c[1..items]))
    && (c[0].contiguous ==> TM(c[1..items], 0) == Run(c[items].first, c[items].size))
  }

  lemma {:induction false} LoopIsParts(c: seq<Rec>)
    requires c != [] && c[0].Loop?
    ensures WF(c) <==> LoopParts(c, c[0].items)
  {
    hide TM, First, Run;
  }

  lemma {:induction false} LoopFirst(c: seq<Rec>, items: nat)
    requires LoopParts(c, items)
    ensures First(c) == First(c[1..items])
  {
    assert c[1..][..items - 1] == c[1..items];
    hide TM, Run;
    FirstPrefix(c[1..], items - 1);
  }

  lemma {:induction false} RunMoved(first: int, size: nat, d: int)
    ensures Shift(Run(first, size), d) == Run(first + d, size)
  {}

  lemma {:induction false} MovedWF(c: seq<Rec>, d: int)
    requires WF(c)
    ensures WF(Moved(c, d)) && (c != [] ==> First(Moved(c, d)) == First(c) + d)
    decreases |c|
  {
    if c != [] {
      match c[0]
      case Data(_, _, _, _, _) =>
        MovedWF(c[1..], d);
        assert Moved(c, d)[1..] == Moved(c[1..], d);
      case Loop(_, items, _, _) =>
        LoopIsParts(c);
        MovedWF(c[1..items], d);
        MovedWF(c[items + 1..], d);
        hide WF, First, Run, TM;
        MovedLoop(c, d, items);
        LoopIsParts(Moved(c, d));
        LoopFirst(c, items);
        LoopFirst(Moved(c, d), items);
        MovedSlice(c, d, 1, items);
      case EndLoop(_, _, _) =>
    }
  }

  lemma {:induction false} MovedLoop(c: seq<Rec>, d: int, items: nat)
    requires LoopParts(c, items) && WF(Moved(c[1..items], d)) && WF(Moved(c[items + 1..], d))
    requires First(Moved(c[1..items], d)) == First(c[1..items]) + d
    ensures LoopParts(Moved(c, d), items)
  {
    hide WF, First, TM, Run;
    var b := c[1..items];
    MovedSlice(c, d, 1, items);
    MovedSlice(c, d, items + 1, |c|);
    assert c[items + 1..|c|] == c[items + 1..] && Moved(c, d)[items + 1..|c|] == Moved(c, d)[items + 1..];
    MovedTM(b, d, 0);
    TMShift(b, 0, d);
    RunMoved(c[items].first, c[items].size, d);
  }

  // ----- the appended records -----

  /** The single record of a basic type's description. */
  function BasicRec(t: Basic): Rec {
    Data(t, 1, 0, t.size, true)
  }

  /** `n` elements of a basic type, `extent` apart. */
  function BasicRecords(t: Basic, n: nat, disp: int, extent: int): seq<Rec> {
    if extent != t.size && n > 1 then
      [Loop(n, 2, extent, false), Data(t, 1, disp, t.size, true), EndLoop(2, t.size, disp)]
    else [Data(t, n, disp, extent, true)]
  }

  /** A one-record description without gaps is repeated by multiplying the record's count. */
  predicate Collapses(c: seq<Rec>, span: int, extent: int) {
    |c| == 1 && extent == span && c[0].Data? && extent == c[0].extent
  }

  function Repeated(r: Rec, n: nat, disp: int): Rec
    requires r.Data?
  {
    r.(count := r.count * n, disp := r.disp + disp)
  }

  /** A loop of `n` repetitions, `extent` apart, around a description. */
  ghost function Looped(c: seq<Rec>, size: nat, contiguous: bool, n: nat, extent: int): seq<Rec> {
    [Loop(n, |c| + 1, extent, contiguous)] + c + [EndLoop(|c| + 1, size, First(c))]
  }

  /** `n` copies of the description `c`, `extent` apart. */
  ghost function DerivedRecords(c: seq<Rec>, span: int, size: nat, contiguous: bool, n: nat, disp: int,
                                extent: int): seq<Rec> {
    if Collapses(c, span, extent) then [Repeated(c[0], n, disp)]
    else if n == 1 then Moved(c, disp)
    else Looped(Moved(c, disp), size, contiguous, n, extent)
  }

  /** The record that is multiplied already stands for several elements: its copies would have
      overlapped, but the multiplied record does not overlap. */
  predicate Overstretched(c: seq<Rec>, span: int, n: nat, extent: int) {
    Collapses(c, span, extent) && n >= 2 && c[0].count >= 2 && extent != 0
  }

  /** How many LOOP records there are. */
  function Loops(c: seq<Rec>): nat {
    if c == [] then 0 else (if c[0].Loop? then 1 else 0) + Loops(c[1..])
  }

  lemma {:induction false} LoopsConcat(a: seq<Rec>, b: seq<Rec>)
    ensures Loops(a + b) == Loops(a) + Loops(b)
  {
    if a == [] {
      assert a + b == b;
    } else {
      assert (a + b)[1..] == a[1..] + b;
      LoopsConcat(a[1..], b);
    }
  }

  lemma {:induction false} LoopsMoved(c: seq<Rec>, d: int)
    ensures Loops(Moved(c, d)) == Loops(c)
  {
    if c != [] {
      assert Moved(c, d)[1..] == Moved(c[1..], d);
      LoopsMoved(c[1..], d);
    }
  }

  lemma {:induction false} OneLoop(r: Rec)
    ensures Loops([r]) == if r.Loop? then 1 else 0
  {
    assert [r][1..] == [];
  }

  lemma {:induction false} LoopsLooped(c: seq<Rec>, size: nat, contiguous: bool, n: nat, extent: int)
    ensures Loops(Looped(c, size, contiguous, n, extent)) == 1 + Loops(c)
  {
    var a, e := [Loop(n, |c| + 1, extent, contiguous)], [EndLoop(|c| + 1, size, First(c))];
    LoopsConcat(a, c);
    LoopsConcat(a + c, e);
    OneLoop(a[0]);
    OneLoop(e[0]);
    hide First;
  }

  lemma {:induction false} BasicLoops(t: Basic, n: nat, disp: int, extent: int)
    ensures Loops(BasicRecords(t, n, disp, extent)) > 0 <==> extent != t.size && n > 1
  {
    OneLoop(Data(t, n, disp, extent, true));
  }

  lemma {:induction false} DerivedLoops(c: seq<Rec>, span: int, size: nat, contiguous: bool, n: nat, disp: int,
                                        extent: int)
    requires c != []
    ensures Loops(DerivedRecords(c, span, size, contiguous, n, disp, extent)) - Loops(c)
         == if Collapses(c, span, extent) || n == 1 then 0 else 1
  {
    LoopsMoved(c, disp);
    LoopsLooped(Moved(c, disp), size, contiguous, n, extent);
    if Collapses(c, span, extent) {
      assert c == [c[0]];
      OneLoop(c[0]);
      OneLoop(Repeated(c[0], n, disp));
    }
    hide Loops, Looped;
  }

  // ----- their meaning -----

  lemma {:induction false} OneRec(r: Rec, base: int)
    requires r.Data?
    ensures TM([r], base) == Elems(r.typ.size, r.count, base + r.disp, r.extent)
    ensures r.typ.size >= 1 && r.count >= 1 ==> WF([r])
  {
    hide Elems;
    assert [r][1..] == [];
  }

  lemma {:induction false} SingleBlock(size: nat, disp: int, extent: int)
    ensures Elems(size, 1, disp, extent) == Run(disp, size)
  {
    assert Elems(size, 1, disp, extent) == Run(disp, size) + Elems(size, 0, disp + extent, extent);
  }

  lemma {:induction false} BasicTM(t: Basic, n: nat, disp: int, extent: int)
    requires t.size >= 1 && n >= 1
    ensures TM(BasicRecords(t, n, disp, extent), 0) == Iter([BasicRec(t)], disp, extent, n)
    ensures WF(BasicRecords(t, n, disp, extent))
  {
    hide *;
    var d := Data(t, 1, disp, t.size, true);
    BasicAre(t, n, disp, extent);
    OneRec(BasicRec(t), 0);
    SingleBlock(t.size, 0, t.size);
    IterElems([BasicRec(t)], 0, t.size, disp, extent, n);
    OneRec(d, 0);
    SingleBlock(t.size, disp, t.size);
    if extent != t.size && n > 1 {
      IterElems([d], disp, t.size, 0, extent, n);
      RunOf(disp, t.size);
      LoopedTM([d], t.size, false, n, extent);
    } else {
      OneRec(Data(t, n, disp, extent, true), 0);
    }
  }

  lemma {:induction false} RunOf(start: int, n: nat)
    ensures |Run(start, n)| == n
  {}

  lemma {:induction false} BasicAre(t: Basic, n: nat, disp: int, extent: int)
    ensures BasicRec(t) == Data(t, 1, 0, t.size, true)
    ensures BasicRecords(t, n, disp, extent)
         == if extent != t.size && n > 1 then Looped([Data(t, 1, disp, t.size, true)], t.size, false, n, extent)
            else [Data(t, n, disp, extent, true)]
  {}

  lemma {:induction false} LoopedTM(c: seq<Rec>, size: nat, contiguous: bool, n: nat, extent: int)
    requires WF(c) && c != [] && n >= 1 && size == |TM(c, 0)| && (contiguous ==> TM(c, 0) == Run(First(c), size))
    ensures WF(Looped(c, size, contiguous, n, extent))
    ensures TM(Looped(c, size, contiguous, n, extent), 0) == Iter(c, 0, extent, n)
  {
    var o, items := Looped(c, size, contiguous, n, extent), |c| + 1;
    assert o[1..items] == c && o[items + 1..] == [];
    assert TM(o, 0) == Iter(c, 0, extent, n) + TM([], 0);
    LoopIsParts(o);
    hide First, Run;
  }

  /** Multiplying the count of a record gives the copies exactly if there is one copy, one
      element, or no distance between the elements. */
  lemma {:induction false} RepeatedTM(r: Rec, n: nat, disp: int)
    requires r.Data? && r.typ.size >= 1 && r.count >= 1 && n >= 1
    ensures |TM([Repeated(r, n, disp)], 0)| == |Iter([r], disp, r.extent, n)|
    ensures TM([Repeated(r, n, disp)], 0) == Iter([r], disp, r.extent, n) <==> n == 1 || r.count == 1 || r.extent == 0
  {
    hide *;
    var size, k, e := r.typ.size, r.count, r.extent;
    RepeatedIs(r, n, disp);
    OneRec(Repeated(r, n, disp), 0);
    OneRec(r, 0);
    OneRec(r, disp);
    ElemsLength(size, k * n, r.disp + disp, e);
    ElemsLength(size, k, r.disp, e);
    IterLength([r], disp, e, n);
    if n == 1 {
      IterOnce([r], disp, e);
    } else if k == 1 {
      SingleBlock(size, r.disp, e);
      IterElems([r], r.disp, size, disp, e, n);
    } else if e == 0 {
      SamePlace(r, n, disp);
    } else {
      RepeatedDiffers(r, n, disp);
    }
  }

  lemma {:induction false} RepeatedIs(r: Rec, n: nat, disp: int)
    requires r.Data?
    ensures Repeated(r, n, disp) == Data(r.typ, r.count * n, r.disp + disp, r.extent, r.contiguous)
    ensures 0 + (r.disp + disp) == r.disp + disp && (r.count * n) * r.typ.size == n * (r.count * r.typ.size)
  {}

  lemma {:induction false} SamePlace(r: Rec, n: nat, disp: int)
    requires r.Data? && r.extent == 0
    ensures Elems(r.typ.size, r.count * n, r.disp + disp, 0) == Iter([r], disp, 0, n)
    decreases n
  {
    if n > 0 {
      OneRec(r, disp);
      SamePlace(r, n - 1, disp);
      assert r.count * n == r.count + r.count * (n - 1);
      ElemsSplit(r.typ.size, r.count, r.count * (n - 1), r.disp + disp, 0);
      hide TM, Elems;
    }
  }

  /** The first element of the second copy is what differs. */
  lemma {:induction false} RepeatedDiffers(r: Rec, n: nat, disp: int)
    requires r.Data? && r.typ.size >= 1 && r.count >= 2 && n >= 2 && r.extent != 0
    ensures Elems(r.typ.size, r.count * n, r.disp + disp, r.extent) != Iter([r], disp, r.extent, n)
  {
    var size, k, e := r.typ.size, r.count, r.extent;
    hide TM, Elems, Iter;
    Products(k, n);
    ElemsSplit(size, k, k * (n - 1), r.disp + disp, e);
    ElemsLength(size, k, r.disp + disp, e);
    BlockStart(size, k * (n - 1), r.disp + disp + k * e, e);
    SecondCopy(r, n, disp);
    Unequal(k, e);
  }

  lemma {:induction false} SecondCopy(r: Rec, n: nat, disp: int)
    requires r.Data? && r.typ.size >= 1 && r.count >= 1 && n >= 2
    ensures var u := Iter([r], disp, r.extent, n);
            0 <= r.count * r.typ.size < |u| && u[r.count * r.typ.size] == disp + r.extent + r.disp
  {
    var e := r.extent;
    OneRec(r, disp);
    OneRec(r, disp + e);
    hide TM, Elems;
    ElemsLength(r.typ.size, r.count, disp + r.disp, e);
    BlockStart(r.typ.size, r.count, disp + e + r.disp, e);
    assert Iter([r], disp, e, n) == TM([r], disp) + Iter([r], disp + e, e, n - 1);
    assert Iter([r], disp + e, e, n - 1) == TM([r], disp + e) + Iter([r], disp + e + e, e, n - 2);
  }

  lemma {:induction false} Products(k: nat, n: nat)
    requires k >= 2 && n >= 2
    ensures k * n == k + k * (n - 1) && k * (n - 1) >= 1
  {}

  lemma {:induction false} Unequal(k: nat, e: int)
    requires k >= 2 && e != 0
    ensures k * e != e
  {}

  lemma {:induction false} BlockStart(size: nat, n: nat, disp: int, extent: int)
    requires size >= 1 && n >= 1
    ensures |Elems(size, n, disp, extent)| >= 1 && Elems(size, n, disp, extent)[0] == disp
  {}

  /** What is appended for a derived type are its copies, unless a record is overstretched. */
  lemma {:induction false} DerivedTM(c: seq<Rec>, span: int, size: nat, contiguous: bool, n: nat, disp: int,
                                     extent: int)
    requires WF(c) && c != [] && n >= 1 && size == |TM(c, 0)| && (contiguous ==> TM(c, 0) == Run(First(c), size))
    ensures var o := DerivedRecords(c, span, size, contiguous, n, disp, extent);
            && WF(o) && |TM(o, 0)| == n * size
            && (TM(o, 0) == Iter(c, disp, extent, n) <==> !Overstretched(c, span, n, extent))
  {
    hide TM, WF, First, Run, Elems, Iter;
    IterLength(c, disp, extent, n);
    if Collapses(c, span, extent) {
      CollapsedTM(c, n, disp);
    } else if n == 1 {
      MovedWF(c, disp);
      MovedTM(c, disp, 0);
      IterOnce(c, disp, extent);
    } else {
      MovedRunTM(c, size, contiguous, disp);
      MovedIter(c, disp, 0, extent, n);
      LoopedTM(Moved(c, disp), size, contiguous, n, extent);
    }
  }

  lemma {:induction false} CollapsedTM(c: seq<Rec>, n: nat, disp: int)
    requires WF(c) && |c| == 1 && c[0].Data? && n >= 1
    ensures var o := [Repeated(c[0], n, disp)];
            && c[0].count >= 1 && WF(o) && |TM(o, 0)| == |Iter(c, disp, c[0].extent, n)|
            && (TM(o, 0) == Iter(c, disp, c[0].extent, n) <==> n == 1 || c[0].count == 1 || c[0].extent == 0)
  {
    assert c == [c[0]];
    assert c[0].typ.size >= 1 && c[0].count >= 1;
    hide TM, Elems, Iter, WF;
    RepeatedTM(c[0], n, disp);
    Positive(c[0].count, n);
    OneRec(Repeated(c[0], n, disp), 0);
  }

  lemma {:induction false} MovedRunTM(c: seq<Rec>, size: nat, contiguous: bool, disp: int)
    requires WF(c) && c != [] && size == |TM(c, 0)| && (contiguous ==> TM(c, 0) == Run(First(c), size))
    ensures var m := Moved(c, disp);
            WF(m) && |TM(m, 0)| == size && (contiguous ==> TM(m, 0) == Run(First(m), size))
  {
    hide TM, WF, First, Run;
    MovedWF(c, disp);
    MovedTM(c, disp, 0);
    TMShift(c, 0, disp);
    RunMoved(First(c), size, disp);
  }

  lemma {:induction false} Positive(a: nat, b: nat)
    requires a >= 1 && b >= 1
    ensures a * b >= 1
  {}

  lemma {:induction false} IterOnce(c: seq<Rec>, disp: int, extent: int)
    ensures Iter(c, disp, extent, 1) == TM(c, disp)
  {
    hide TM;
    assert Iter(c, disp, extent, 1) == TM(c, disp) + Iter(c, disp + extent, extent, 0);
  }

  // ----- their elements -----

  lemma {:induction false} MovedMarks(c: seq<Rec>, d: int)
    ensures G.Marks(Moved(c, d)) == G.Marks(c)
    decreases |c|
  {
    hide *;
    if c == [] {
      assert Moved(c, d) == [];
    } else {
      MovedHead(c, d);
      G.MarksStep(c);
      G.MarksStep(Moved(c, d));
      if c[0].Data? {
        MovedMarks(c[1..], d);
      } else if c[0].Loop? && 2 <= c[0].items < |c| {
        MovedMarks(c[1..c[0].items], d);
        MovedMarks(c[c[0].items + 1..], d);
      } else {
        G.MarksNone(c);
        G.MarksNone(Moved(c, d));
      }
    }
  }

  lemma {:induction false} MovedHead(c: seq<Rec>, d: int)
    requires c != []
    ensures |Moved(c, d)| == |c| && Moved(c, d)[0] == MoveRec(c[0], d) && Moved(c, d)[1..] == Moved(c[1..], d)
    ensures c[0].Data? <==> MoveRec(c[0], d).Data?
    ensures c[0].Data? ==> MoveRec(c[0], d).typ == c[0].typ && MoveRec(c[0], d).count == c[0].count
    ensures c[0].Loop? <==> MoveRec(c[0], d).Loop?
    ensures c[0].Loop? ==> MoveRec(c[0], d) == c[0]
    ensures c[0].Loop? && 2 <= c[0].items < |c| ==>
              && Moved(c, d)[1..c[0].items] == Moved(c[1..c[0].items], d)
              && Moved(c, d)[c[0].items + 1..] == Moved(c[c[0].items + 1..], d)
  {}

  lemma {:induction false} LoopedMarks(c: seq<Rec>, size: nat, contiguous: bool, n: nat, extent: int)
    requires c != []
    ensures G.Marks(Looped(c, size, contiguous, n, extent)) == G.Times(G.Marks(c), n)
  {
    var o, items := Looped(c, size, contiguous, n, extent), |c| + 1;
    assert o[1..items] == c && o[items + 1..] == [];
    hide Looped, G.Marks, G.Times;
    G.MarksStep(o);
    G.NoMarks();
  }

  lemma {:induction false} BasicMarks(t: Basic, n: nat, disp: int, extent: int)
    ensures G.Marks([BasicRec(t)]) == G.Element(t)
    ensures G.Marks(BasicRecords(t, n, disp, extent)) == G.Times(G.Marks([BasicRec(t)]), n)
  {
    var d := Data(t, 1, disp, t.size, true);
    BasicAre(t, n, disp, extent);
    G.OneMarks(BasicRec(t));
    G.OneMarks(d);
    G.OneMarks(Data(t, n, disp, extent, true));
    OnceOnly(G.Element(t));
    hide BasicRecords, Looped, G.Marks, G.Times, G.Element;
    LoopedMarks([d], t.size, false, n, extent);
  }

  lemma {:induction false} OnceOnly(m: seq<G.Mark>)
    ensures G.Times(m, 1) == m
  {
    assert G.Times(m, 1) == m + G.Times(m, 0) == m + [];
  }

  /** What is appended has the elements of the copies, also where a record is overstretched. */
  lemma {:induction false} DerivedMarks(c: seq<Rec>, span: int, size: nat, contiguous: bool, n: nat, disp: int,
                                        extent: int)
    requires c != []
    ensures G.Marks(DerivedRecords(c, span, size, contiguous, n, disp, extent)) == G.Times(G.Marks(c), n)
  {
    if Collapses(c, span, extent) {
      assert c == [c[0]];
      RepeatedIs(c[0], n, disp);
      G.OneMarks(c[0]);
      G.OneMarks(Repeated(c[0], n, disp));
      hide Repeated, G.Marks, G.Times, G.Element;
      G.TimesTimes(G.Element(c[0].typ), c[0].count, n);
    } else {
      hide Looped, G.Marks, G.Times;
      MovedMarks(c, disp);
      OnceOnly(G.Marks(c));
      if n != 1 { LoopedMarks(Moved(c, disp), size, contiguous, n, extent); }
    }
  }

  // ----- bounds -----

  /** The displacements lie in [lo, hi), and the bounds are tight. */
  ghost predicate Bounds(t: seq<int>, lo: int, hi: int) {
    (forall i :: 0 <= i < |t| ==> lo <= t[i] < hi) && lo in t && hi - 1 in t
  }

  function Min(a: int, b: int): int {
    if a < b then a else b
  }

  function Max(a: int, b: int): int {
    if a < b then b else a
  }

  lemma {:induction false} BoundsShift(t: seq<int>, lo: int, hi: int, d: int)
    requires Bounds(t, lo, hi)
    ensures Bounds(Shift(t, d), lo + d, hi + d)
  {
    var i :| 0 <= i < |t| && t[i] == lo;
    var j :| 0 <= j < |t| && t[j] == hi - 1;
    assert Shift(t, d)[i] == lo + d && Shift(t, d)[j] == hi - 1 + d;
  }

  lemma {:induction false} BoundsConcat(s: seq<int>, a: int, b: int, t: seq<int>, lo: int, hi: int)
    requires Bounds(s, a, b) && Bounds(t, lo, hi)
    ensures Bounds(s + t, Min(a, lo), Max(b, hi))
  {}

  lemma {:induction false} BoundsUnique(t: seq<int>, a: int, b: int, lo: int, hi: int)
    requires Bounds(t, a, b) && Bounds(t, lo, hi)
    ensures a == lo && b == hi
  {}

  /** The bounds of `n` copies. */
  lemma {:induction false} BoundsIter(c: seq<Rec>, lo: int, hi: int, base: int, extent: int, n: nat)
    requires Bounds(TM(c, 0), lo, hi) && n >= 1
    ensures Bounds(Iter(c, base, extent, n), base + Min(0, extent * (n - 1)) + lo, base + Max(0, extent * (n - 1)) + hi)
    decreases n
  {
    hide TM, Bounds;
    TMShift(c, 0, base);
    BoundsShift(TM(c, 0), lo, hi, base);
    if n == 1 {
      IterOnce(c, base, extent);
    } else {
      BoundsIter(c, lo, hi, base + extent, extent, n - 1);
      BoundsConcat(TM(c, base), lo + base, hi + base, Iter(c, base + extent, extent, n - 1),
                   base + extent + Min(0, extent * (n - 2)) + lo, base + extent + Max(0, extent * (n - 2)) + hi);
      Ends(extent, n);
    }
  }

  lemma {:induction false} Ends(e: int, n: nat)
    requires n >= 2
    ensures Min(0, e + Min(0, e * (n - 2))) == Min(0, e * (n - 1))
    ensures Max(0, e + Max(0, e * (n - 2))) == Max(0, e * (n - 1))
  {
    assert e * (n - 1) == e + e * (n - 2);
    if e >= 0 { Sign(e, n - 2); } else { Sign(-e, n - 2); assert e * (n - 2) == -(-e * (n - 2)); }
  }

  lemma {:induction false} Sign(a: nat, b: nat)
    ensures a * b >= 0
  {}

  // ----- contiguity -----

  /** `n` copies of a run are a run if the copies follow each other. */
  lemma {:induction false} RunCopies(c: seq<Rec>, first: int, size: nat, base: int, extent: int, n: nat)
    requires TM(c, 0) == Run(first, size) && n >= 1 && (n == 1 || extent == size)
    ensures n * size >= 0 && Iter(c, base, extent, n) == Run(base + first, n * size)
  {
    IterElems(c, first, size, base, extent, n);
    if n == 1 {
      SingleBlock(size, base + first, extent);
    } else {
      ElemsRun(size, n, base + first);
    }
  }

  lemma {:induction false} RunBounds(first: int, size: nat, lo: int, hi: int)
    requires size >= 1 && Bounds(Run(first, size), lo, hi)
    ensures lo == first && hi == first + size
  {
    var t := Run(first, size);
    assert t[0] == first && t[size - 1] == first + size - 1;
  }

  // ----- what the fields of a datatype say about its description -----

  const LONG_MAX: int := 0x7FFF_FFFF_FFFF_FFFF
  const LONG_MIN: int := -0x8000_0000_0000_0000

  /** The description may be packed, compiled and added: its size is the number of bytes, its true
      bounds are tight, and the contiguous flag is only set if the bytes form one ascending run. */
  ghost predicate Described(c: seq<Rec>, size: nat, nbElems: nat, trueLb: int, trueUb: int, contiguous: bool) {
    && WF(c) && O.Repeating(c) && size == |TM(c, 0)| && (nbElems == 0 <==> c == [])
    && (c != [] ==> Bounds(TM(c, 0), trueLb, trueUb))
    && (c != [] && contiguous ==> TM(c, 0) == Run(trueLb, size))
  }

  /** What holds of every description, also of one that does not denote what was added: it is well formed,
      and its size is the number of bytes. */
  ghost predicate Structured(c: seq<Rec>, size: nat, nbElems: nat) {
    WF(c) && O.Repeating(c) && size == |TM(c, 0)| && (nbElems == 0 <==> c == [])
  }

  lemma {:induction false} DescribedStructured(c: seq<Rec>, size: nat, nbElems: nat, trueLb: int, trueUb: int,
                                               contiguous: bool)
    requires Described(c, size, nbElems, trueLb, trueUb, contiguous)
    ensures Structured(c, size, nbElems) && (size == 0 <==> c == [])
    ensures contiguous && c != [] ==> TM(c, 0) == Run(First(c), size)
  {
    if c != [] { TMNonEmpty(c, 0); }
    if contiguous && c != [] { RunFirst(c, trueLb, size); }
    hide WF, TM, O.Repeating, Bounds, First;
  }

  /** Appending records that denote something of the right length. */
  lemma {:induction false} AppendStructured(c: seq<Rec>, size: nat, nbElems: nat, o: seq<Rec>, bytes: nat, more: nat)
    requires Structured(c, size, nbElems) && WF(o) && O.Repeating(o) && o != [] && |TM(o, 0)| == bytes && more >= 1
    ensures Structured(c + o, size + bytes, nbElems + more)
  {
    hide TM, WF, O.Repeating;
    WFConcat(c, o);
    TMConcat(c, o, 0);
    RepeatingConcat(c, o);
  }

  /** Copies of a contiguous datatype that follow each other are not overstretched. */
  lemma {:induction false} RunNotStretched(c: seq<Rec>, span: int, size: nat, first: int, n: nat, extent: int)
    requires WF(c) && c != [] && size == |TM(c, 0)| && TM(c, 0) == Run(first, size) && (size == extent || n < 2)
    ensures !Overstretched(c, span, n, extent)
  {
    if Collapses(c, span, extent) && n >= 2 {
      var r := c[0];
      assert c == [r];
      OneRec(r, 0);
      RunFirst(c, first, size);
      ElemsLength(r.typ.size, r.count, r.disp, r.extent);
      ElemsRunIff(r.typ.size, r.count, r.disp, r.extent);
      hide TM, Run, Elems;
    }
  }

  /** What is known about records that are about to be appended: they denote `t`. */
  ghost predicate Denotes(o: seq<Rec>, t: seq<int>, lo: int, hi: int) {
    WF(o) && O.Repeating(o) && o != [] && TM(o, 0) == t && Bounds(t, lo, hi)
  }

  lemma {:induction false} RepeatingConcat(a: seq<Rec>, b: seq<Rec>)
    requires O.Repeating(a) && O.Repeating(b)
    ensures O.Repeating(a + b)
  {}

  /** Appending to a description. */
  lemma {:induction false} AppendDescribed(c: seq<Rec>, size: nat, nbElems: nat, trueLb: int, trueUb: int,
                                           contiguous: bool,
                                           o: seq<Rec>, t: seq<int>, lo: int, hi: int, more: nat, stays: bool)
    requires Described(c, size, nbElems, trueLb, trueUb, contiguous) && Denotes(o, t, lo, hi) && more >= 1
    requires c == [] ==> trueLb >= lo && trueUb <= hi
    requires stays ==> t == Run(lo, |t|) && (c != [] ==> contiguous && lo == trueUb)
    ensures TM(c + o, 0) == TM(c, 0) + t
    ensures Described(c + o, size + |t|, nbElems + more, Min(lo, trueLb), Max(hi, trueUb), stays)
  {
    hide TM, WF, Run, Bounds, O.Repeating;
    WFConcat(c, o);
    TMConcat(c, o, 0);
    RepeatingConcat(c, o);
    assert c + o != [];
    if c == [] {
      NoBytes(t);
    } else {
      BoundsConcat(TM(c, 0), trueLb, trueUb, t, lo, hi);
      Commute(lo, hi, trueLb, trueUb);
      if stays { LongerRun(c, size, trueLb, trueUb, t); }
    }
  }

  lemma {:induction false} NoBytes(t: seq<int>)
    ensures TM([], 0) == [] && [] + t == t
  {}

  lemma {:induction false} Commute(a: int, b: int, lo: int, hi: int)
    ensures Min(a, lo) == Min(lo, a) && Max(b, hi) == Max(hi, b)
  {}

  lemma {:induction false} LongerRun(c: seq<Rec>, size: nat, trueLb: int, trueUb: int, t: seq<int>)
    requires size == |TM(c, 0)| && TM(c, 0) == Run(trueLb, size) && Bounds(TM(c, 0), trueLb, trueUb)
    requires t == Run(trueUb, |t|)
    ensures TM(c, 0) + t == Run(Min(trueUb, trueLb), size + |t|)
  {
    hide TM;
    assert size >= 1;
    RunBounds(trueLb, size, trueLb, trueUb);
    RunSplit(trueLb, size, |t|);
  }

  lemma {:induction false} BasicDescribed(t: Basic)
    requires t.size >= 1
    ensures Described([BasicRec(t)], t.size, 1, 0, t.size, true)
  {
    OneRec(BasicRec(t), 0);
    SingleBlock(t.size, 0, t.size);
    hide TM, WF, Elems;
    assert Run(0, t.size)[0] == 0 && Run(0, t.size)[t.size - 1] == t.size - 1;
  }

  lemma {:induction false} EmptyDescribed(trueLb: int, trueUb: int, contiguous: bool)
    ensures Described([], 0, 0, trueLb, trueUb, contiguous)
  {}

  lemma {:induction false} BasicRepeating(t: Basic, n: nat, disp: int, extent: int)
    requires n >= 1
    ensures O.Repeating(BasicRecords(t, n, disp, extent)) && BasicRecords(t, n, disp, extent) != []
  {}

  /** The records appended for `n` copies of a basic type. */
  lemma {:induction false} BasicAppended(t: Basic, n: nat, disp: int, extent: int)
    requires t.size >= 1 && n >= 1
    ensures Denotes(BasicRecords(t, n, disp, extent), Iter([BasicRec(t)], disp, extent, n),
                    disp + Min(0, extent * (n - 1)), disp + Max(0, extent * (n - 1)) + t.size)
  {
    hide TM, WF, Bounds, Run, Iter, Elems, BasicRecords, O.Repeating, Min, Max;
    BasicDescribed(t);
    BasicRepeating(t, n, disp, extent);
    BasicTM(t, n, disp, extent);
    BoundsIter([BasicRec(t)], 0, t.size, disp, extent, n);
  }

  /** The records appended for `n` copies of a derived type. */
  lemma {:induction false} DerivedStructured(c: seq<Rec>, size: nat, nbElems: nat, contiguous: bool, span: int, n: nat,
                                             disp: int, extent: int)
    requires Structured(c, size, nbElems) && c != [] && n >= 1 && (contiguous ==> TM(c, 0) == Run(First(c), size))
    ensures var o := DerivedRecords(c, span, size, contiguous, n, disp, extent);
            && WF(o) && |TM(o, 0)| == n * size && o != [] && O.Repeating(o)
            && (TM(o, 0) == Iter(c, disp, extent, n) <==> !Overstretched(c, span, n, extent))
  {
    hide TM, WF, Run, First, O.Repeating, DerivedRecords;
    DerivedTM(c, span, size, contiguous, n, disp, extent);
    DerivedRepeating(c, span, size, contiguous, n, disp, extent);
  }

  lemma {:induction false} DerivedAppended(c: seq<Rec>, size: nat, nbElems: nat, trueLb: int, trueUb: int,
                                           contiguous: bool,
                                           span: int, n: nat, disp: int, extent: int)
    requires Described(c, size, nbElems, trueLb, trueUb, contiguous) && c != [] && n >= 1
    requires !Overstretched(c, span, n, extent)
    ensures Denotes(DerivedRecords(c, span, size, contiguous, n, disp, extent), Iter(c, disp, extent, n),
                    disp + Min(0, extent * (n - 1)) + trueLb, disp + Max(0, extent * (n - 1)) + trueUb)
  {
    DescribedStructured(c, size, nbElems, trueLb, trueUb, contiguous);
    hide TM, WF, Bounds, Run, O.Repeating, DerivedRecords, Structured;
    DerivedStructured(c, size, nbElems, contiguous, span, n, disp, extent);
    BoundsIter(c, trueLb, trueUb, disp, extent, n);
  }

  lemma {:induction false} RunFirst(c: seq<Rec>, first: int, size: nat)
    requires WF(c) && c != [] && TM(c, 0) == Run(first, size)
    ensures First(c) == first
  {
    FirstIsFirst(c, 0);
  }

  lemma {:induction false} DerivedRepeating(c: seq<Rec>, span: int, size: nat, contiguous: bool, n: nat, disp: int,
                                            extent: int)
    requires O.Repeating(c) && c != [] && n >= 1
    ensures var o := DerivedRecords(c, span, size, contiguous, n, disp, extent); o != [] && O.Repeating(o)
  {
    if !Collapses(c, span, extent) {
      forall i | 0 <= i < |c| ensures Moved(c, disp)[i] == MoveRec(c[i], disp) {}
      assert O.Repeating(Moved(c, disp));
      if n > 1 {
        RepeatingConcat([Loop(n, |c| + 1, extent, contiguous)], Moved(c, disp));
        RepeatingConcat([Loop(n, |c| + 1, extent, contiguous)] + Moved(c, disp),
                        [EndLoop(|c| + 1, size, First(Moved(c, disp)))]);
      }
    }
  }

  lemma {:induction false} Emptiness(c: seq<Rec>, size: nat, nbElems: nat, trueLb: int, trueUb: int, contiguous: bool)
    requires Described(c, size, nbElems, trueLb, trueUb, contiguous)
    ensures WF(c) && size == |TM(c, 0)| && (nbElems == 0 <==> c == []) && (size == 0 <==> c == [])
    ensures c != [] ==> Bounds(TM(c, 0), trueLb, trueUb)
  {
    if c != [] { TMNonEmpty(c, 0); }
  }

  /** Appending records that denote `t`, or something else of the same length. */
  lemma {:induction false} AppendTM(c: seq<Rec>, o: seq<Rec>, t: seq<int>)
    requires WF(c) && WF(o)
    ensures TM(c + o, 0) == TM(c, 0) + t <==> TM(o, 0) == t
    ensures |TM(c + o, 0)| == |TM(c, 0)| + |TM(o, 0)|
  {
    hide TM, WF;
    TMConcat(c, o, 0);
    if TM(c, 0) + TM(o, 0) == TM(c, 0) + t {
      assert TM(o, 0) == (TM(c, 0) + TM(o, 0))[|TM(c, 0)|..];
      assert t == (TM(c, 0) + t)[|TM(c, 0)|..];
    }
  }

  /** Copies of a contiguous datatype that follow each other are one run. */
  lemma {:induction false} StaysRun(c: seq<Rec>, size: nat, nbElems: nat, trueLb: int, trueUb: int, disp: int,
                                    extent: int, n: nat)
    requires Described(c, size, nbElems, trueLb, trueUb, true) && c != [] && n >= 1 && (size == extent || n < 2)
    ensures Iter(c, disp, extent, n) == Run(disp + trueLb, |Iter(c, disp, extent, n)|) && Min(0, extent * (n - 1)) == 0
  {
    hide TM, WF, Bounds, O.Repeating;
    RunCopies(c, trueLb, size, disp, extent, n);
    if n > 1 { Sign(size, n - 1); }
  }

  /** All displacements follow each other. */
  ghost predicate OneRun(t: seq<int>) {
    t == [] || t == Run(t[0], |t|)
  }

  /** A run and copies of a run are one run exactly if the copies begin where the first one ends and follow
      each other. */
  lemma {:induction false} FollowsExact(t: seq<int>, first: int, c: seq<Rec>, start: int, size: nat, disp: int,
                                        extent: int, n: nat)
    requires t == Run(first, |t|) && TM(c, 0) == Run(start, size) && size >= 1 && n >= 1
    ensures OneRun(t + Iter(c, disp, extent, n))
            <==> (t == [] || disp + start == first + |t|) && (n == 1 || extent == size)
  {
    var u, at := Iter(c, disp, extent, n), disp + start;
    IterElems(c, start, size, disp, extent, n);
    ElemsRunIff(size, n, at, extent);
    ElemsLength(size, n, at, extent);
    BlockStart(size, n, at, extent);
    hide TM, Iter, Elems;
    assert |u| == n * size && u[0] == at;
    if t == [] {
      assert t + u == u;
      assert Run(at, |u|)[0] == at;
    } else {
      assert (t + u)[0] == t[0] == first;
      RunSplit(first, |t|, |u|);
      CatEqual(t, u, Run(first, |t|), Run(first + |t|, |u|));
      assert Run(first + |t|, |u|)[0] == first + |t|;
    }
  }
}
