/** The type signature of a description (MPI-2.1, section 4.1), byte by byte: which byte of which
    basic element each byte of a message is.

    Packing splits no element, and unpacking holds a split element in a temporary of 16 bytes, so it
    matters how a description cuts the message into elements, not only where the bytes are. */
module Signature {
  import opened Typemap
  import O = OptimizeSpec
  import S = SplitPoint

  /** A byte of a basic element: the type, and how many bytes of the element come before it. */
  datatype Mark = Mark(typ: Basic, at: nat)

  ghost function Element(t: Basic): (m: seq<Mark>)
    ensures |m| == t.size
  {
    seq(t.size, i requires 0 <= i < t.size => Mark(t, i))
  }

  ghost function Times(m: seq<Mark>, n: nat): seq<Mark> {
    if n == 0 then [] else m + Times(m, n - 1)
  }

  ghost function Marks(c: seq<Rec>): seq<Mark>
    decreases |c|
  {
    if c == [] then []
    else match c[0]
      case Data(t, count, _, _, _) => Times(Element(t), count) + Marks(c[1..])
      case Loop(loops, items, _, _) =>
        if 2 <= items < |c| then Times(Marks(c[1..items]), loops) + Marks(c[items + 1..]) else []
      case EndLoop(_, _, _) => []
  }

  // ----- repetition -----

  lemma {:induction false} TimesLength(m: seq<Mark>, n: nat)
    ensures |Times(m, n)| == n * |m|
  {
    if n > 0 {
      TimesLength(m, n - 1);
      assert n * |m| == |m| + (n - 1) * |m|;
    }
  }

  lemma {:induction false} TimesSplit(m: seq<Mark>, a: nat, b: nat)
    ensures Times(m, a + b) == Times(m, a) + Times(m, b)
  {
    if a > 0 {
      TimesSplit(m, a - 1, b);
      assert a + b - 1 == (a - 1) + b;
    }
  }

  lemma {:induction false} TimesTimes(m: seq<Mark>, a: nat, b: nat)
    ensures a * b >= 0 && Times(m, a * b) == Times(Times(m, a), b)
    decreases b
  {
    if b > 0 {
      TimesTimes(m, a, b - 1);
      assert a * b == a + a * (b - 1);
      TimesSplit(m, a, a * (b - 1));
    } else {
      assert a * b == 0;
    }
  }

  lemma {:induction false} TimesAt(m: seq<Mark>, n: nat, i: nat)
    requires |m| > 0 && i < n * |m|
    ensures i < |Times(m, n)| && Times(m, n)[i] == m[i % |m|]
    decreases n
  {
    TimesLength(m, n);
    ModStep(i, |m|);
    if i >= |m| {
      assert n * |m| == |m| + (n - 1) * |m|;
      TimesAt(m, n - 1, i - |m|);
    }
  }

  lemma {:induction false} ModStep(i: nat, k: nat)
    requires k > 0
    ensures i < k ==> i % k == i
    ensures i >= k ==> i % k == (i - k) % k
  {
    if i >= k {
      var q, r := (i - k) / k, (i - k) % k;
      assert i == (q + 1) * k + r;
      S.ModOf(q + 1, r, k);
    }
  }

  /** A description has one mark for every byte. */
  lemma {:induction false} MarksLength(c: seq<Rec>)
    ensures |Marks(c)| == |TM(c, 0)|
    decreases |c|
  {
    hide Elems, Iter, Times;
    if c != [] {
      match c[0]
      case Data(t, count, disp, extent, _) =>
        TimesLength(Element(t), count);
        ElemsLength(t.size, count, 0 + disp, extent);
        MarksLength(c[1..]);
      case Loop(loops, items, extent, _) =>
        if 2 <= items < |c| {
          MarksLength(c[1..items]);
          MarksLength(c[items + 1..]);
          TimesLength(Marks(c[1..items]), loops);
          IterLength(c[1..items], 0, extent, loops);
        }
      case EndLoop(_, _, _) =>
    }
  }

  lemma {:induction false} MarksStep(c: seq<Rec>)
    requires c != []
    ensures c[0].Data? ==> Marks(c) == Times(Element(c[0].typ), c[0].count) + Marks(c[1..])
    ensures c[0].Loop? && 2 <= c[0].items < |c| ==>
              Marks(c) == Times(Marks(c[1..c[0].items]), c[0].loops) + Marks(c[c[0].items + 1..])
  {}

  lemma {:induction false} MarksNone(c: seq<Rec>)
    requires c != [] && !c[0].Data? && !(c[0].Loop? && 2 <= c[0].items < |c|)
    ensures Marks(c) == []
  {}

  lemma {:induction false} NoMarks()
    ensures Marks([]) == [] && forall m: seq<Mark> :: [] + m == m + [] == m
  {}

  lemma {:induction false} Regroup(a: seq<Mark>, b: seq<Mark>, c: seq<Mark>)
    ensures a + (b + c) == a + b + c
  {}

  /** Signatures of descriptions compose. */
  lemma {:induction false} MarksConcat(a: seq<Rec>, b: seq<Rec>)
    requires O.Nested(a)
    ensures Marks(a + b) == Marks(a) + Marks(b)
    decreases |a|
  {
    hide Marks, Times;
    if a == [] {
      assert a + b == b;
      NoMarks();
    } else if a[0].Data? {
      MarksConcat(a[1..], b);
      assert (a + b)[1..] == a[1..] + b && (a + b)[0] == a[0];
      MarksStep(a);
      MarksStep(a + b);
      Regroup(Times(Element(a[0].typ), a[0].count), Marks(a[1..]), Marks(b));
    } else {
      var items := a[0].items;
      assert a[0].Loop? && 2 <= items < |a| && O.Nested(a[items + 1..]);
      MarksConcat(a[items + 1..], b);
      hide O.Nested;
      assert (a + b)[1..items] == a[1..items] && (a + b)[0] == a[0];
      assert (a + b)[items + 1..] == a[items + 1..] + b;
      MarksStep(a);
      MarksStep(a + b);
      Regroup(Times(Marks(a[1..items]), a[0].loops), Marks(a[items + 1..]), Marks(b));
    }
  }

  lemma {:induction false} OneMarks(r: Rec)
    requires r.Data?
    ensures Marks([r]) == Times(Element(r.typ), r.count)
  {
    hide Times;
    assert [r][1..] == [];
    NoMarks();
  }

  // ----- cutting elements into bytes -----

  /** Every element of `b` is one of `a` as well, or was cut into bytes. */
  ghost predicate Refines(a: seq<Mark>, b: seq<Mark>) {
    |a| == |b| && forall i :: 0 <= i < |a| ==> a[i] == b[i] || a[i] == Mark(DT_BYTE, 0)
  }

  lemma {:induction false} RefinesCat(a: seq<Mark>, b: seq<Mark>, x: seq<Mark>, y: seq<Mark>)
    requires Refines(a, b) && Refines(x, y)
    ensures Refines(a + x, b + y)
  {}

  lemma {:induction false} RefinesTimes(a: seq<Mark>, b: seq<Mark>, n: nat)
    requires Refines(a, b)
    ensures Refines(Times(a, n), Times(b, n))
  {
    if n > 0 {
      RefinesTimes(a, b, n - 1);
      RefinesCat(a, b, Times(a, n - 1), Times(b, n - 1));
    }
  }

  lemma {:induction false} RefinesSame(a: seq<Mark>)
    ensures Refines(a, a)
  {}

  lemma {:induction false} RefinesTrans(a: seq<Mark>, b: seq<Mark>, c: seq<Mark>)
    requires Refines(a, b) && Refines(b, c)
    ensures Refines(a, c)
  {}

  lemma {:induction false} BytesRefine(n: nat, m: seq<Mark>)
    requires |m| == n
    ensures Refines(Times(Element(DT_BYTE), n), m)
  {
    TimesLength(Element(DT_BYTE), n);
    forall i | 0 <= i < n ensures Times(Element(DT_BYTE), n)[i] == Mark(DT_BYTE, 0) {
      TimesAt(Element(DT_BYTE), n, i);
    }
  }

  // ----- what the compiler does to the signature -----

  ghost function PendingMarks(p: O.Pending): seq<Mark> {
    Marks(O.Flush(p))
  }

  lemma {:induction false} PendingIs(p: O.Pending)
    ensures p.NoRun? ==> PendingMarks(p) == []
    ensures p.Pend? ==> PendingMarks(p) == Times(Element(p.typ), p.len)
    ensures p.Pend? ==> |PendingMarks(p)| == p.len * p.typ.size
  {
    hide Times;
    NoMarks();
    if p.Pend? {
      OneMarks(O.Flush(p)[0]);
      TimesLength(Element(p.typ), p.len);
    }
  }

  lemma {:induction false} FlushMarks(p: O.Pending, o: seq<Rec>)
    ensures Marks(O.Flush(p) + o) == PendingMarks(p) + Marks(o)
  {
    hide Marks;
    NoMarks();
    if p.Pend? {
      O.OneData(O.Flush(p)[0]);
      hide O.Flush;
      MarksConcat(O.Flush(p), o);
    } else {
      assert O.Flush(p) + o == o;
    }
  }

  lemma {:induction false} AddDataRefines(p: O.Pending, r: Rec)
    requires r.Data?
    ensures Refines(PendingMarks(O.AddData(p, r)),
                    (if O.Merges(p, r) then PendingMarks(p) else []) + Times(Element(r.typ), r.count))
  {
    var q, e := O.AddData(p, r), Times(Element(r.typ), r.count);
    PendingIs(p);
    PendingIs(q);
    NoMarks();
    TimesLength(Element(r.typ), r.count);
    if O.Merges(p, r) && r.typ != p.typ {
      BytesRefine(q.len, PendingMarks(p) + e);
    } else {
      if O.Merges(p, r) { TimesSplit(Element(r.typ), p.len, r.count); }
      hide Times, PendingMarks;
      RefinesSame(PendingMarks(q));
    }
  }

  lemma {:induction false} AddRunRefines(p: O.Pending, first: int, bytes: nat, m: seq<Mark>)
    requires |m| == bytes
    ensures Refines(PendingMarks(O.AddRun(p, first, bytes)),
                    (if O.Continues(p, first) then PendingMarks(p) else []) + m)
  {
    var q := O.AddRun(p, first, bytes);
    PendingIs(p);
    PendingIs(q);
    NoMarks();
    hide Times, PendingMarks;
    BytesRefine(q.len, (if O.Continues(p, first) then PendingMarks(p) else []) + m);
  }

  /** Something is taken into the pending run, which becomes `q`, or starts a new one. */
  lemma {:induction false} TakenRefines(p: O.Pending, q: O.Pending, joined: bool, x: seq<Mark>, rest: seq<Mark>,
                                        o: seq<Rec>)
    requires Refines(PendingMarks(q), (if joined then PendingMarks(p) else []) + x)
    requires Refines(Marks(o), PendingMarks(q) + rest)
    ensures Refines(Marks((if joined then [] else O.Flush(p)) + o), PendingMarks(p) + (x + rest))
  {
    FlushMarks(p, o);
    assert [] + o == o;
    hide Marks, PendingMarks, Refines;
    var y := (if joined then PendingMarks(p) else []) + x;
    RefinesSame(rest);
    RefinesCat(PendingMarks(q), y, rest, rest);
    RefinesTrans(Marks(o), PendingMarks(q) + rest, y + rest);
    Regroup(PendingMarks(p), x, rest);
    if !joined {
      assert y == x;
      RefinesSame(PendingMarks(p));
      RefinesCat(PendingMarks(p), PendingMarks(p), Marks(o), x + rest);
    }
  }

  lemma {:induction false} LoopMarks(c: seq<Rec>)
    requires WF(c) && c != [] && c[0].Loop?
    ensures 2 <= c[0].items < |c| && c[c[0].items].EndLoop?
    ensures Marks(c) == Times(Marks(c[1..c[0].items]), c[0].loops) + Marks(c[c[0].items + 1..])
    ensures |Times(Marks(c[1..c[0].items]), c[0].loops)| == c[0].loops * c[c[0].items].size
  {
    O.LoopHead(c);
    MarksStep(c);
    hide Marks, Times, TM, WF;
    MarksLength(c[1..c[0].items]);
    TimesLength(Marks(c[1..c[0].items]), c[0].loops);
  }

  /** A loop that is emitted as `o`, after the pending run, and then the rest. */
  lemma {:induction false} OtherRefines(c: seq<Rec>, p: O.Pending, o: seq<Rec>)
    requires WF(c) && c != [] && c[0].Loop? && c[0].items < |c| && WF(c[c[0].items + 1..]) && O.Nested(o)
    requires Refines(Marks(o), Times(Marks(c[1..c[0].items]), c[0].loops))
    requires Refines(Marks(O.Opt(c[c[0].items + 1..], O.NoRun)), PendingMarks(O.NoRun) + Marks(c[c[0].items + 1..]))
    requires O.Opt(c, p) == O.Flush(p) + o + O.Opt(c[c[0].items + 1..], O.NoRun)
    ensures Refines(Marks(O.Opt(c, p)), PendingMarks(p) + Marks(c))
  {
    LoopMarks(c);
    hide *;
    var rest, x := c[c[0].items + 1..], Times(Marks(c[1..c[0].items]), c[0].loops);
    var r := O.Opt(rest, O.NoRun);
    O.Assoc(O.Flush(p), o, r);
    FlushMarks(p, o + r);
    MarksConcat(o, r);
    PendingIs(O.NoRun);
    NoMarks();
    RefinesCat(Marks(o), x, Marks(r), Marks(rest));
    RefinesSame(PendingMarks(p));
    RefinesCat(PendingMarks(p), PendingMarks(p), Marks(o) + Marks(r), x + Marks(rest));
  }

  lemma {:induction false} ByteLoopMarks(n: nat, extent: int, size: nat, first: int, last: int, contiguous: bool)
    ensures var o := [Loop(n, 2, extent, contiguous), Data(DT_BYTE, size, first, 1, true), EndLoop(2, size, last)];
            O.Nested(o) && size * n >= 0 && Marks(o) == Times(Element(DT_BYTE), size * n)
  {
    var o := [Loop(n, 2, extent, contiguous), Data(DT_BYTE, size, first, 1, true), EndLoop(2, size, last)];
    assert o[1..2] == [o[1]] && o[3..] == [];
    O.OneData(o[1]);
    assert O.Nested([]);
    hide Times, Marks, TM;
    OneMarks(o[1]);
    MarksStep(o);
    NoMarks();
    TimesTimes(Element(DT_BYTE), size, n);
  }

  lemma {:induction false} GappedRefines(p: O.Pending, loop: Rec, end: Rec, first: int, m: seq<Mark>)
    requires loop.Loop? && end.EndLoop? && loop.loops >= 1 && |m| == loop.loops * end.size
    requires O.PendOK(p) && end.size >= 1
    ensures O.Nested(O.GappedLoop(p, loop, end, first))
    ensures Refines(Marks(O.GappedLoop(p, loop, end, first)), PendingMarks(p) + m)
  {
    var n := O.Repetitions(p, loop, first);
    var o := [Loop(n, 2, loop.extent, loop.contiguous), Data(DT_BYTE, end.size, first, 1, true),
              EndLoop(2, end.size, end.first)];
    ByteLoopMarks(n, loop.extent, end.size, first, end.first, loop.contiguous);
    assert O.GappedLoop(p, loop, end, first) == O.Joined(p, end, first) + o;
    hide TM, WF, Times, Marks, O.Nested, PendingMarks, Refines, O.GappedLoop;
    PendingIs(p);
    if O.Continues(p, first) {
      Joins(p, end, first, o);
      Peeled(p.len * p.typ.size, end.size, loop.loops, PendingMarks(p), m);
    } else {
      O.FlushTM(p);
      O.NestedConcat(O.Flush(p), o);
      FlushMarks(p, o);
      Commutes(end.size, n);
      BytesRefine(end.size * n, m);
      RefinesSame(PendingMarks(p));
      RefinesCat(PendingMarks(p), PendingMarks(p), Marks(o), m);
    }
  }

  lemma {:induction false} Commutes(a: nat, b: nat)
    ensures a * b == b * a >= 0
  {}

  /** The first repetition of a loop is put together with what was pending; all of it is bytes. */
  lemma {:induction false} Peeled(bytes: int, size: nat, loops: nat, a: seq<Mark>, m: seq<Mark>)
    requires loops >= 1 && |a| == bytes && |m| == loops * size
    ensures size * (loops - 1) >= 0
    ensures Refines(Times(Element(DT_BYTE), bytes + size) + Times(Element(DT_BYTE), size * (loops - 1)), a + m)
  {
    Commutes(size, loops - 1);
    assert loops * size == size + (loops - 1) * size;
    TimesSplit(Element(DT_BYTE), bytes + size, size * (loops - 1));
    BytesRefine(bytes + size + size * (loops - 1), a + m);
  }

  lemma {:induction false} Joins(p: O.Pending, end: Rec, first: int, o: seq<Rec>)
    requires end.EndLoop? && end.size >= 1 && O.Continues(p, first) && O.Nested(o)
    ensures O.Nested(O.Joined(p, end, first) + o)
    ensures Marks(O.Joined(p, end, first) + o)
         == Times(Element(DT_BYTE), p.len * p.typ.size + end.size) + Marks(o)
  {
    var q := O.Pend(DT_BYTE, p.len * p.typ.size + end.size, p.disp, 1);
    O.FlushTM(q);
    hide TM, WF, Times, Marks, O.Nested;
    O.NestedConcat(O.Flush(q), o);
    FlushMarks(q, o);
    PendingIs(q);
  }

  lemma {:induction false} CopiesMarks(elem: Rec, n: nat, extent: int)
    requires elem.Data?
    ensures Marks(O.Copies(elem, n, extent)) == Times(Marks([elem]), n)
    decreases n
  {
    NoMarks();
    if n > 0 {
      var next := elem.(disp := elem.disp + extent);
      CopiesMarks(next, n - 1, extent);
      OneMarks(elem);
      OneMarks(next);
      O.OneData(elem);
      hide Marks;
      MarksConcat([elem], O.Copies(next, n - 1, extent));
    }
  }

  lemma {:induction false} WrapMarks(loop: Rec, body: seq<Rec>, end: Rec)
    requires loop.Loop? && end.EndLoop? && body != [] && O.Nested(body)
    ensures O.Nested(O.Wrap(loop, body, end))
    ensures Marks(O.Wrap(loop, body, end)) == Times(Marks(body), loop.loops)
  {
    hide O.Nested, Times, Marks;
    O.SliceWrap(loop, body, end);
    O.WrapShape(O.Wrap(loop, body, end), |body| + 1);
    hide O.Wrap;
    MarksStep(O.Wrap(loop, body, end));
    NoMarks();
  }

  /** For every description and every pending run: what is compiled has the elements of the original,
      in the same order, except that some are cut into bytes.  Altered displacements do not matter. */
  lemma {:induction false} OptRefines(c: seq<Rec>, p: O.Pending)
    requires WF(c) && O.PendOK(p)
    ensures Refines(Marks(O.Opt(c, p)), PendingMarks(p) + Marks(c))
    decreases |c|, 2
  {
    hide *;
    if c == [] {
      O.OptNothing(p);
      NoMarks();
      RefinesSame(PendingMarks(p));
      FlushMarks(p, []);
      assert O.Flush(p) + [] == O.Flush(p);
    } else {
      O.WFParts(c);
      if c[0].Data? {
        O.DataHead(c);
        O.OptDataUnfold(c, p);
        O.AddDataTM(p, c[0]);
        OptRefines(c[1..], O.AddData(p, c[0]));
        AddDataRefines(p, c[0]);
        MarksStep(c);
        TakenRefines(p, O.AddData(p, c[0]), O.Merges(p, c[0]), Times(Element(c[0].typ), c[0].count), Marks(c[1..]),
                     O.Opt(c[1..], O.AddData(p, c[0])));
      } else {
        LoopRefines(c, p);
      }
    }
  }

  lemma {:induction false} LoopRefines(c: seq<Rec>, p: O.Pending)
    requires WF(c) && O.PendOK(p) && c != [] && c[0].Loop?
    ensures Refines(Marks(O.Opt(c, p)), PendingMarks(p) + Marks(c))
    decreases |c|, 1
  {
    hide *;
    O.LoopHead(c);
    LoopMarks(c);
    var items := c[0].items;
    var end, first, rest := c[items], First(c), c[items + 1..];
    var x := Times(Marks(c[1..items]), c[0].loops);
    if c[0].contiguous && c[0].extent == end.size {
      O.Positive(c[0].loops, end.size);
      O.RunUnfold(c, p, O.Apart);
      var bytes := c[0].loops * end.size;
      O.AddRunTM(p, first, bytes);
      OptRefines(rest, O.AddRun(p, first, bytes));
      AddRunRefines(p, first, bytes, x);
      TakenRefines(p, O.AddRun(p, first, bytes), O.Continues(p, first), x, Marks(rest),
                   O.Opt(rest, O.AddRun(p, first, bytes)));
    } else {
      O.RightAlone(rest);
      OptRefines(rest, O.NoRun);
      if c[0].contiguous {
        O.GappedUnfold(c, p);
        GappedRefines(p, c[0], end, first, x);
        GappedRest(p, O.GappedLoop(p, c[0], end, first), x, rest);
      } else {
        OtherLoop(c, p);
      }
    }
  }

  lemma {:induction false} GappedRest(p: O.Pending, o: seq<Rec>, x: seq<Mark>, rest: seq<Rec>)
    requires O.Nested(o) && Refines(Marks(o), PendingMarks(p) + x) && WF(rest)
    requires Refines(Marks(O.Opt(rest, O.NoRun)), PendingMarks(O.NoRun) + Marks(rest))
    ensures Refines(Marks(o + O.Opt(rest, O.NoRun)), PendingMarks(p) + (x + Marks(rest)))
  {
    hide *;
    PendingIs(O.NoRun);
    NoMarks();
    MarksConcat(o, O.Opt(rest, O.NoRun));
    RefinesCat(Marks(o), PendingMarks(p) + x, Marks(O.Opt(rest, O.NoRun)), Marks(rest));
    Regroup(PendingMarks(p), x, Marks(rest));
  }

  /** A loop that is not contiguous: turned into a strided record, unrolled, or compiled inside. */
  lemma {:induction false} OtherLoop(c: seq<Rec>, p: O.Pending)
    requires WF(c) && O.PendOK(p) && c != [] && c[0].Loop? && !c[0].contiguous && 2 <= c[0].items < |c|
    requires WF(c[c[0].items + 1..])
    requires Refines(Marks(O.Opt(c[c[0].items + 1..], O.NoRun)), PendingMarks(O.NoRun) + Marks(c[c[0].items + 1..]))
    ensures Refines(Marks(O.Opt(c, p)), PendingMarks(p) + Marks(c))
    decreases |c|, 0
  {
    hide *;
    O.LoopHead(c);
    var items := c[0].items;
    if items == 2 { O.SmallBody(c); }
    if items == 2 && (O.Strided(c[0], c[1]) || c[0].loops < 3) {
      var o := if O.Strided(c[0], c[1]) then [Data(c[1].typ, c[0].loops, c[1].disp, c[0].extent, false)]
        else O.Copies(c[1], c[0].loops, c[0].extent);
      O.StridedUnfold(c, p);
      SmallRefines(c[0], c[1]);
      OtherRefines(c, p, o);
    } else {
      var inner := c[1..items];
      O.NestedUnfold(c, p);
      O.RightAlone(inner);
      OptRefines(inner, O.NoRun);
      var body := O.Opt(inner, O.NoRun);
      BodyNested(inner);
      PendingIs(O.NoRun);
      NoMarks();
      WrapMarks(c[0], body, c[items]);
      RefinesTimes(Marks(body), Marks(inner), c[0].loops);
      OtherRefines(c, p, O.Wrap(c[0], body, c[items]));
    }
  }

  lemma {:induction false} BodyNested(inner: seq<Rec>)
    requires WF(inner) && inner != []
    ensures O.Nested(O.Opt(inner, O.NoRun)) && O.Opt(inner, O.NoRun) != []
  {
    hide O.Opt, O.Nested, WF, O.Altered, O.Emptied;
    O.RightAlone(inner);
    O.OptCorrect(inner, O.NoRun);
    TMNonEmpty(inner, 0);
    assert TM([], 0) == [];
  }

  lemma {:induction false} SmallRefines(loop: Rec, d: Rec)
    requires loop.Loop? && d.Data? && d.typ.size >= 1 && d.count >= 1
    ensures O.Strided(loop, d) ==>
              var o := [Data(d.typ, loop.loops, d.disp, loop.extent, false)];
              O.Nested(o) && Refines(Marks(o), Times(Marks([d]), loop.loops))
    ensures var o := O.Copies(d, loop.loops, loop.extent);
            O.Nested(o) && Refines(Marks(o), Times(Marks([d]), loop.loops))
  {
    if O.Strided(loop, d) {
      var r := Data(d.typ, loop.loops, d.disp, loop.extent, false);
      O.OneData(r);
      OneMarks(r);
      OneMarks(d);
      NoMarks();
      assert Times(Element(d.typ), 1) == Element(d.typ) + [];
    }
    O.CopiesTM(d, loop.loops, loop.extent);
    CopiesMarks(d, loop.loops, loop.extent);
    hide Times, Marks, O.Nested;
  }

  /** With nothing pending. */
  lemma {:induction false} OptElements(c: seq<Rec>)
    requires WF(c)
    ensures Refines(Marks(O.Opt(c, O.NoRun)), Marks(c))
  {
    hide *;
    O.RightAlone(c);
    OptRefines(c, O.NoRun);
    PendingIs(O.NoRun);
    NoMarks();
  }

  // ----- the types that are left -----

  /** A basic type that some record of the description has. */
  ghost predicate Has(c: seq<Rec>, t: Basic) {
    exists i :: 0 <= i < |c| && c[i].Data? && c[i].typ == t
  }

  lemma {:induction false} HasConcat(a: seq<Rec>, b: seq<Rec>, t: Basic)
    ensures Has(a + b, t) <==> Has(a, t) || Has(b, t)
  {
    if Has(a, t) {
      var i :| 0 <= i < |a| && a[i].Data? && a[i].typ == t;
      assert (a + b)[i] == a[i];
    }
    if Has(b, t) {
      var i :| 0 <= i < |b| && b[i].Data? && b[i].typ == t;
      assert (a + b)[|a| + i] == b[i];
    }
  }

  lemma {:induction false} HasOne(r: Rec, t: Basic)
    ensures Has([r], t) <==> r.Data? && r.typ == t
    ensures !Has([], t)
  {
    if r.Data? && r.typ == t { assert [r][0].typ == t; }
  }

  lemma {:induction false} HasParts(c: seq<Rec>, t: Basic)
    requires WF(c) && c != []
    ensures c[0].Data? ==> (Has(c, t) <==> c[0].typ == t || Has(c[1..], t))
    ensures c[0].Loop? ==>
              && 2 <= c[0].items < |c|
              && (Has(c, t) <==> Has(c[1..c[0].items], t) || Has(c[c[0].items + 1..], t))
  {
    O.WFParts(c);
    hide *;
    assert c == [c[0]] + c[1..];
    HasConcat([c[0]], c[1..], t);
    HasOne(c[0], t);
    if c[0].Loop? {
      var items := c[0].items;
      assert c[1..] == c[1..items] + ([c[items]] + c[items + 1..]);
      HasConcat(c[1..items], [c[items]] + c[items + 1..], t);
      HasConcat([c[items]], c[items + 1..], t);
      HasOne(c[items], t);
    }
  }

  /** Every record that is compiled has a type of the original, or is one of bytes. */
  lemma {:induction false} OptTypes(c: seq<Rec>, p: O.Pending, t: Basic)
    requires WF(c) && Has(O.Opt(c, p), t)
    ensures Has(c, t) || t == DT_BYTE || (p.Pend? && t == p.typ)
    decreases |c|, 1
  {
    hide *;
    if c == [] {
      O.OptNothing(p);
      FlushHas(p, t);
    } else {
      O.WFParts(c);
      HasParts(c, t);
      FlushHas(p, t);
      if c[0].Data? {
        O.DataHead(c);
        O.OptDataUnfold(c, p);
        var q := O.AddData(p, c[0]);
        AddDataType(p, c[0]);
        HasConcat(if O.Merges(p, c[0]) then [] else O.Flush(p), O.Opt(c[1..], q), t);
        HasOne(c[0], t);
        if Has(O.Opt(c[1..], q), t) { OptTypes(c[1..], q, t); }
      } else {
        LoopTypes(c, p, t);
      }
    }
  }

  lemma {:induction false} FlushHas(p: O.Pending, t: Basic)
    ensures Has(O.Flush(p), t) <==> p.Pend? && t == p.typ
  {
    if p.Pend? { assert O.Flush(p)[0].typ == p.typ; }
  }

  lemma {:induction false} AddDataType(p: O.Pending, r: Rec)
    requires r.Data?
    ensures O.AddData(p, r).Pend? && (O.AddData(p, r).typ == r.typ || O.AddData(p, r).typ == DT_BYTE)
  {}

  lemma {:induction false} AddRunType(p: O.Pending, first: int, bytes: nat)
    ensures O.AddRun(p, first, bytes).Pend? && O.AddRun(p, first, bytes).typ == DT_BYTE
  {}

  lemma {:induction false} LoopTypes(c: seq<Rec>, p: O.Pending, t: Basic)
    requires WF(c) && c != [] && c[0].Loop? && Has(O.Opt(c, p), t)
    ensures Has(c, t) || t == DT_BYTE || (p.Pend? && t == p.typ)
    decreases |c|, 0
  {
    hide *;
    O.LoopHead(c);
    HasParts(c, t);
    FlushHas(p, t);
    var items := c[0].items;
    var end, first, inner, rest := c[items], First(c), c[1..items], c[items + 1..];
    if c[0].contiguous && c[0].extent == end.size {
      O.Positive(c[0].loops, end.size);
      O.RunUnfold(c, p, O.Apart);
      var q := O.AddRun(p, first, c[0].loops * end.size);
      AddRunType(p, first, c[0].loops * end.size);
      HasConcat(if O.Continues(p, first) then [] else O.Flush(p), O.Opt(rest, q), t);
      HasOne(end, t);
      if Has(O.Opt(rest, q), t) { OptTypes(rest, q, t); }
    } else {
      NoRunHasNone();
      if Has(O.Opt(rest, O.NoRun), t) { OptTypes(rest, O.NoRun, t); }
      if c[0].contiguous {
        O.GappedUnfold(c, p);
        HasConcat(O.GappedLoop(p, c[0], end, first), O.Opt(rest, O.NoRun), t);
        GappedTypes(p, c[0], end, first, t);
      } else if items == 2 && (SmallLoop(c); O.Strided(c[0], c[1]) || c[0].loops < 3) {
        O.SmallBody(c);
        O.StridedUnfold(c, p);
        var o := if O.Strided(c[0], c[1]) then [Data(c[1].typ, c[0].loops, c[1].disp, c[0].extent, false)]
          else O.Copies(c[1], c[0].loops, c[0].extent);
        HasConcat(O.Flush(p) + o, O.Opt(rest, O.NoRun), t);
        HasConcat(O.Flush(p), o, t);
        HasOne(c[1], t);
        SmallTypes(c[0], c[1], t);
      } else {
        if items == 2 { O.SmallBody(c); }
        O.NestedUnfold(c, p);
        var body := O.Opt(inner, O.NoRun);
        var o := O.Wrap(c[0], body, end);
        HasConcat(O.Flush(p) + o, O.Opt(rest, O.NoRun), t);
        HasConcat(O.Flush(p), o, t);
        WrapTypes(c[0], body, end, t);
        if Has(body, t) { OptTypes(inner, O.NoRun, t); }
      }
    }
  }

  lemma {:induction false} SmallLoop(c: seq<Rec>)
    requires WF(c) && c != [] && c[0].Loop? && c[0].items == 2
    ensures |c| > 2 && c[1].Data?
  {
    O.SmallBody(c);
  }

  lemma {:induction false} NoRunHasNone()
    ensures !O.Pending.NoRun.Pend?
  {}

  lemma {:induction false} GappedTypes(p: O.Pending, loop: Rec, end: Rec, first: int, t: Basic)
    requires loop.Loop? && end.EndLoop? && loop.loops >= 1
    ensures Has(O.GappedLoop(p, loop, end, first), t) ==> t == DT_BYTE || (p.Pend? && t == p.typ)
  {}

  lemma {:induction false} SmallTypes(loop: Rec, d: Rec, t: Basic)
    requires loop.Loop? && d.Data?
    ensures Has([Data(d.typ, loop.loops, d.disp, loop.extent, false)], t) ==> t == d.typ
    ensures Has(O.Copies(d, loop.loops, loop.extent), t) ==> t == d.typ
  {
    CopiesType(d, loop.loops, loop.extent);
  }

  lemma {:induction false} CopiesType(d: Rec, n: nat, extent: int)
    requires d.Data?
    ensures forall r :: r in O.Copies(d, n, extent) ==> r.Data? && r.typ == d.typ
    decreases n
  {
    if n > 0 { CopiesType(d.(disp := d.disp + extent), n - 1, extent); }
  }

  lemma {:induction false} WrapTypes(loop: Rec, body: seq<Rec>, end: Rec, t: Basic)
    requires loop.Loop? && end.EndLoop?
    ensures Has(O.Wrap(loop, body, end), t) <==> Has(body, t)
  {
    var a, e := [Loop(loop.loops, |body| + 1, loop.extent, loop.contiguous)],
        [EndLoop(|body| + 1, end.size, end.first)];
    HasConcat(a, body, t);
    HasConcat(a + body, e, t);
    HasOne(a[0], t);
    HasOne(e[0], t);
  }

  /** The elements of the compiled description fit into the temporary if those of the original do. */
  lemma {:induction false} OptShort(c: seq<Rec>)
    requires WF(c) && S.Short(c)
    ensures S.Short(O.Opt(c, O.NoRun))
  {
    hide O.Opt, WF;
    var o := O.Opt(c, O.NoRun);
    forall i | 0 <= i < |o| && o[i].Data? ensures o[i].typ.size <= 16 {
      assert Has(o, o[i].typ);
      OptTypes(c, O.NoRun, o[i].typ);
    }
  }

  // ----- where elements are split -----

  /** What an element lacks of which the byte before this one has arrived. */
  ghost function Lacks(m: Mark): int {
    if m.at == 0 then 0 else m.typ.size - m.at
  }

  lemma {:induction false} MissingStep(c: seq<Rec>, n: nat)
    requires WF(c) && c != []
    ensures c[0].Data? ==>
              && c[0].typ.size >= 1
              && var s := c[0].typ.size;
                 S.Missing(c, n) == if n < c[0].count * s then (if n % s == 0 then 0 else s - n % s)
                                    else S.Missing(c[1..], n - c[0].count * s)
    ensures c[0].Loop? ==>
              && 2 <= c[0].items < |c| && |TM(c[1..c[0].items], 0)| > 0
              && var b := |TM(c[1..c[0].items], 0)|;
                 S.Missing(c, n) == if n < c[0].loops * b then S.Missing(c[1..c[0].items], n % b)
                                    else S.Missing(c[c[0].items + 1..], n - c[0].loops * b)
  {
    if c[0].Loop? { TMNonEmpty(c[1..c[0].items], 0); }
    hide TM, First, Run;
  }

  lemma {:induction false} ElementAt(t: Basic, i: nat)
    requires i < t.size
    ensures Element(t)[i] == Mark(t, i)
  {}

  lemma {:induction false} NothingMissing(n: nat)
    ensures S.Missing([], n) == 0
  {}

  /** What a split element lacks is what the signature says. */
  lemma {:induction false} MissingMark(c: seq<Rec>, n: nat)
    requires WF(c)
    ensures n < |Marks(c)| ==> Marks(c)[n].at < Marks(c)[n].typ.size
    ensures S.Missing(c, n) == if n < |Marks(c)| then Lacks(Marks(c)[n]) else 0
    decreases |c|
  {
    hide WF, TM, Marks, Times, S.Missing, Element;
    if c == [] {
      NoMarks();
      NothingMissing(n);
    } else {
      O.WFParts(c);
      MissingStep(c, n);
      MarksStep(c);
      if c[0].Data? {
        var t, count := c[0].typ, c[0].count;
        TimesLength(Element(t), count);
        if n < count * t.size {
          TimesAt(Element(t), count, n);
          ElementAt(t, n % t.size);
        } else {
          MissingMark(c[1..], n - count * t.size);
        }
      } else {
        var items, loops := c[0].items, c[0].loops;
        var body := c[1..items];
        MarksLength(body);
        TimesLength(Marks(body), loops);
        if n < loops * |Marks(body)| {
          TimesAt(Marks(body), loops, n);
          MissingMark(body, n % |Marks(body)|);
        } else {
          MissingMark(c[items + 1..], n - loops * |Marks(body)|);
        }
      }
    }
  }

  /** Where the compiled description splits an element the original splits the same one. */
  lemma {:induction false} OptMissing(code: seq<Rec>, opt: seq<Rec>, n: nat)
    requires Committed(code) && Committed(opt) && Body(opt) == O.Opt(Body(code), O.NoRun)
    ensures S.MissingAt(opt, n) == 0 || S.MissingAt(opt, n) == S.MissingAt(code, n)
  {
    hide O.Opt, WF, TM;
    var c, d := Body(code), Body(opt);
    OptElements(c);
    MarksLength(c);
    MarksLength(d);
    if |TM(c, 0)| > 0 {
      MissingMark(c, n % |TM(c, 0)|);
      MissingMark(d, n % |TM(c, 0)|);
    }
    hide Marks, S.Missing;
  }
}
