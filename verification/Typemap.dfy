/** Datatype descriptions and the typemap they denote.

    A datatype is a flat program of records.  Its meaning is the typemap of MPI-2.1,
    section 4.1: the ordered sequence of byte displacements that the program visits.
    `TM` gives that meaning to any well-formed stretch of records, `WholeTM` to a whole
    message of `count` elements laid out `extent` bytes apart. */
module Typemap {

  /** A basic datatype: its identifier and its size in bytes. */
  datatype Basic = Basic(id: nat, size: nat)

  const DT_BYTE: Basic := Basic(0x08, 1)

  /** One record of a description.  `items` is the distance from a LOOP to its END_LOOP. */
  datatype Rec =
    | Data(typ: Basic, count: nat, disp: int, extent: int, contiguous: bool)
    | Loop(loops: nat, items: nat, extent: int, contiguous: bool)
    | EndLoop(items: nat, size: nat, first: int)

  /** The counter that all three record layouts keep at the same place. */
  function Counter(r: Rec): nat {
    match r
    case Data(_, count, _, _, _) => count
    case Loop(loops, _, _, _) => loops
    case EndLoop(items, _, _) => items
  }

  // ----- typemaps -----

  /** `n` consecutive displacements. */
  ghost function Run(start: int, n: nat): seq<int>
  {
    seq(n, i => start + i)
  }

  /** `count` blocks of `size` bytes, `extent` apart. */
  ghost function Elems(size: nat, count: nat, disp: int, extent: int): seq<int> {
    if count == 0 then [] else Run(disp, size) + Elems(size, count - 1, disp + extent, extent)
  }

  /** The typemap of a stretch of records placed at displacement `base`. */
  ghost function TM(c: seq<Rec>, base: int): seq<int>
    decreases |c|, 0
  {
    if c == [] then []
    else match c[0]
      case Data(t, count, disp, extent, _) =>
        Elems(t.size, count, base + disp, extent) + TM(c[1..], base)
      case Loop(loops, items, extent, _) =>
        if 2 <= items < |c| then Iter(c[1..items], base, extent, loops) + TM(c[items + 1..], base) else []
      case EndLoop(_, _, _) => []
  }

  /** `n` copies of the typemap of `b`, `extent` apart. */
  ghost function Iter(b: seq<Rec>, base: int, extent: int, n: nat): seq<int>
    decreases |b|, 1 + n
  {
    if n == 0 then [] else TM(b, base) + Iter(b, base + extent, extent, n - 1)
  }

  /** The displacement of the first data record, skipping LOOP records. */
  ghost function First(c: seq<Rec>): int {
    if c == [] then 0
    else match c[0]
      case Data(_, _, disp, _, _) => disp
      case Loop(_, _, _, _) => First(c[1..])
      case EndLoop(_, _, _) => 0
  }

  /** A well-formed stretch of records: loops are matched and not empty, END_LOOP records hold
      the size and the first displacement of the loop body, and a loop that is flagged
      contiguous has a body that covers one ascending run of bytes. */
  ghost predicate WF(c: seq<Rec>)
    decreases |c|
  {
    c == [] ||
    match c[0]
    case Data(t, count, _, _, _) => 1 <= t.size && 1 <= count && WF(c[1..])
    case Loop(loops, items, _, contiguous) =>
      && 1 <= loops && 2 <= items < |c|
      && WF(c[1..items]) && WF(c[items + 1..])
      && c[items] == EndLoop(items, |TM(c[1..items], 0)|, First(c[1..items]))
      && (contiguous ==> TM(c[1..items], 0) == Run(c[items].first, c[items].size))
    case EndLoop(_, _, _) => false
  }

  /** A whole description: a well-formed program closed by the fake END_LOOP of a commit. */
  ghost predicate Committed(code: seq<Rec>) {
    2 <= |code| && WF(Body(code)) && code[|code| - 1].EndLoop?
  }

  ghost function Body(code: seq<Rec>): seq<Rec>
    requires |code| > 0
  {
    code[..|code| - 1]
  }

  ghost function WholeTM(code: seq<Rec>, count: nat, extent: int): seq<int>
    requires |code| > 0
  {
    Iter(Body(code), 0, extent, count)
  }

  ghost function Shift(s: seq<int>, d: int): (r: seq<int>)
    ensures |r| == |s|
  {
    seq(|s|, i requires 0 <= i < |s| => s[i] + d)
  }

  // ----- lengths and translation -----

  lemma {:induction false} ElemsLength(size: nat, count: nat, disp: int, extent: int)
    ensures |Elems(size, count, disp, extent)| == count * size
  {
    if count > 0 {
      ElemsLength(size, count - 1, disp + extent, extent);
      assert count * size == size + (count - 1) * size;
    }
  }

  lemma {:induction false} ElemsSplit(size: nat, a: nat, b: nat, disp: int, extent: int)
    ensures Elems(size, a + b, disp, extent)
         == Elems(size, a, disp, extent) + Elems(size, b, disp + a * extent, extent)
  {
    if a > 0 {
      ElemsSplit(size, a - 1, b, disp + extent, extent);
      assert disp + extent + (a - 1) * extent == disp + a * extent;
      assert a + b - 1 == (a - 1) + b;
    }
  }

  /** Blocks without gaps are one run. */
  lemma {:induction false} ElemsRun(size: nat, count: nat, disp: int)
    ensures Elems(size, count, disp, size) == Run(disp, count * size)
  {
    if count > 0 {
      ElemsRun(size, count - 1, disp + size);
      assert count * size == size + (count - 1) * size;
      RunSplit(disp, size, (count - 1) * size);
    }
  }

  /** Only blocks without gaps, or a single one, are one run. */
  lemma {:induction false} ElemsRunIff(size: nat, count: nat, disp: int, extent: int)
    requires size >= 1 && count >= 1
    ensures 0 <= count * size
    ensures Elems(size, count, disp, extent) == Run(disp, count * size) <==> count == 1 || extent == size
  {
    if count == 1 {
      assert Elems(size, 1, disp, extent) == Run(disp, size) + [];
    } else if extent == size {
      ElemsRun(size, count, disp);
    } else {
      assert count * size == size + (count - 1) * size && (count - 1) * size >= size;
      var second := Elems(size, count - 1, disp + extent, extent);
      assert second == Run(disp + extent, size) + Elems(size, count - 2, disp + extent + extent, extent);
      assert Elems(size, count, disp, extent)[size] == second[0] == disp + extent;
      assert Run(disp, count * size)[size] == disp + size;
    }
  }

  lemma {:induction false} RunSplit(start: int, a: nat, b: nat)
    ensures Run(start, a + b) == Run(start, a) + Run(start + a, b)
  {}

  lemma {:induction false} ShiftConcat(a: seq<int>, b: seq<int>, d: int)
    ensures Shift(a + b, d) == Shift(a, d) + Shift(b, d)
  {}

  lemma {:induction false} ElemsShift(size: nat, count: nat, disp: int, extent: int, d: int)
    ensures Elems(size, count, disp + d, extent) == Shift(Elems(size, count, disp, extent), d)
  {
    if count > 0 {
      ElemsShift(size, count - 1, disp + extent, extent, d);
      assert disp + d + extent == disp + extent + d;
      assert Run(disp + d, size) == Shift(Run(disp, size), d);
    }
  }

  /** A typemap placed elsewhere is the same typemap shifted. */
  lemma {:induction false} TMShift(c: seq<Rec>, base: int, d: int)
    ensures TM(c, base + d) == Shift(TM(c, base), d)
    decreases |c|, 0
  {
    if c != [] {
      match c[0]
      case Data(t, count, disp, extent, _) =>
        ElemsShift(t.size, count, base + disp, extent, d);
        assert base + disp + d == base + d + disp;
        TMShift(c[1..], base, d);
        ShiftConcat(Elems(t.size, count, base + disp, extent), TM(c[1..], base), d);
      case Loop(loops, items, extent, _) =>
        if 2 <= items < |c| {
          IterShift(c[1..items], base, extent, loops, d);
          TMShift(c[items + 1..], base, d);
          ShiftConcat(Iter(c[1..items], base, extent, loops), TM(c[items + 1..], base), d);
        }
      case EndLoop(_, _, _) =>
    }
  }

  lemma {:induction false} IterShift(b: seq<Rec>, base: int, extent: int, n: nat, d: int)
    ensures Iter(b, base + d, extent, n) == Shift(Iter(b, base, extent, n), d)
    decreases |b|, 1 + n
  {
    if n > 0 {
      TMShift(b, base, d);
      IterShift(b, base + extent, extent, n - 1, d);
      assert base + extent + d == base + d + extent;
      ShiftConcat(TM(b, base), Iter(b, base + extent, extent, n - 1), d);
    }
  }

  lemma {:induction false} TMLength(c: seq<Rec>, base: int)
    ensures |TM(c, base)| == |TM(c, 0)|
  {
    TMShift(c, 0, base);
  }

  lemma {:induction false} IterLength(b: seq<Rec>, base: int, extent: int, n: nat)
    ensures |Iter(b, base, extent, n)| == n * |TM(b, 0)|
    decreases n
  {
    if n > 0 {
      TMLength(b, base);
      IterLength(b, base + extent, extent, n - 1);
      assert n * |TM(b, 0)| == |TM(b, 0)| + (n - 1) * |TM(b, 0)|;
    }
  }

  lemma {:induction false} IterSplit(b: seq<Rec>, base: int, extent: int, m: nat, n: nat)
    ensures Iter(b, base, extent, m + n)
         == Iter(b, base, extent, m) + Iter(b, base + m * extent, extent, n)
    decreases m
  {
    if m > 0 {
      IterSplit(b, base + extent, extent, m - 1, n);
      assert base + extent + (m - 1) * extent == base + m * extent;
      assert m + n - 1 == (m - 1) + n;
    }
  }

  /** The copies of a body that is one run are blocks. */
  lemma {:induction false} IterElems(b: seq<Rec>, first: int, size: nat, base: int, extent: int, n: nat)
    requires TM(b, 0) == Run(first, size)
    ensures Iter(b, base, extent, n) == Elems(size, n, base + first, extent)
    decreases n
  {
    if n > 0 {
      TMShift(b, 0, base);
      assert Shift(Run(first, size), base) == Run(base + first, size);
      IterElems(b, first, size, base + extent, extent, n - 1);
      assert base + extent + first == base + first + extent;
    }
  }

  /** Two lists of parts with the same lengths are equal exactly if the parts are. */
  lemma {:induction false} CatEqual(a: seq<int>, b: seq<int>, x: seq<int>, y: seq<int>)
    requires |a| == |x|
    ensures a + b == x + y <==> a == x && b == y
  {
    if a + b == x + y {
      assert a == (a + b)[..|a|] == (x + y)[..|a|] == x;
      assert b == (a + b)[|a|..] == (x + y)[|a|..] == y;
    }
  }

  lemma {:induction false} IterEqual(a: seq<Rec>, b: seq<Rec>, base: int, extent: int, n: nat)
    requires |TM(a, 0)| == |TM(b, 0)| && n >= 1
    ensures |Iter(a, base, extent, n)| == |Iter(b, base, extent, n)|
    ensures Iter(a, base, extent, n) == Iter(b, base, extent, n) <==> TM(a, 0) == TM(b, 0)
    decreases n
  {
    TMShift(a, 0, base);
    TMShift(b, 0, base);
    hide TM;
    IterLength(a, base + extent, extent, n - 1);
    IterLength(b, base + extent, extent, n - 1);
    ShiftEqual(TM(a, 0), TM(b, 0), base);
    if n > 1 {
      IterEqual(a, b, base + extent, extent, n - 1);
    }
    CatEqual(TM(a, base), Iter(a, base + extent, extent, n - 1), TM(b, base), Iter(b, base + extent, extent, n - 1));
  }

  lemma {:induction false} ShiftEqual(s: seq<int>, t: seq<int>, d: int)
    requires |s| == |t|
    ensures Shift(s, d) == Shift(t, d) <==> s == t
  {
    if Shift(s, d) == Shift(t, d) {
      forall i | 0 <= i < |s| ensures s[i] == t[i] {
        assert Shift(s, d)[i] == Shift(t, d)[i];
      }
    }
  }

  /** A well-formed stretch that is not empty moves at least one byte. */
  lemma {:induction false} TMNonEmpty(c: seq<Rec>, base: int)
    requires WF(c) && c != []
    ensures |TM(c, base)| >= 1
    decreases |c|
  {
    match c[0]
    case Data(t, count, disp, extent, _) =>
    case Loop(loops, items, extent, _) =>
      TMNonEmpty(c[1..items], base);
    case EndLoop(_, _, _) =>
  }

  /** Typemaps of well-formed stretches compose. */
  lemma {:induction false} TMConcat(a: seq<Rec>, b: seq<Rec>, base: int)
    requires WF(a)
    ensures TM(a + b, base) == TM(a, base) + TM(b, base)
    decreases |a|
  {
    hide Iter, Elems, First;
    if a == [] {
      assert a + b == b;
    } else {
      match a[0]
      case Data(t, count, disp, extent, _) =>
        assert (a + b)[1..] == a[1..] + b;
        TMConcat(a[1..], b, base);
      case Loop(loops, items, extent, _) =>
        assert (a + b)[1..items] == a[1..items];
        assert (a + b)[items + 1..] == a[items + 1..] + b;
        TMConcat(a[items + 1..], b, base);
      case EndLoop(_, _, _) =>
    }
  }

  lemma {:induction false} WFConcat(a: seq<Rec>, b: seq<Rec>)
    requires WF(a) && WF(b)
    ensures WF(a + b)
    decreases |a|
  {
    hide TM, First, Run;
    if a == [] {
      assert a + b == b;
    } else {
      match a[0]
      case Data(t, count, disp, extent, _) =>
        assert (a + b)[1..] == a[1..] + b;
        WFConcat(a[1..], b);
      case Loop(loops, items, extent, _) =>
        assert (a + b)[1..items] == a[1..items];
        assert (a + b)[items + 1..] == a[items + 1..] + b;
        assert (a + b)[items] == a[items];
        WFConcat(a[items + 1..], b);
      case EndLoop(_, _, _) =>
    }
  }

  /** The first displacement of a typemap is the one that GET_FIRST_NON_LOOP finds. */
  lemma {:induction false} FirstIsFirst(c: seq<Rec>, base: int)
    requires WF(c) && c != []
    ensures |TM(c, base)| >= 1 && TM(c, base)[0] == base + First(c)
    decreases |c|
  {
    match c[0]
    case Data(t, count, disp, extent, _) =>
    case Loop(loops, items, extent, _) =>
      FirstIsFirst(c[1..items], base);
      assert c[1..][..items - 1] == c[1..items];
      FirstPrefix(c[1..], items - 1);
    case EndLoop(_, _, _) =>
  }

  lemma {:induction false} FirstPrefix(c: seq<Rec>, n: nat)
    requires n <= |c| && WF(c[..n]) && n > 0
    ensures First(c) == First(c[..n])
    decreases |c|
  {
    match c[0]
    case Data(t, count, disp, extent, _) =>
    case Loop(loops, items, extent, _) =>
      assert WF(c[..n][1..items]);
      assert c[..n][1..items] == c[1..][..items - 1];
      FirstPrefix(c[1..], items - 1);
      assert c[..n][1..][..items - 1] == c[1..][..items - 1];
      FirstPrefix(c[..n][1..], items - 1);
    case EndLoop(_, _, _) =>
  }
}
