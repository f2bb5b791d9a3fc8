/** The description compiler of a commit, as a recursive function on well-formed stretches, and
    what it does to the typemap.

    `Opt` is the reference that the loop in Optimize.dfy is proved against.  The compiler merges
    runs, collapses contiguous loops, turns small loops into strided elements or unrolls them. */
module OptimizeSpec {
  import opened Typemap

  /** The run that the compiler has collected but not yet emitted. */
  datatype Pending = NoRun | Pend(typ: Basic, len: nat, disp: int, extent: int)

  function EndOf(p: Pending): int
    requires p.Pend?
  {
    p.disp + p.len * p.typ.size
  }

  function Flush(p: Pending): seq<Rec> {
    if p.NoRun? then [] else [Data(p.typ, p.len, p.disp, p.extent, true)]
  }

  function Continues(p: Pending, disp: int): bool {
    p.Pend? && EndOf(p) == disp
  }

  // ----- data records -----

  function Merges(p: Pending, r: Rec): bool
    requires r.Data?
  {
    r.contiguous && Continues(p, r.disp) && r.extent == r.typ.size
  }

  function AddData(p: Pending, r: Rec): Pending
    requires r.Data?
  {
    if Merges(p, r) then
      if r.typ == p.typ then Pend(p.typ, p.len + r.count, p.disp, r.extent)
      else Pend(DT_BYTE, p.len * p.typ.size + r.count * r.typ.size, p.disp, 1)
    else Pend(r.typ, r.count, r.disp, r.extent)
  }

  // ----- loops -----

  /** A contiguous loop without gaps becomes part of the pending run. */
  function AddRun(p: Pending, first: int, bytes: nat): Pending {
    if Continues(p, first) then Pend(DT_BYTE, p.len * p.typ.size + bytes, p.disp, 1)
    else Pend(DT_BYTE, bytes, first, 1)
  }

  /** The repetitions of a gapped loop that stay in the loop. */
  function Repetitions(p: Pending, loop: Rec, first: int): nat
    requires loop.Loop? && loop.loops >= 1
  {
    if Continues(p, first) then loop.loops - 1 else loop.loops
  }

  /** The run emitted before a gapped loop; it takes the first repetition if that continues it. */
  function Joined(p: Pending, end: Rec, first: int): seq<Rec>
    requires end.EndLoop?
  {
    if Continues(p, first) then Flush(Pend(DT_BYTE, p.len * p.typ.size + end.size, p.disp, 1)) else Flush(p)
  }

  /** A contiguous loop with gaps becomes a loop around one run of bytes. */
  function GappedLoop(p: Pending, loop: Rec, end: Rec, first: int): seq<Rec>
    requires loop.Loop? && end.EndLoop? && loop.loops >= 1
  {
    Joined(p, end, first)
    + [Loop(Repetitions(p, loop, first), 2, loop.extent, loop.contiguous),
       Data(DT_BYTE, end.size, first, 1, true),
       EndLoop(2, end.size, end.first)]
  }

  predicate Strided(loop: Rec, elem: Rec)
    requires loop.Loop? && elem.Data?
  {
    elem.count == 1 && elem.extent == elem.typ.size
  }

  /** Copies of one data record, `extent` apart. */
  function Copies(elem: Rec, n: nat, extent: int): seq<Rec>
    requires elem.Data?
    decreases n
  {
    if n == 0 then [] else [elem] + Copies(elem.(disp := elem.disp + extent), n - 1, extent)
  }

  /** Matched loops; what a stretch needs for its typemap to be composed of parts. */
  ghost predicate Nested(c: seq<Rec>)
    decreases |c|
  {
    c == [] ||
    match c[0]
    case Data(_, _, _, _, _) => Nested(c[1..])
    case Loop(_, items, _, _) => 2 <= items < |c| && c[items].EndLoop? && Nested(c[1..items]) && Nested(c[items + 1..])
    case EndLoop(_, _, _) => false
  }

  // ----- the compiler -----

  /** What the compiler emits for the stretch `c` when `p` is pending. */
  ghost function Opt(c: seq<Rec>, p: Pending): seq<Rec>
    requires WF(c)
    decreases |c|
  {
    if c == [] then Flush(p)
    else match c[0]
      case Data(_, _, _, _, _) =>
        (if Merges(p, c[0]) then [] else Flush(p)) + Opt(c[1..], AddData(p, c[0]))
      case Loop(loops, items, extent, contiguous) =>
        var end := c[items];
        var first := First(c);
        var rest := c[items + 1..];
        if contiguous && extent == end.size then
          (if Continues(p, first) then [] else Flush(p)) + Opt(rest, AddRun(p, first, loops * end.size))
        else if contiguous then GappedLoop(p, c[0], end, first) + Opt(rest, NoRun)
        else if items == 2 && c[1].Data? && Strided(c[0], c[1]) then
          Flush(p) + [Data(c[1].typ, loops, c[1].disp, extent, false)] + Opt(rest, NoRun)
        else if items == 2 && c[1].Data? && loops < 3 then
          Flush(p) + Copies(c[1], loops, extent) + Opt(rest, NoRun)
        else
          var body := Opt(c[1..items], NoRun);
          Flush(p) + Wrap(c[0], body, end) + Opt(rest, NoRun)
      case EndLoop(_, _, _) => []
  }

  /** A loop record, its new body and its new END_LOOP. */
  function Wrap(loop: Rec, body: seq<Rec>, end: Rec): seq<Rec>
    requires loop.Loop? && end.EndLoop?
  {
    [Loop(loop.loops, |body| + 1, loop.extent, loop.contiguous)] + body + [EndLoop(|body| + 1, end.size, end.first)]
  }

  // ----- the condition -----

  /** Where the run just before a stretch ended, if one did, and whether it has gaps. */
  datatype Last = Apart | Ended(at: int, gaps: bool)

  function Gaps(count: nat, size: nat, extent: int): bool {
    count >= 2 && extent != size
  }

  function LastOf(p: Pending): Last {
    if p.NoRun? then Apart else Ended(EndOf(p), Gaps(p.len, p.typ.size, p.extent))
  }

  /** The run before ended with gaps, and is continued all the same. */
  predicate Spoils(last: Last, disp: int) {
    last == Ended(disp, true)
  }

  /** Something is taken into a run with gaps, or a contiguous loop with gaps starts right where the
      run before it ended, has a second repetition, and does not put all repetitions in one place. */
  ghost predicate Altered(c: seq<Rec>, last: Last)
    requires WF(c)
    decreases |c|
  {
    c != [] &&
    match c[0]
    case Data(t, count, disp, extent, contiguous) =>
      (Spoils(last, disp) && contiguous && extent == t.size)
      || Altered(c[1..], Ended(disp + count * t.size, Gaps(count, t.size, extent)))
    case Loop(loops, items, extent, contiguous) =>
      var end := c[items];
      if contiguous && extent == end.size then
        Spoils(last, end.first) || Altered(c[items + 1..], Ended(end.first + loops * end.size, false))
      else if contiguous then
        Spoils(last, end.first) || (last.Ended? && last.at == end.first && loops >= 2 && extent != 0)
        || Altered(c[items + 1..], Apart)
      else Altered(c[1..items], Apart) || Altered(c[items + 1..], Apart)
    case EndLoop(_, _, _) => false
  }

  /** A contiguous loop with gaps starts right where the run before it ended and has one repetition. */
  ghost predicate Emptied(c: seq<Rec>, last: Last)
    requires WF(c)
    decreases |c|
  {
    c != [] &&
    match c[0]
    case Data(t, count, disp, extent, _) => Emptied(c[1..], Ended(disp + count * t.size, Gaps(count, t.size, extent)))
    case Loop(loops, items, extent, contiguous) =>
      var end := c[items];
      if contiguous && extent == end.size then Emptied(c[items + 1..], Ended(end.first + loops * end.size, false))
      else if contiguous then (last.Ended? && last.at == end.first && loops == 1) || Emptied(c[items + 1..], Apart)
      else Emptied(c[1..items], Apart) || Emptied(c[items + 1..], Apart)
    case EndLoop(_, _, _) => false
  }

  /** Every loop repeats its body. */
  ghost predicate Repeating(c: seq<Rec>) {
    forall i :: 0 <= i < |c| && c[i].Loop? ==> c[i].loops >= 2
  }

  ghost predicate PendOK(p: Pending) {
    p.Pend? ==> p.len >= 1 && p.typ.size >= 1
  }

  // ----- typemaps of the pieces -----

  lemma {:induction false} NestedWF(c: seq<Rec>)
    requires WF(c)
    ensures Nested(c)
    decreases |c|
  {
    hide TM, First, Run;
    if c != [] {
      match c[0]
      case Data(_, _, _, _, _) => NestedWF(c[1..]);
      case Loop(_, items, _, _) =>
        NestedWF(c[1..items]);
        NestedWF(c[items + 1..]);
      case EndLoop(_, _, _) =>
    }
  }

  lemma {:induction false} NestedConcat(a: seq<Rec>, b: seq<Rec>)
    requires Nested(a) && Nested(b)
    ensures Nested(a + b)
    decreases |a|
  {
    if a == [] {
      assert a + b == b;
    } else {
      match a[0]
      case Data(_, _, _, _, _) =>
        assert (a + b)[1..] == a[1..] + b;
        NestedConcat(a[1..], b);
      case Loop(_, items, _, _) =>
        assert (a + b)[1..items] == a[1..items];
        assert (a + b)[items + 1..] == a[items + 1..] + b;
        NestedConcat(a[items + 1..], b);
      case EndLoop(_, _, _) =>
    }
  }

  lemma {:induction false} NestedParts(a: seq<Rec>)
    requires Nested(a) && a != []
    ensures a[0].Data? || a[0].Loop?
    ensures a[0].Data? ==> Nested(a[1..])
    ensures a[0].Loop? ==> 2 <= a[0].items < |a| && Nested(a[1..a[0].items]) && Nested(a[a[0].items + 1..])
  {}

  lemma {:induction false} NestedTM(a: seq<Rec>, b: seq<Rec>, base: int)
    requires Nested(a)
    ensures TM(a + b, base) == TM(a, base) + TM(b, base)
    decreases |a|
  {
    hide *;
    if a == [] {
      NothingTM(b, base);
    } else {
      NestedParts(a);
      StepTM(a, base);
      StepTM(a + b, base);
      if a[0].Data? {
        NestedTM(a[1..], b, base);
        assert (a + b)[1..] == a[1..] + b && (a + b)[0] == a[0];
        Regroup(Elems(a[0].typ.size, a[0].count, base + a[0].disp, a[0].extent), TM(a[1..], base), TM(b, base));
      } else {
        var items := a[0].items;
        NestedTM(a[items + 1..], b, base);
        assert (a + b)[1..items] == a[1..items] && (a + b)[0] == a[0];
        assert (a + b)[items + 1..] == a[items + 1..] + b;
        Regroup(Iter(a[1..items], base, a[0].extent, a[0].loops), TM(a[items + 1..], base), TM(b, base));
      }
    }
  }

  lemma {:induction false} NothingTM(b: seq<Rec>, base: int)
    ensures TM([], base) == [] && [] + b == b && [] + TM(b, base) == TM(b, base)
  {}

  lemma {:induction false} Regroup(a: seq<int>, b: seq<int>, c: seq<int>)
    ensures a + (b + c) == a + b + c
  {}

  lemma {:induction false} StepTM(c: seq<Rec>, base: int)
    requires c != []
    ensures c[0].Data? ==>
              TM(c, base) == Elems(c[0].typ.size, c[0].count, base + c[0].disp, c[0].extent) + TM(c[1..], base)
    ensures c[0].Loop? && 2 <= c[0].items < |c| ==>
              TM(c, base) == Iter(c[1..c[0].items], base, c[0].extent, c[0].loops) + TM(c[c[0].items + 1..], base)
  {
    hide Iter, Elems;
  }

  lemma {:induction false} OneData(r: Rec)
    requires r.Data?
    ensures TM([r], 0) == Elems(r.typ.size, r.count, r.disp, r.extent)
    ensures Nested([r]) && (r.typ.size >= 1 && r.count >= 1 ==> WF([r]))
  {
    hide Elems;
    assert [r][1..] == [];
  }

  /** The pending run denotes its elements; they are one run of bytes unless it has gaps. */
  lemma {:induction false} FlushTM(p: Pending)
    requires PendOK(p)
    ensures Nested(Flush(p)) && WF(Flush(p))
    ensures p.NoRun? ==> TM(Flush(p), 0) == []
    ensures p.Pend? ==>
              && 0 <= p.len * p.typ.size && |TM(Flush(p), 0)| == p.len * p.typ.size
              && TM(Flush(p), 0) == Elems(p.typ.size, p.len, p.disp, p.extent)
              && (TM(Flush(p), 0) == Run(p.disp, p.len * p.typ.size) <==> !LastOf(p).gaps)
  {
    if p.Pend? {
      OneData(Flush(p)[0]);
      ElemsLength(p.typ.size, p.len, p.disp, p.extent);
      ElemsRunIff(p.typ.size, p.len, p.disp, p.extent);
    }
  }

  lemma {:induction false} OneBlock(size: nat, n: nat, disp: int, extent: int)
    requires n == 1 || extent == size
    ensures 0 <= n * size && Elems(size, n, disp, extent) == Run(disp, n * size)
  {
    if n == 1 {
      assert Elems(size, 1, disp, extent) == Run(disp, size) + [];
    } else {
      ElemsRun(size, n, disp);
    }
  }

  // ----- one step of the compiler -----

  ghost predicate Repeats(o: seq<Rec>) {
    forall i :: 0 <= i < |o| && o[i].Loop? ==> o[i].loops >= 1
  }

  /** The records `o` denote a list as long as `t`, and exactly `t` if `exact`; all their loops are
      repeated if `full`. */
  ghost predicate Same(o: seq<Rec>, t: seq<int>, exact: bool, full: bool) {
    && Nested(o) && |TM(o, 0)| == |t| && (TM(o, 0) == t <==> exact) && (Repeats(o) <==> full)
    && (exact && full ==> WF(o))
  }

  lemma {:induction false} SameCat(a: seq<Rec>, x: seq<int>, e: bool, f: bool, b: seq<Rec>, y: seq<int>, g: bool,
                                   h: bool)
    requires Same(a, x, e, f) && Same(b, y, g, h)
    ensures Same(a + b, x + y, e && g, f && h)
  {
    hide TM, WF, Nested;
    NestedConcat(a, b);
    NestedTM(a, b, 0);
    CatEqual(TM(a, 0), TM(b, 0), x, y);
    RepeatsConcat(a, b);
    hide Repeats;
    if e && g && f && h { WFConcat(a, b); }
  }

  lemma {:induction false} RepeatsConcat(a: seq<Rec>, b: seq<Rec>)
    ensures Repeats(a + b) <==> Repeats(a) && Repeats(b)
  {
    if Repeats(a + b) {
      forall i | 0 <= i < |a| && a[i].Loop? ensures a[i].loops >= 1 { assert (a + b)[i] == a[i]; }
      forall i | 0 <= i < |b| && b[i].Loop? ensures b[i].loops >= 1 { assert (a + b)[|a| + i] == b[i]; }
    }
  }

  lemma {:induction false} WFRepeats(c: seq<Rec>)
    requires WF(c)
    ensures Repeats(c)
    decreases |c|
  {
    hide *;
    if c == [] {
      NoneRepeat();
    } else {
      WFParts(c);
      if c[0].Data? {
        WFRepeats(c[1..]);
      } else {
        WFRepeats(c[1..c[0].items]);
        WFRepeats(c[c[0].items + 1..]);
      }
      RepeatsParts(c);
    }
  }

  lemma {:induction false} NoneRepeat()
    ensures Repeats([])
  {}

  lemma {:induction false} WFParts(c: seq<Rec>)
    requires WF(c) && c != []
    ensures !c[0].EndLoop? && (c[0].Data? ==> WF(c[1..]))
    ensures c[0].Loop? ==>
              && c[0].loops >= 1 && 2 <= c[0].items < |c| && c[c[0].items].EndLoop?
              && WF(c[1..c[0].items]) && WF(c[c[0].items + 1..])
  {
    hide TM, First, Run;
  }

  lemma {:induction false} RepeatsParts(c: seq<Rec>)
    requires c != []
    requires c[0].Data? || (c[0].Loop? && c[0].loops >= 1 && 2 <= c[0].items < |c| && c[c[0].items].EndLoop?)
    requires c[0].Data? ==> Repeats(c[1..])
    requires c[0].Loop? ==> Repeats(c[1..c[0].items]) && Repeats(c[c[0].items + 1..])
    ensures Repeats(c)
  {
    forall i | 0 <= i < |c| && c[i].Loop? ensures c[i].loops >= 1 {
      if c[0].Data? {
        assert c[i] == c[1..][i - 1];
      } else if 0 < i < c[0].items {
        assert c[i] == c[1..c[0].items][i - 1];
      } else if i > c[0].items {
        assert c[i] == c[c[0].items + 1..][i - c[0].items - 1];
      }
    }
  }

  /** The typemap of a pending run followed by a stretch. */
  ghost function Before(p: Pending, c: seq<Rec>): seq<int> {
    TM(Flush(p), 0) + TM(c, 0)
  }

  lemma {:induction false} DataHead(c: seq<Rec>)
    requires WF(c) && c != [] && c[0].Data?
    ensures TM(c, 0) == Elems(c[0].typ.size, c[0].count, c[0].disp, c[0].extent) + TM(c[1..], 0)
    ensures WF(c[1..]) && c[0].typ.size >= 1 && c[0].count >= 1
  {
    hide Elems;
  }

  lemma {:induction false} AddDataTM(p: Pending, r: Rec)
    requires PendOK(p) && r.Data? && r.typ.size >= 1 && r.count >= 1
    ensures PendOK(AddData(p, r))
    ensures LastOf(AddData(p, r)) == Ended(r.disp + r.count * r.typ.size, Gaps(r.count, r.typ.size, r.extent))
    ensures var e := Elems(r.typ.size, r.count, r.disp, r.extent); var u := TM(Flush(AddData(p, r)), 0);
            if Merges(p, r) then |u| == |TM(Flush(p), 0)| + |e|
               && (u == TM(Flush(p), 0) + e <==> !LastOf(p).gaps) else u == e
  {
    hide TM, WF, Elems, Run, Flush;
    FlushTM(p);
    Positive(r.count, r.typ.size);
    ElemsLength(r.typ.size, r.count, r.disp, r.extent);
    var q := AddData(p, r);
    if Merges(p, r) {
      Positive(p.len, p.typ.size);
      ElemsRun(r.typ.size, r.count, r.disp);
      RunSplit(p.disp, p.len * p.typ.size, r.count * r.typ.size);
      if r.typ == p.typ { Spread(p.len, r.count, p.typ.size); }
      assert q.len * q.typ.size == p.len * p.typ.size + r.count * r.typ.size;
      RunSize(p.disp, p.len * p.typ.size);
      CatEqual(TM(Flush(p), 0), Elems(r.typ.size, r.count, r.disp, r.extent),
               Run(p.disp, p.len * p.typ.size), Run(r.disp, r.count * r.typ.size));
    }
    assert PendOK(q);
    hide Merges, Continues, AddData, PendOK;
    FlushTM(q);
  }

  lemma {:induction false} Positive(a: nat, b: nat)
    requires a >= 1 && b >= 1
    ensures a * b >= 1 && a * b >= a && a * b >= b
  {}

  lemma {:induction false} Spread(a: nat, b: nat, s: nat)
    ensures (a + b) * s == a * s + b * s
  {}

  /** What is known about the loop that a stretch starts with. */
  lemma {:induction false} LoopHead(c: seq<Rec>)
    requires WF(c) && c != [] && c[0].Loop?
    ensures 2 <= c[0].items < |c| && c[c[0].items].EndLoop? && WF(c[1..c[0].items]) && WF(c[c[0].items + 1..])
    ensures c[1..c[0].items] != [] && First(c) == c[c[0].items].first == First(c[1..c[0].items])
    ensures c[c[0].items].size == |TM(c[1..c[0].items], 0)| >= 1 && c[0].loops >= 1
    ensures TM(c, 0) == Iter(c[1..c[0].items], 0, c[0].extent, c[0].loops) + TM(c[c[0].items + 1..], 0)
    ensures c[0].contiguous ==> TM(c[1..c[0].items], 0) == Run(First(c), c[c[0].items].size)
    ensures c[0].contiguous ==>
              Iter(c[1..c[0].items], 0, c[0].extent, c[0].loops)
                == Elems(c[c[0].items].size, c[0].loops, First(c), c[0].extent)
  {
    var items := c[0].items;
    var body := c[1..items];
    assert c[1..][..items - 1] == body;
    FirstPrefix(c[1..], items - 1);
    TMNonEmpty(body, 0);
    if c[0].contiguous {
      IterElems(body, First(c), c[items].size, 0, c[0].extent, c[0].loops);
    }
    hide Iter;
  }

  lemma {:induction false} AddRunTM(p: Pending, first: int, bytes: nat)
    requires PendOK(p) && bytes >= 1
    ensures PendOK(AddRun(p, first, bytes)) && LastOf(AddRun(p, first, bytes)) == Ended(first + bytes, false)
    ensures var u := TM(Flush(AddRun(p, first, bytes)), 0);
            if Continues(p, first) then
              |u| == |TM(Flush(p), 0)| + bytes && (u == TM(Flush(p), 0) + Run(first, bytes) <==> !LastOf(p).gaps)
            else u == Run(first, bytes)
  {
    hide TM, WF, Elems, Run, Flush;
    FlushTM(p);
    if Continues(p, first) {
      Positive(p.len, p.typ.size);
      RunSplit(p.disp, p.len * p.typ.size, bytes);
      RunSize(first, bytes);
      RunSize(p.disp, p.len * p.typ.size);
      CatEqual(TM(Flush(p), 0), Run(first, bytes), Run(p.disp, p.len * p.typ.size), Run(first, bytes));
    }
    FlushTM(AddRun(p, first, bytes));
  }

  lemma {:induction false} RunSize(start: int, n: nat)
    ensures |Run(start, n)| == n
  {}

  // ----- the loop shapes -----

  /** A loop around one run of bytes. */
  lemma {:induction false} ByteLoop(loops: nat, extent: int, size: nat, first: int, contiguous: bool)
    requires size >= 1
    ensures var o := [Loop(loops, 2, extent, contiguous), Data(DT_BYTE, size, first, 1, true), EndLoop(2, size, first)];
            Nested(o) && TM(o, 0) == Elems(size, loops, first, extent) && (loops >= 1 ==> WF(o))
  {
    var d := Data(DT_BYTE, size, first, 1, true);
    var o := [Loop(loops, 2, extent, contiguous), d, EndLoop(2, size, first)];
    assert o[1..2] == [d] && o[3..] == [];
    OneData(d);
    OneBlock(1, size, first, 1);
    assert TM([d], 0) == Run(first, size);
    IterElems([d], first, size, 0, extent, loops);
    hide Elems, Run;
    assert First([d]) == first;
    assert TM(o, 0) == Iter([d], 0, extent, loops) + TM([], 0);
  }

  /** Moving the first repetition of a loop to the run before it is harmless exactly if no repetition
      stays behind or those that do lie where the moved one was. */
  lemma {:induction false} PeelTM(size: nat, loops: nat, first: int, extent: int)
    requires size >= 1 && loops >= 1
    ensures Elems(size, loops, first, extent) == Run(first, size) + Elems(size, loops - 1, first + extent, extent)
    ensures |Elems(size, loops - 1, first, extent)| == |Elems(size, loops - 1, first + extent, extent)|
    ensures Elems(size, loops - 1, first, extent) == Elems(size, loops - 1, first + extent, extent) <==>
              extent == 0 || loops == 1
  {
    ElemsLength(size, loops - 1, first, extent);
    ElemsLength(size, loops - 1, first + extent, extent);
    if loops >= 2 {
      var a, b := Elems(size, loops - 1, first, extent), Elems(size, loops - 1, first + extent, extent);
      assert a == Run(first, size) + Elems(size, loops - 2, first + extent, extent);
      assert b == Run(first + extent, size) + Elems(size, loops - 2, first + extent + extent, extent);
      assert a[0] == first && b[0] == first + extent;
    }
  }

  /** What becomes of a gapped loop: its meaning is lost if it is taken into a run with gaps, or if a
      repetition is peeled off that does not lie where the others do; its repetitions are all gone
      if there was only one. */
  lemma {:induction false} GappedTM(p: Pending, loop: Rec, end: Rec, first: int)
    requires PendOK(p) && loop.Loop? && end.EndLoop? && loop.loops >= 1 && end.size >= 1 && end.first == first
    ensures var peels := LastOf(p).Ended? && LastOf(p).at == first;
            Same(GappedLoop(p, loop, end, first), TM(Flush(p), 0) + Elems(end.size, loop.loops, first, loop.extent),
                 !(Spoils(LastOf(p), first) || (peels && loop.loops >= 2 && loop.extent != 0)),
                 !(peels && loop.loops == 1))
  {
    hide TM, WF, Nested, Elems, Run;
    FlushTM(p);
    var n := if Continues(p, first) then loop.loops - 1 else loop.loops;
    var l := [Loop(n, 2, loop.extent, loop.contiguous), Data(DT_BYTE, end.size, first, 1, true),
              EndLoop(2, end.size, end.first)];
    ByteLoop(n, loop.extent, end.size, first, loop.contiguous);
    assert l[0].Loop? && (Repeats(l) <==> n >= 1);
    if Continues(p, first) {
      PeeledTM(p, loop, end, first, l);
    } else {
      FlushSame(p);
      hide Same;
      assert Same(l, Elems(end.size, loop.loops, first, loop.extent), true,
                  true) by { SameLoop(l, Elems(end.size, loop.loops, first, loop.extent)); }
      SameCat(Flush(p), TM(Flush(p), 0), true, true, l, Elems(end.size, loop.loops, first, loop.extent), true, true);
    }
  }

  lemma {:induction false} SameLoop(l: seq<Rec>, t: seq<int>)
    requires Nested(l) && TM(l, 0) == t && WF(l) && Repeats(l)
    ensures Same(l, t, true, true)
  {}

  lemma {:induction false} FlushSame(p: Pending)
    requires PendOK(p)
    ensures Same(Flush(p), TM(Flush(p), 0), true, true)
  {
    FlushTM(p);
    hide TM, WF, Nested;
  }

  lemma {:induction false} PeeledTM(p: Pending, loop: Rec, end: Rec, first: int, l: seq<Rec>)
    requires PendOK(p) && loop.Loop? && end.EndLoop? && loop.loops >= 1 && end.size >= 1 && Continues(p, first)
    requires Nested(l) && TM(l, 0) == Elems(end.size, loop.loops - 1, first, loop.extent)
    requires (Repeats(l) <==> loop.loops >= 2) && (loop.loops >= 2 ==> WF(l))
    ensures Same(Joined(p, end, first) + l, TM(Flush(p), 0) + Elems(end.size, loop.loops, first, loop.extent),
                 !LastOf(p).gaps && (loop.loops == 1 || loop.extent == 0), loop.loops >= 2)
  {
    hide TM, WF, Nested, Elems, Run, Flush, Repeats;
    Positive(p.len, p.typ.size);
    var bytes := p.len * p.typ.size;
    var q := Pend(DT_BYTE, bytes + end.size, p.disp, 1);
    FlushTM(p);
    FlushTM(q);
    FlushSame(q);
    PeelTM(end.size, loop.loops, first, loop.extent);
    RunSplit(p.disp, bytes, end.size);
    RunSize(p.disp, bytes);
    var head, moved := TM(Flush(p), 0) + Run(first, end.size),
        Elems(end.size, loop.loops - 1, first + loop.extent, loop.extent);
    CatEqual(TM(Flush(p), 0), Run(first, end.size), Run(p.disp, bytes), Run(first, end.size));
    assert Same(Flush(q), head, !LastOf(p).gaps, true);
    assert Same(l, moved, loop.extent == 0 || loop.loops == 1, loop.loops >= 2);
    hide Same;
    SameCat(Flush(q), head, !LastOf(p).gaps, true, l, moved, loop.extent == 0 || loop.loops == 1, loop.loops >= 2);
    assert head + moved == TM(Flush(p), 0) + Elems(end.size, loop.loops, first, loop.extent);
  }

  lemma {:induction false} CopiesTM(elem: Rec, n: nat, extent: int)
    requires elem.Data? && elem.typ.size >= 1 && elem.count >= 1
    ensures Same(Copies(elem, n, extent), Iter([elem], 0, extent, n), true, true) && |Copies(elem, n, extent)| == n
    decreases n
  {
    if n > 0 {
      var next := elem.(disp := elem.disp + extent);
      CopiesTM(next, n - 1, extent);
      OneData(elem);
      OneData(next);
      IterUnfolded(elem, n, extent);
      hide Iter, TM, Elems, Nested, WF;
      assert Same([elem], TM([elem], 0), true, true);
      SameCat([elem], TM([elem], 0), true, true, Copies(next, n - 1, extent), Iter([next], 0, extent, n - 1), true,
              true);
    }
  }

  lemma {:induction false} IterUnfolded(elem: Rec, n: nat, extent: int)
    requires elem.Data? && n > 0
    ensures Iter([elem], 0, extent, n) == TM([elem], 0) + Iter([elem.(disp := elem.disp + extent)], 0, extent, n - 1)
  {
    IterMoved(elem, n - 1, extent, 0, extent);
  }

  lemma {:induction false} IterMoved(elem: Rec, n: nat, extent: int, base: int, d: int)
    requires elem.Data?
    ensures Iter([elem], base + d, extent, n) == Iter([elem.(disp := elem.disp + d)], base, extent, n)
    decreases n
  {
    if n > 0 {
      var next := elem.(disp := elem.disp + d);
      assert [elem][1..] == [] && [next][1..] == [];
      assert base + d + elem.disp == base + next.disp;
      assert TM([elem], base + d) == TM([next], base);
      IterMoved(elem, n - 1, extent, base + extent, d);
      assert base + d + extent == base + extent + d;
      hide TM;
    }
  }

  lemma {:induction false} WrapTM(loop: Rec, before: seq<Rec>, body: seq<Rec>, end: Rec, exact: bool, full: bool)
    requires loop.Loop? && end.EndLoop? && loop.loops >= 1 && !loop.contiguous
    requires WF(before) && before != [] && end.size == |TM(before, 0)| && end.first == First(before)
    requires Same(body, TM(before, 0), exact, full)
    ensures Same(Wrap(loop, body, end), Iter(before, 0, loop.extent, loop.loops), exact, full)
  {
    hide WF, Run, Repeats;
    WrapRepeats(loop, body, end);
    var o := Wrap(loop, body, end);
    var n := |body| + 1;
    TMNonEmpty(before, 0);
    assert body != [];
    SliceWrap(loop, body, end);
    WrapShape(o, n);
    IterEqual(body, before, 0, loop.extent, loop.loops);
    hide Iter, TM;
    if exact && full {
      FirstIsFirst(before, 0);
      FirstIsFirst(body, 0);
      WrapWF(o, n);
    }
  }

  lemma {:induction false} WrapRepeats(loop: Rec, body: seq<Rec>, end: Rec)
    requires loop.Loop? && end.EndLoop? && loop.loops >= 1
    ensures Repeats(Wrap(loop, body, end)) <==> Repeats(body)
  {
    var a, e := [Loop(loop.loops, |body| + 1, loop.extent, loop.contiguous)],
        [EndLoop(|body| + 1, end.size, end.first)];
    assert Repeats(a) && Repeats(e);
    hide Repeats;
    RepeatsConcat(a, body);
    RepeatsConcat(a + body, e);
  }

  lemma {:induction false} SliceWrap(loop: Rec, body: seq<Rec>, end: Rec)
    requires loop.Loop? && end.EndLoop?
    ensures var o := Wrap(loop, body, end); var n := |body| + 1;
            && |o| == n + 1 && o[0] == Loop(loop.loops, n, loop.extent, loop.contiguous)
            && o[1..n] == body && o[n] == EndLoop(n, end.size, end.first) && o[n + 1..] == []
  {}

  lemma {:induction false} WrapShape(o: seq<Rec>, n: nat)
    requires 2 <= n < |o| && o[0].Loop? && o[0].items == n && o[n].EndLoop? && o[n + 1..] == []
    ensures TM(o, 0) == Iter(o[1..n], 0, o[0].extent, o[0].loops)
    ensures Nested(o) <==> Nested(o[1..n])
  {
    hide Iter;
    assert TM([], 0) == [];
  }

  lemma {:induction false} WrapWF(o: seq<Rec>, n: nat)
    requires 2 <= n < |o| && o[0].Loop? && o[0].items == n && o[0].loops >= 1 && !o[0].contiguous && o[n + 1..] == []
    requires WF(o[1..n]) && o[n] == EndLoop(n, |TM(o[1..n], 0)|, First(o[1..n]))
    ensures WF(o)
  {
    hide TM, First, Run;
  }

  // ----- the compiler keeps the typemap -----

  /** What is emitted for the loop at the head of a stretch, then for the rest. */
  lemma {:induction false} ThenRest(c: seq<Rec>, p: Pending, o: seq<Rec>, e: bool, f: bool, g: bool, h: bool)
    requires WF(c) && c != [] && c[0].Loop? && c[0].items < |c| && WF(c[c[0].items + 1..])
    requires Same(o, TM(Flush(p), 0) + Iter(c[1..c[0].items], 0, c[0].extent, c[0].loops), e, f)
    requires Same(Opt(c[c[0].items + 1..], NoRun), Before(NoRun, c[c[0].items + 1..]), g, h)
    ensures Same(o + Opt(c[c[0].items + 1..], NoRun), Before(p, c), e && g, f && h)
  {
    LoopHead(c);
    hide *;
    var rest := c[c[0].items + 1..];
    NothingPending(rest);
    var x := TM(Flush(p), 0) + Iter(c[1..c[0].items], 0, c[0].extent, c[0].loops);
    BeforeIs(p, c);
    Regroup(TM(Flush(p), 0), Iter(c[1..c[0].items], 0, c[0].extent, c[0].loops), TM(rest, 0));
    SameCat(o, x, e, f, Opt(rest, NoRun), TM(rest, 0), g, h);
  }

  lemma {:induction false} BeforeIs(p: Pending, c: seq<Rec>)
    ensures Before(p, c) == TM(Flush(p), 0) + TM(c, 0)
  {}

  lemma {:induction false} NothingPending(c: seq<Rec>)
    ensures Before(NoRun, c) == TM(c, 0)
  {
    assert TM([], 0) == [];
    assert [] + TM(c, 0) == TM(c, 0);
  }

  lemma {:induction false} FlushThen(p: Pending, o: seq<Rec>, t: seq<int>, e: bool, f: bool)
    requires PendOK(p) && Same(o, t, e, f)
    ensures Same(Flush(p) + o, TM(Flush(p), 0) + t, e, f)
  {
    hide TM, WF, Nested, Same, Flush, PendOK;
    FlushSame(p);
    SameCat(Flush(p), TM(Flush(p), 0), true, true, o, t, e, f);
  }

  /** What is compiled for a stretch when `p` is pending, in terms of its original. */
  ghost predicate Right(c: seq<Rec>, p: Pending)
    requires WF(c)
  {
    && Same(Opt(c, p), Before(p, c), !Altered(c, LastOf(p)), !Emptied(c, LastOf(p)))
    && |Opt(c, p)| <= |c| + |Flush(p)|
  }

  ghost predicate Prefix(a: seq<int>, b: seq<int>) {
    |a| <= |b| && b[..|a|] == a
  }

  /** A pending run without gaps stays at the beginning of what is emitted. */
  lemma {:induction false} Begins(c: seq<Rec>, p: Pending)
    requires WF(c) && PendOK(p) && p.Pend? && !LastOf(p).gaps
    ensures Prefix(TM(Flush(p), 0), TM(Opt(c, p), 0))
    decreases |c|
  {
    if c == [] {
      hide *;
      OptNothing(p);
    } else if c[0].Data? {
      DataHead(c);
      AddDataTM(p, c[0]);
      OptDataUnfold(c, p);
      hide *;
      if Merges(p, c[0]) {
        Begins(c[1..], AddData(p, c[0]));
        PrefixTrans(TM(Flush(p), 0), Elems(c[0].typ.size, c[0].count, c[0].disp, c[0].extent), TM(Opt(c, p), 0));
      } else {
        FlushBegins(p, Opt(c[1..], AddData(p, c[0])));
      }
    } else {
      hide *;
      LoopBegins(c, p);
    }
  }

  lemma {:induction false} OptNothing(p: Pending)
    ensures WF([]) && Opt([], p) == Flush(p)
    ensures Prefix(TM(Flush(p), 0), TM(Opt([], p), 0))
  {}

  lemma {:induction false} PrefixTrans(a: seq<int>, b: seq<int>, c: seq<int>)
    requires Prefix(a + b, c)
    ensures Prefix(a, c)
  {
    assert (a + b)[..|a|] == a;
  }

  lemma {:induction false} FlushBegins(p: Pending, o: seq<Rec>)
    requires PendOK(p)
    ensures Prefix(TM(Flush(p), 0), TM(Flush(p) + o, 0))
  {
    FlushTM(p);
    hide TM, Flush;
    NestedTM(Flush(p), o, 0);
  }

  lemma {:induction false} LoopBegins(c: seq<Rec>, p: Pending)
    requires WF(c) && c != [] && c[0].Loop? && PendOK(p) && p.Pend? && !LastOf(p).gaps
    ensures Prefix(TM(Flush(p), 0), TM(Opt(c, p), 0))
    decreases |c|, 0
  {
    LoopHead(c);
    var end := c[c[0].items];
    var first, rest := First(c), c[c[0].items + 1..];
    if c[0].contiguous && c[0].extent == end.size {
      Positive(c[0].loops, end.size);
      RunUnfold(c, p, Apart);
      hide *;
      var q := AddRun(p, first, c[0].loops * end.size);
      AddRunTM(p, first, c[0].loops * end.size);
      if Continues(p, first) {
        Begins(rest, q);
        NoneThen(Opt(rest, q));
        PrefixTrans(TM(Flush(p), 0), Run(first, c[0].loops * end.size), TM(Opt(c, p), 0));
      } else {
        FlushBegins(p, Opt(rest, q));
      }
    } else if c[0].contiguous {
      GappedUnfold(c, p);
      hide *;
      JoinedBegins(p, c[0], end, first, Opt(rest, NoRun));
    } else {
      var o := OtherUnfold(c, p);
      hide *;
      FlushBegins(p, o);
    }
  }

  lemma {:induction false} NoneThen(o: seq<Rec>)
    ensures [] + o == o
  {}

  /** Before a loop that is not contiguous the pending run is emitted. */
  lemma {:induction false} OtherUnfold(c: seq<Rec>, p: Pending) returns (o: seq<Rec>)
    requires WF(c) && c != [] && c[0].Loop? && !c[0].contiguous
    ensures Opt(c, p) == Flush(p) + o
  {
    LoopHead(c);
    if c[0].items == 2 { SmallBody(c); }
    hide *;
    var items, rest := c[0].items, Opt(c[c[0].items + 1..], NoRun);
    if items == 2 && (Strided(c[0], c[1]) || c[0].loops < 3) {
      StridedUnfold(c, p);
      var x := if Strided(c[0], c[1]) then [Data(c[1].typ, c[0].loops, c[1].disp, c[0].extent, false)]
        else Copies(c[1], c[0].loops, c[0].extent);
      o := x + rest;
      Assoc(Flush(p), x, rest);
    } else {
      NestedUnfold(c, p);
      var x := Wrap(c[0], Opt(c[1..items], NoRun), c[items]);
      o := x + rest;
      Assoc(Flush(p), x, rest);
    }
  }

  lemma {:induction false} Assoc(a: seq<Rec>, b: seq<Rec>, c: seq<Rec>)
    ensures a + b + c == a + (b + c)
  {}

  lemma {:induction false} JoinedBegins(p: Pending, loop: Rec, end: Rec, first: int, o: seq<Rec>)
    requires PendOK(p) && p.Pend? && !LastOf(p).gaps && loop.Loop? && end.EndLoop? && loop.loops >= 1
    ensures Prefix(TM(Flush(p), 0), TM(GappedLoop(p, loop, end, first) + o, 0))
  {
    hide TM, Run, Elems, Flush;
    var l := [Loop(Repetitions(p, loop, first), 2, loop.extent, loop.contiguous),
              Data(DT_BYTE, end.size, first, 1, true),
              EndLoop(2, end.size, end.first)];
    if Continues(p, first) {
      Positive(p.len, p.typ.size);
      var q := Pend(DT_BYTE, p.len * p.typ.size + end.size, p.disp, 1);
      FlushTM(p);
      FlushTM(q);
      RunSplit(p.disp, p.len * p.typ.size, end.size);
      assert GappedLoop(p, loop, end, first) + o == Flush(q) + (l + o);
      FlushBegins(q, l + o);
      PrefixTrans(TM(Flush(p), 0), Run(p.disp + p.len * p.typ.size, end.size),
                  TM(GappedLoop(p, loop, end, first) + o, 0));
    } else {
      assert GappedLoop(p, loop, end, first) + o == Flush(p) + (l + o);
      FlushBegins(p, l + o);
    }
  }

  /** Taking `t` into the pending run, which becomes `q`, and the rest. */
  lemma {:induction false} TakenIn(c: seq<Rec>, p: Pending, q: Pending, rest: seq<Rec>, t: seq<int>, joined: bool,
                                   o: seq<Rec>, e: bool, f: bool)
    requires PendOK(p) && TM(c, 0) == t + TM(rest, 0) && Same(o, Before(q, rest), e, f)
    requires joined ==>
               && p.Pend? && |TM(Flush(q), 0)| == |TM(Flush(p), 0)| + |t|
               && (TM(Flush(q), 0) == TM(Flush(p), 0) + t <==> !LastOf(p).gaps) && Prefix(TM(Flush(q), 0), TM(o, 0))
    requires !joined ==> TM(Flush(q), 0) == t
    ensures Same((if joined then [] else Flush(p)) + o, Before(p, c), e && !(joined && LastOf(p).gaps), f)
  {
    hide TM, WF, Nested, Flush, PendOK, Repeats;
    if joined {
      NoneThen(o);
      var a, b, x := TM(Flush(q), 0), TM(Flush(p), 0) + t, TM(rest, 0);
      assert Before(p, c) == b + x && Before(q, rest) == a + x;
      CatEqual(a, x, b, x);
      if TM(o, 0) == b + x {
        assert TM(o, 0)[..|a|] == b;
      }
    } else {
      hide Same;
      FlushThen(p, o, TM(c, 0), e, f);
    }
  }

  lemma {:induction false} OptDataUnfold(c: seq<Rec>, p: Pending)
    requires WF(c) && c != [] && c[0].Data?
    ensures WF(c[1..])
    ensures Opt(c, p) == (if Merges(p, c[0]) then [] else Flush(p)) + Opt(c[1..], AddData(p, c[0]))
    ensures Merges(p, c[0]) ==> Opt(c, p) == Opt(c[1..], AddData(p, c[0]))
  {
    hide TM, First, Flush, AddData, Merges;
    NoneThen(Opt(c[1..], AddData(p, c[0])));
  }

  lemma {:induction false} AlteredData(c: seq<Rec>, p: Pending)
    requires WF(c) && c != [] && c[0].Data? && WF(c[1..])
    ensures var r := c[0]; var next := Ended(r.disp + r.count * r.typ.size, Gaps(r.count, r.typ.size, r.extent));
            && Altered(c, LastOf(p)) == ((Merges(p, r) && LastOf(p).gaps) || Altered(c[1..], next))
            && Emptied(c, LastOf(p)) == Emptied(c[1..], next)
  {
    hide TM, First, WF;
  }

  lemma {:induction false} OptData(c: seq<Rec>, p: Pending)
    requires WF(c) && PendOK(p) && c != [] && c[0].Data?
    ensures Right(c, p)
    decreases |c|, 0
  {
    hide *;
    DataHead(c);
    OptDataUnfold(c, p);
    AlteredData(c, p);
    var r, rest, q := c[0], c[1..], AddData(p, c[0]);
    AddDataTM(p, r);
    OptCorrect(rest, q);
    RightIs(rest, q);
    AddDataPends(p, r);
    if Merges(p, r) {
      MergesPends(p, r);
      Begins(rest, q);
    }
    TakenIn(c, p, q, rest, Elems(r.typ.size, r.count, r.disp, r.extent), Merges(p, r), Opt(rest, q),
            !Altered(rest, LastOf(q)), !Emptied(rest, LastOf(q)));
    FlushSize(p);
    FlushSize(q);
    RightIf(c, p);
  }

  lemma {:induction false} MergesPends(p: Pending, r: Rec)
    requires r.Data? && Merges(p, r)
    ensures p.Pend? && !Gaps(r.count, r.typ.size, r.extent)
  {}

  lemma {:induction false} AddDataPends(p: Pending, r: Rec)
    requires r.Data?
    ensures AddData(p, r).Pend?
  {}

  lemma {:induction false} OptRun(c: seq<Rec>, p: Pending)
    requires WF(c) && PendOK(p) && c != [] && c[0].Loop?
    requires c[0].contiguous && c[c[0].items].EndLoop? && c[0].extent == c[c[0].items].size
    ensures Right(c, p)
    decreases |c|, 0
  {
    hide *;
    LoopHead(c);
    var items, first := c[0].items, First(c);
    var bytes, rest := c[0].loops * c[items].size, c[items + 1..];
    Positive(c[0].loops, c[items].size);
    var q := AddRun(p, first, bytes);
    RunUnfold(c, p, LastOf(p));
    AddRunTM(p, first, bytes);
    ElemsRun(c[items].size, c[0].loops, first);
    RunSize(first, bytes);
    OptCorrect(rest, q);
    RightIs(rest, q);
    SpoilsIs(p, first);
    if Continues(p, first) {
      AddRunPends(p, first, bytes);
      Begins(rest, q);
    }
    TakenIn(c, p, q, rest, Run(first, bytes), Continues(p, first), Opt(rest, q), !Altered(rest, LastOf(q)),
            !Emptied(rest, LastOf(q)));
    AddRunPends(p, first, bytes);
    FlushSize(p);
    FlushSize(q);
    RightIf(c, p);
  }

  lemma {:induction false} RightIs(c: seq<Rec>, p: Pending)
    requires WF(c) && Right(c, p)
    ensures Same(Opt(c, p), Before(p, c), !Altered(c, LastOf(p)), !Emptied(c, LastOf(p)))
    ensures |Opt(c, p)| <= |c| + |Flush(p)|
  {
    hide Same, Opt, Altered, Emptied, Before, WF, LastOf;
  }

  lemma {:induction false} RightIf(c: seq<Rec>, p: Pending)
    requires WF(c) && |Opt(c, p)| <= |c| + |Flush(p)|
    requires Same(Opt(c, p), Before(p, c), !Altered(c, LastOf(p)), !Emptied(c, LastOf(p)))
    ensures Right(c, p)
  {
    hide Same, Opt, Altered, Emptied, Before, WF, LastOf;
  }

  lemma {:induction false} SpoilsIs(p: Pending, disp: int)
    ensures Spoils(LastOf(p), disp) <==> Continues(p, disp) && LastOf(p).gaps
    ensures (LastOf(p).Ended? && LastOf(p).at == disp) <==> Continues(p, disp)
    ensures Continues(p, disp) ==> p.Pend?
  {
    hide EndOf, Gaps;
  }

  lemma {:induction false} FlushSize(p: Pending)
    ensures |Flush(p)| == if p.NoRun? then 0 else 1
  {}

  lemma {:induction false} AddRunPends(p: Pending, first: int, bytes: nat)
    ensures AddRun(p, first, bytes).Pend?
  {}

  lemma {:induction false} RunUnfold(c: seq<Rec>, p: Pending, last: Last)
    requires WF(c) && c != [] && c[0].Loop? && 2 <= c[0].items < |c|
    requires c[0].contiguous && c[c[0].items].EndLoop? && c[0].extent == c[c[0].items].size
    requires WF(c[c[0].items + 1..]) && First(c) == c[c[0].items].first && c[0].loops * c[c[0].items].size >= 0
    ensures var first := First(c); var bytes := c[0].loops * c[c[0].items].size; var rest := c[c[0].items + 1..];
            && Opt(c, p) == (if Continues(p, first) then [] else Flush(p)) + Opt(rest, AddRun(p, first, bytes))
            && (Continues(p, first) ==> Opt(c, p) == Opt(rest, AddRun(p, first, bytes)))
            && Altered(c, last) == (Spoils(last, first) || Altered(rest, Ended(first + bytes, false)))
            && Emptied(c, last) == Emptied(rest, Ended(first + bytes, false))
  {
    hide TM, WF, First, AddRun, Flush, Continues, Spoils;
    NoneThen(Opt(c[c[0].items + 1..], AddRun(p, First(c), c[0].loops * c[c[0].items].size)));
  }

  lemma {:induction false} GappedUnfold(c: seq<Rec>, p: Pending)
    requires WF(c) && c != [] && c[0].Loop? && 2 <= c[0].items < |c|
    requires c[0].contiguous && c[c[0].items].EndLoop? && c[0].extent != c[c[0].items].size && c[0].loops >= 1
    requires WF(c[c[0].items + 1..])
    ensures Opt(c, p) == GappedLoop(p, c[0], c[c[0].items], First(c)) + Opt(c[c[0].items + 1..], NoRun)
  {
    hide TM, WF, First, GappedLoop;
  }

  lemma {:induction false} AlteredGapped(c: seq<Rec>, last: Last)
    requires WF(c) && c != [] && c[0].Loop? && 2 <= c[0].items < |c|
    requires c[0].contiguous && c[c[0].items].EndLoop? && c[0].extent != c[c[0].items].size && WF(c[c[0].items + 1..])
    ensures var end := c[c[0].items]; var rest := c[c[0].items + 1..]; var peels := last.Ended? && last.at == end.first;
            && Altered(c, last)
              == (Spoils(last, end.first) || (peels && c[0].loops >= 2 && c[0].extent != 0) || Altered(rest, Apart))
            && Emptied(c, last) == ((peels && c[0].loops == 1) || Emptied(rest, Apart))
  {
    hide TM, WF, First, Spoils;
  }

  lemma {:induction false} AlteredOther(c: seq<Rec>, last: Last)
    requires WF(c) && c != [] && c[0].Loop? && 2 <= c[0].items < |c| && !c[0].contiguous
    requires WF(c[1..c[0].items]) && WF(c[c[0].items + 1..])
    ensures var inner := c[1..c[0].items]; var rest := c[c[0].items + 1..];
            && Altered(c, last) == (Altered(inner, Apart) || Altered(rest, Apart))
            && Emptied(c, last) == (Emptied(inner, Apart) || Emptied(rest, Apart))
  {
    hide TM, WF, First, Spoils;
  }

  lemma {:induction false} NestedUnfold(c: seq<Rec>, p: Pending)
    requires WF(c) && c != [] && c[0].Loop? && 2 <= c[0].items < |c|
    requires !c[0].contiguous && c[c[0].items].EndLoop?
    requires c[0].items == 2 && c[1].Data? ==> !Strided(c[0], c[1]) && c[0].loops >= 3
    requires WF(c[1..c[0].items]) && WF(c[c[0].items + 1..])
    ensures Opt(c, p) == Flush(p) + Wrap(c[0], Opt(c[1..c[0].items], NoRun), c[c[0].items])
               + Opt(c[c[0].items + 1..], NoRun)
  {
    hide TM, WF, First, Wrap, Flush;
  }

  /** What is compiled when nothing is pending. */
  lemma {:induction false} RightAlone(c: seq<Rec>)
    requires WF(c)
    ensures PendOK(NoRun) && LastOf(NoRun) == Apart && |Flush(NoRun)| == 0
    ensures Right(c, NoRun) ==>
              Same(Opt(c, NoRun), TM(c, 0), !Altered(c, Apart), !Emptied(c, Apart)) && |Opt(c, NoRun)| <= |c|
  {
    NothingPending(c);
    hide Same, Opt, Altered, Emptied, Before, WF, TM;
  }

  /** A loop that is emitted as `o`, after the pending run, and then the rest. */
  lemma {:induction false} OtherRight(c: seq<Rec>, p: Pending, o: seq<Rec>, e: bool, f: bool)
    requires WF(c) && PendOK(p) && c != [] && c[0].Loop? && c[0].items < |c| && WF(c[c[0].items + 1..])
    requires Same(o, Iter(c[1..c[0].items], 0, c[0].extent, c[0].loops), e, f) && |o| <= c[0].items + 1
    requires Right(c[c[0].items + 1..], NoRun) && Opt(c, p) == Flush(p) + o + Opt(c[c[0].items + 1..], NoRun)
    requires Altered(c, LastOf(p)) == (!e || Altered(c[c[0].items + 1..], Apart))
    requires Emptied(c, LastOf(p)) == (!f || Emptied(c[c[0].items + 1..], Apart))
    ensures Right(c, p)
  {
    LoopHead(c);
    hide *;
    var rest := c[c[0].items + 1..];
    RightAlone(rest);
    RightIs(rest, NoRun);
    FlushThen(p, o, Iter(c[1..c[0].items], 0, c[0].extent, c[0].loops), e, f);
    ThenRest(c, p, Flush(p) + o, e, f, !Altered(rest, Apart), !Emptied(rest, Apart));
    RightIf(c, p);
  }

  lemma {:induction false} OptGapped(c: seq<Rec>, p: Pending)
    requires WF(c) && PendOK(p) && c != [] && c[0].Loop?
    requires c[0].contiguous && c[c[0].items].EndLoop? && c[0].extent != c[c[0].items].size
    ensures Right(c, p)
    decreases |c|, 0
  {
    hide *;
    LoopHead(c);
    var items, first := c[0].items, First(c);
    var rest := c[items + 1..];
    RightAlone(rest);
    OptCorrect(rest, NoRun);
    RightIs(rest, NoRun);
    GappedUnfold(c, p);
    AlteredGapped(c, LastOf(p));
    GappedTM(p, c[0], c[items], first);
    GappedSize(p, c[0], c[items], first);
    var peels := LastOf(p).Ended? && LastOf(p).at == first;
    ThenRest(c, p, GappedLoop(p, c[0], c[items], first),
             !(Spoils(LastOf(p), first) || (peels && c[0].loops >= 2 && c[0].extent != 0)), !(peels && c[0].loops == 1),
             !Altered(rest, Apart), !Emptied(rest, Apart));
    RightIf(c, p);
  }

  lemma {:induction false} GappedSize(p: Pending, loop: Rec, end: Rec, first: int)
    requires loop.Loop? && end.EndLoop? && loop.loops >= 1
    ensures |GappedLoop(p, loop, end, first)| == |Flush(p)| + 3
  {}

  lemma {:induction false} SmallBody(c: seq<Rec>)
    requires WF(c) && c != [] && c[0].Loop? && c[0].items == 2
    ensures |c| > 2 && c[1].Data? && c[1..2] == [c[1]] && c[1].typ.size >= 1 && c[1].count >= 1
    ensures WF(c[1..2]) && !Altered(c[1..2], Apart) && !Emptied(c[1..2], Apart)
  {
    hide TM, First, Run;
    assert c[1..2] == [c[1]] && [c[1]][1..] == [];
  }

  lemma {:induction false} OptStrided(c: seq<Rec>, p: Pending)
    requires WF(c) && PendOK(p) && c != [] && c[0].Loop?
    requires !c[0].contiguous && c[0].items == 2 && |c| > 2 && c[1].Data? && Strided(c[0], c[1])
    ensures Right(c, p)
    decreases |c|, 0
  {
    LoopHead(c);
    SmallBody(c);
    var d, rest := c[1], c[3..];
    var o := [Data(d.typ, c[0].loops, d.disp, c[0].extent, false)];
    StridedUnfold(c, p);
    StridedTM(c[0], d);
    AlteredOther(c, LastOf(p));
    hide *;
    RightAlone(rest);
    OptCorrect(rest, NoRun);
    OtherRight(c, p, o, true, true);
  }

  lemma {:induction false} StridedTM(loop: Rec, d: Rec)
    requires loop.Loop? && loop.loops >= 1 && d.Data? && d.typ.size >= 1 && d.count == 1 && d.extent == d.typ.size
    ensures Same([Data(d.typ, loop.loops, d.disp, loop.extent, false)], Iter([d], 0, loop.extent, loop.loops), true,
                 true)
  {
    OneData(d);
    OneBlock(d.typ.size, 1, d.disp, d.extent);
    OneData(Data(d.typ, loop.loops, d.disp, loop.extent, false));
    IterElems([d], d.disp, d.typ.size, 0, loop.extent, loop.loops);
    hide TM, WF, Nested, Elems, Run, Iter;
  }

  lemma {:induction false} StridedUnfold(c: seq<Rec>, p: Pending)
    requires WF(c) && c != [] && c[0].Loop? && c[0].items == 2 && |c| > 2 && WF(c[3..])
    requires !c[0].contiguous && c[1].Data? && c[2].EndLoop?
    ensures Strided(c[0], c[1]) ==>
              Opt(c, p) == Flush(p) + [Data(c[1].typ, c[0].loops, c[1].disp, c[0].extent, false)] + Opt(c[3..], NoRun)
    ensures !Strided(c[0], c[1]) && c[0].loops < 3 ==>
              Opt(c, p) == Flush(p) + Copies(c[1], c[0].loops, c[0].extent) + Opt(c[3..], NoRun)
  {
    hide TM, WF, First, Flush, Copies, Wrap;
  }

  lemma {:induction false} OptCopies(c: seq<Rec>, p: Pending)
    requires WF(c) && PendOK(p) && c != [] && c[0].Loop?
    requires !c[0].contiguous && c[0].items == 2 && |c| > 2 && c[1].Data? && !Strided(c[0], c[1]) && c[0].loops < 3
    ensures Right(c, p)
    decreases |c|, 0
  {
    LoopHead(c);
    SmallBody(c);
    StridedUnfold(c, p);
    AlteredOther(c, LastOf(p));
    CopiesTM(c[1], c[0].loops, c[0].extent);
    hide *;
    RightAlone(c[3..]);
    OptCorrect(c[3..], NoRun);
    OtherRight(c, p, Copies(c[1], c[0].loops, c[0].extent), true, true);
  }

  lemma {:induction false} OptNested(c: seq<Rec>, p: Pending)
    requires WF(c) && PendOK(p) && c != [] && c[0].Loop? && !c[0].contiguous
    requires c[0].items == 2 && |c| > 2 && c[1].Data? ==> !Strided(c[0], c[1]) && c[0].loops >= 3
    ensures Right(c, p)
    decreases |c|, 0
  {
    hide *;
    LoopHead(c);
    var items := c[0].items;
    var inner, rest := c[1..items], c[items + 1..];
    NestedUnfold(c, p);
    AlteredOther(c, LastOf(p));
    RightAlone(inner);
    OptCorrect(inner, NoRun);
    OptCorrect(rest, NoRun);
    var body := Opt(inner, NoRun);
    WrapTM(c[0], inner, body, c[items], !Altered(inner, Apart), !Emptied(inner, Apart));
    WrapSize(c[0], body, c[items]);
    OtherRight(c, p, Wrap(c[0], body, c[items]), !Altered(inner, Apart), !Emptied(inner, Apart));
  }

  lemma {:induction false} WrapSize(loop: Rec, body: seq<Rec>, end: Rec)
    requires loop.Loop? && end.EndLoop?
    ensures |Wrap(loop, body, end)| == |body| + 2
  {}

  /** For every well-formed stretch and every pending run: the compiled records denote the same list
      of displacements if and only if nothing was altered, all their loops are repeated if and only
      if none was emptied, and there are never more records or other numbers of bytes. */
  lemma {:induction false} OptCorrect(c: seq<Rec>, p: Pending)
    requires WF(c) && PendOK(p)
    ensures Right(c, p)
    decreases |c|, 1
  {
    if c == [] {
      FlushSame(p);
      assert TM(Flush(p), 0) + TM([], 0) == TM(Flush(p), 0);
    } else if c[0].Data? {
      OptData(c, p);
    } else {
      LoopHead(c);
      hide TM, Nested, Opt, Altered, Emptied, First, Right;
      if c[0].contiguous {
        if c[0].extent == c[c[0].items].size { OptRun(c, p); } else { OptGapped(c, p); }
      } else if c[0].items == 2 {
        SmallBody(c);
        if Strided(c[0], c[1]) {
          OptStrided(c, p);
        } else if c[0].loops < 3 {
          OptCopies(c, p);
        } else {
          OptNested(c, p);
        }
      } else {
        OptNested(c, p);
      }
    }
  }

  lemma {:induction false} RepeatingKept(c: seq<Rec>, last: Last)
    requires WF(c) && Repeating(c)
    ensures !Emptied(c, last)
    decreases |c|
  {
    if c != [] {
      if c[0].Data? {
        hide TM, First, Run;
        RepeatingSlice(c, 1, |c|);
        RepeatingKept(c[1..],
                      Ended(c[0].disp + c[0].count * c[0].typ.size, Gaps(c[0].count, c[0].typ.size, c[0].extent)));
      } else {
        LoopHead(c);
        var end, inner, rest := c[c[0].items], c[1..c[0].items], c[c[0].items + 1..];
        RepeatingSlice(c, 1, c[0].items);
        RepeatingSlice(c, c[0].items + 1, |c|);
        assert c[c[0].items + 1..|c|] == rest;
        hide TM, First, Run, Repeating, Iter, Elems;
        Positive(c[0].loops, end.size);
        RepeatingKept(inner, Apart);
        RepeatingKept(rest, Apart);
        RepeatingKept(rest, Ended(end.first + c[0].loops * end.size, false));
        hide WF;
      }
    }
  }

  lemma {:induction false} RepeatingSlice(c: seq<Rec>, i: int, j: int)
    requires Repeating(c) && 0 <= i <= j <= |c|
    ensures Repeating(c[i..j])
  {
    forall k | 0 <= k < j - i && c[i..j][k].Loop? ensures c[i..j][k].loops >= 2 {
      assert c[i..j][k] == c[i + k];
    }
  }

  /** Committing a description keeps its meaning, for every count and extent, if and only if nothing
      was altered; the result is then again a description for the interpreters if and only if no loop
      was emptied. */
  lemma {:induction false} CommitCorrect(code: seq<Rec>, end: Rec, total: nat, extent: int)
    requires Committed(code) && end.EndLoop? && total >= 1
    ensures var c := Body(code); var out := Opt(c, NoRun) + [end];
            && |out| <= |code|
            && |WholeTM(out, total, extent)| == |WholeTM(code, total, extent)|
            && (WholeTM(out, total, extent) == WholeTM(code, total, extent) <==> !Altered(c, Apart))
            && (Committed(out) && WholeTM(out, total, extent) == WholeTM(code, total, extent)
                <==> !Altered(c, Apart) && !Emptied(c, Apart))
  {
    var c := Body(code);
    var out := Opt(c, NoRun) + [end];
    assert Body(out) == Opt(c, NoRun);
    hide Opt, Altered, Emptied, Right;
    OptCorrect(c, NoRun);
    RightAlone(c);
    TMNonEmpty(c, 0);
    if WF(Opt(c, NoRun)) { WFRepeats(Opt(c, NoRun)); }
    hide WF, Nested, First, Run, Repeats;
    assert Opt(c, NoRun) != [];
    IterEqual(Opt(c, NoRun), c, 0, extent, total);
  }

  // ----- the peeled repetition -----

  const INT4: Basic := Basic(0x0B, 4)
  const HEAD: Rec := Data(INT4, 1, 0, 4, true)
  const BLOCK: Rec := Data(INT4, 1, 4, 4, true)
  const LOOP: seq<Rec> := [Loop(2, 2, 8, true), BLOCK, EndLoop(2, 4, 4)]

  lemma {:induction false} PeelSource()
    ensures WF(LOOP) && First(LOOP) == 4 && TM(LOOP, 0) == Run(4, 4) + Run(12, 4)
    ensures WF([HEAD] + LOOP) && TM([HEAD] + LOOP, 0) == Run(0, 4) + Run(4, 4) + Run(12, 4)
  {
    assert LOOP[1..2] == [BLOCK] && LOOP[3..] == [] && ([HEAD] + LOOP)[1..] == LOOP;
    OneData(HEAD);
    OneData(BLOCK);
    OneBlock(4, 1, 0, 4);
    OneBlock(4, 1, 4, 4);
    OneBlock(4, 1, 12, 8);
    IterElems([BLOCK], 4, 4, 0, 8, 2);
    assert First([BLOCK]) == 4;
    assert Elems(4, 2, 4, 8) == Run(4, 4) + Elems(4, 1, 12, 8);
    hide Elems, Run, Iter;
    assert TM(LOOP, 0) == Elems(4, 2, 4, 8) + TM([], 0);
    assert WF(LOOP);
    NestedTM([HEAD], LOOP, 0);
    WFConcat([HEAD], LOOP);
  }

  lemma {:induction false} PeelOutput()
    requires WF([HEAD] + LOOP) && WF(LOOP) && First(LOOP) == 4
    ensures Opt([HEAD] + LOOP, NoRun)
         == [Data(DT_BYTE, 8, 0, 1, true)] + [Loop(1, 2, 8, true), Data(DT_BYTE, 4, 4, 1, true), EndLoop(2, 4, 4)]
    ensures Altered([HEAD] + LOOP, Apart)
  {
    assert WF([]);
    hide WF, TM, First;
    assert ([HEAD] + LOOP)[1..] == LOOP && LOOP[3..] == [];
    var p := Pend(INT4, 1, 0, 4);
    assert Opt(LOOP, p) == GappedLoop(p, LOOP[0], LOOP[2], 4) + Opt([], NoRun);
    assert Altered(LOOP, Ended(4, false));
  }

  lemma {:induction false} PeelMeaning()
    ensures var out :=
              [Data(DT_BYTE, 8, 0, 1, true)] + [Loop(1, 2, 8, true), Data(DT_BYTE, 4, 4, 1, true), EndLoop(2, 4, 4)];
            TM(out, 0) == Run(0, 4) + Run(4, 4) + Run(4, 4)
  {
    var d := Data(DT_BYTE, 8, 0, 1, true);
    OneData(d);
    OneBlock(1, 8, 0, 1);
    ByteLoop(1, 8, 4, 4, true);
    OneBlock(4, 1, 4, 8);
    hide TM, Elems, Iter;
    NestedTM([d], [Loop(1, 2, 8, true), Data(DT_BYTE, 4, 4, 1, true), EndLoop(2, 4, 4)], 0);
    RunSplit(0, 4, 4);
  }

  lemma {:induction false} WholeOnce(c: seq<Rec>, end: Rec, extent: int)
    ensures Body(c + [end]) == c && WholeTM(c + [end], 1, extent) == TM(c, 0)
  {
    assert Body(c + [end]) == c;
    hide TM;
    assert Iter(c, 0, extent, 1) == TM(c, 0) + Iter(c, extent, extent, 0);
  }

  /** The peeled repetition is lost and another one moved twice: an int, directly followed by two
      blocks of 4 bytes that lie 8 bytes apart. */
  lemma {:induction false} PeelExample()
    ensures var c := [HEAD] + LOOP; var end := EndLoop(4, 12, 0);
            && Committed(c + [end]) && Altered(Body(c + [end]), Apart)
            && WholeTM(c + [end], 1, 24) == Run(0, 4) + Run(4, 4) + Run(12, 4)
            && WholeTM(Opt(Body(c + [end]), NoRun) + [end], 1, 24) == Run(0, 4) + Run(4, 4) + Run(4, 4)
  {
    hide TM, WF, Opt, Altered, Iter, Run, Elems, First, WholeTM, Body;
    PeelSource();
    PeelOutput();
    PeelMeaning();
    var c, end := [HEAD] + LOOP, EndLoop(4, 12, 0);
    WholeOnce(c, end, 24);
    WholeOnce(Opt(c, NoRun), end, 24);
    assert Committed(c + [end]);
  }

  /** A run with gaps is spoilt without any loop: three ints, 8 bytes apart, and one at displacement 12,
      where three adjacent ints would end. */
  lemma {:induction false} SpoilExample()
    ensures var c := [Data(INT4, 3, 0, 8, true), Data(INT4, 1, 12, 4, true)];
            && WF(c) && Altered(c, Apart) && Opt(c, NoRun) == [Data(INT4, 4, 0, 4, true)]
            && TM(c, 0) == Run(0, 4) + Run(8, 4) + Run(16, 4) + Run(12, 4) && TM(Opt(c, NoRun), 0) == Run(0, 16)
  {
    var a, b := Data(INT4, 3, 0, 8, true), Data(INT4, 1, 12, 4, true);
    var c := [a, b];
    assert c[1..] == [b] && [b][1..] == [] && c == [a] + [b];
    assert WF([]) && WF([b]) && WF(c);
    assert Altered([b], Ended(12, true));
    assert Opt([b], Pend(INT4, 3, 0, 8)) == Opt([], Pend(INT4, 4, 0, 4));
    assert Opt(c, NoRun) == Opt([b], Pend(INT4, 3, 0, 8));
    OneData(a);
    OneData(b);
    OneData(Data(INT4, 4, 0, 4, true));
    ElemsRun(4, 4, 0);
    hide WF, Altered, Opt;
    NestedTM([a], [b], 0);
    assert Elems(4, 3, 0, 8) == Run(0, 4) + (Run(8, 4) + (Run(16, 4) + []));
    assert Elems(4, 1, 12, 4) == Run(12, 4) + [];
  }

  // ----- what the compiler is for -----

  /** Gapless records and loops, one after the other from `at` on. */
  ghost predicate Gapless(c: seq<Rec>, at: int)
    requires WF(c)
    decreases |c|
  {
    c == [] ||
    match c[0]
    case Data(t, count, disp, extent, contiguous) =>
      contiguous && extent == t.size && disp == at && Gapless(c[1..], at + count * t.size)
    case Loop(loops, items, extent, contiguous) =>
      contiguous && extent == c[items].size && c[items].first == at
      && Gapless(c[items + 1..], at + loops * c[items].size)
    case EndLoop(_, _, _) => false
  }

  lemma {:induction false} GaplessParts(c: seq<Rec>, p: Pending)
    requires WF(c) && c != [] && p.Pend? && Gapless(c, EndOf(p)) && PendOK(p)
    ensures c[0].Data? || c[0].Loop?
    ensures c[0].Data? ==> Merges(p, c[0]) && WF(c[1..]) && Gapless(c[1..], c[0].disp + c[0].count * c[0].typ.size)
    ensures c[0].Loop? ==>
              && 2 <= c[0].items < |c| && c[c[0].items].EndLoop? && WF(c[c[0].items + 1..])
              && c[0].contiguous && c[0].extent == c[c[0].items].size && Continues(p, c[c[0].items].first)
              && Gapless(c[c[0].items + 1..], c[c[0].items].first + c[0].loops * c[c[0].items].size)
  {
    hide TM, First, Run;
  }

  lemma {:induction false} EndIs(p: Pending, at: int, gaps: bool)
    requires LastOf(p) == Ended(at, gaps)
    ensures p.Pend? && EndOf(p) == at
  {}

  /** All of them become part of the run before them: one record is left. */
  lemma {:induction false} GaplessOne(c: seq<Rec>, p: Pending)
    requires WF(c) && PendOK(p) && p.Pend? && Gapless(c, EndOf(p))
    ensures |Opt(c, p)| == 1
    decreases |c|
  {
    hide *;
    if c == [] {
      OptNothing(p);
      FlushSize(p);
    } else {
      GaplessParts(c, p);
      if c[0].Data? {
        var r, q := c[0], AddData(p, c[0]);
        DataHead(c);
        OptDataUnfold(c, p);
        AddDataTM(p, r);
        EndIs(q, r.disp + r.count * r.typ.size, Gaps(r.count, r.typ.size, r.extent));
        GaplessOne(c[1..], q);
      } else {
        LoopHead(c);
        var end, rest := c[c[0].items], c[c[0].items + 1..];
        var bytes := c[0].loops * end.size;
        Positive(c[0].loops, end.size);
        RunUnfold(c, p, Apart);
        AddRunTM(p, First(c), bytes);
        EndIs(AddRun(p, First(c), bytes), First(c) + bytes, false);
        GaplessOne(rest, AddRun(p, First(c), bytes));
      }
    }
  }

  lemma {:induction false} GaplessHead(c: seq<Rec>, at: int)
    requires WF(c) && c != [] && Gapless(c, at)
    ensures c[0].Data? || c[0].Loop?
    ensures c[0].Data? ==> WF(c[1..]) && Gapless(c[1..], c[0].disp + c[0].count * c[0].typ.size)
    ensures c[0].Loop? ==>
              && 2 <= c[0].items < |c| && c[c[0].items].EndLoop? && WF(c[c[0].items + 1..])
              && c[0].contiguous && c[0].extent == c[c[0].items].size
              && Gapless(c[c[0].items + 1..], c[c[0].items].first + c[0].loops * c[c[0].items].size)
  {
    hide TM, First, Run;
  }

  /** So a description whose pieces follow each other without gaps is compiled to one record. */
  lemma {:induction false} GaplessWhole(c: seq<Rec>, at: int)
    requires WF(c) && c != [] && Gapless(c, at)
    ensures |Opt(c, NoRun)| == 1
  {
    hide *;
    RightAlone(c);
    GaplessHead(c, at);
    if c[0].Data? {
      DataHead(c);
      OptDataUnfold(c, NoRun);
      AddDataTM(NoRun, c[0]);
      var q := AddData(NoRun, c[0]);
      NoneMerges(c[0], Opt(c[1..], q));
      EndIs(q, c[0].disp + c[0].count * c[0].typ.size, Gaps(c[0].count, c[0].typ.size, c[0].extent));
      GaplessOne(c[1..], q);
    } else {
      LoopHead(c);
      var end, rest := c[c[0].items], c[c[0].items + 1..];
      Positive(c[0].loops, end.size);
      RunUnfold(c, NoRun, Apart);
      var q := AddRun(NoRun, First(c), c[0].loops * end.size);
      AddRunTM(NoRun, First(c), c[0].loops * end.size);
      NoneContinues(First(c), Opt(rest, q));
      EndIs(q, First(c) + c[0].loops * end.size, false);
      GaplessOne(rest, q);
    }
  }

  lemma {:induction false} NoneMerges(r: Rec, o: seq<Rec>)
    requires r.Data?
    ensures (if Merges(NoRun, r) then [] else Flush(NoRun)) + o == o
  {}

  lemma {:induction false} NoneContinues(first: int, o: seq<Rec>)
    ensures (if Continues(NoRun, first) then [] else Flush(NoRun)) + o == o
  {}
}
