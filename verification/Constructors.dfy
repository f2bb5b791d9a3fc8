/** The datatype constructors that are written with `ompi_ddt_add`, against the typemaps that
    MPI-2.1, section 4.1.2, gives them.

    Source: openmpi-1.4.2/ompi/datatype/dt_create_vector.c, dt_create_indexed.c, dt_create_struct.c. */
module Constructors {
  import opened Typemap
  import opened BuilderSpec
  import opened Builder
  import opened Layout
  import O = OptimizeSpec
  import G = Signature

  /** `len` elements at displacement `disp`. */
  datatype Block = Block(len: nat, disp: int)

  function Span(d: Datatype): int
    reads d
  {
    d.ub - d.lb
  }

  /** A datatype that the constructors may build on. */
  ghost predicate Usable(d: Datatype)
    reads d
  {
    d.Sound() && (d.kind.Predefined? || d.kind.Derived?) && |d.desc| < MAX_DT_COMPONENT_COUNT - 2
  }

  /** A new datatype for the typemap `t`: it has as many bytes, and denotes `t` if `right` holds, and
      only then. */
  ghost predicate Made(d: Datatype, t: seq<int>, right: bool)
    reads d
  {
    d.Sound() && d.kind.Derived? && |TM(d.desc, 0)| == |t| && (TM(d.desc, 0) == t <==> right)
  }

  /** The bounds and the alignment are those of what was placed, and the elements are `m`. */
  ghost predicate Tracks(d: Datatype, l: seq<Placed>, m: seq<G.Mark>)
    reads d
  {
    Encloses(d.Extent(), l) && G.Marks(d.desc) == m
  }

  /** Adding to a datatype under construction; an extent of -1 asks for the default. */
  method AddTo(d: Datatype, base: Datatype, count: nat, disp: int, extent: int, ghost t: seq<int>, ghost right: bool,
               ghost l: seq<Placed>, ghost m: seq<G.Mark>)
    requires Made(d, t, right) && Tracks(d, l, m) && Usable(base) && d != base
    requires Datatype.Addressable(base, count, disp, Datatype.RealExtent(base.Extent(), extent))
    modifies d
    ensures var e := Datatype.RealExtent(base.Extent(), extent);
            && Made(d, t + Iter(base.desc, disp, e, count), right && !base.Stretches(count, e))
            && Tracks(d, l + [Copies(base.Extent(), disp, e, count)], m + G.Times(G.Marks(base.desc), count))
            && (old(d.Valid()) && base.Valid() && !base.Stretches(count, e) ==> d.Valid())
            && d.Extent() == Grown(old(d.Extent()), base.Extent(), disp, e, count)
            && (count > 0 && base.desc != [] ==>
                  && d.desc == old(d.desc) + Datatype.NewRecords(base, count, disp, e)
                  && d.trueLb == Min(CopiesLb(base.trueLb, disp, e, count), old(d.trueLb))
                  && d.trueUb == Max(CopiesUb(base.trueUb, disp, e, count), old(d.trueUb)))
            && (count == 0 || base.desc == [] ==> d.desc == old(d.desc))
  {
    hide *;
    ghost var e, was := Datatype.RealExtent(base.Extent(), extent), d.desc;
    MadeFacts(d, t, right);
    TracksFacts(d, l, m);
    UsableFacts(base, count);
    PlacedCopies(base, count, disp, extent);
    MoreMade(base, was, t, right, count, disp, e);
    var ok := d.Add(base, count, disp, extent);
    MadeOf(d, t + Iter(base.desc, disp, e, count), right && !base.Stretches(count, e));
    TracksOf(d, l + [Copies(base.Extent(), disp, e, count)], m + G.Times(G.Marks(base.desc), count));
  }

  lemma {:induction false} TracksFacts(d: Datatype, l: seq<Placed>, m: seq<G.Mark>)
    requires Tracks(d, l, m)
    ensures Encloses(d.Extent(), l) && G.Marks(d.desc) == m
  {
    hide Encloses, G.Marks;
  }

  lemma {:induction false} TracksOf(d: Datatype, l: seq<Placed>, m: seq<G.Mark>)
    requires Encloses(d.Extent(), l) && G.Marks(d.desc) == m
    ensures Tracks(d, l, m)
  {
    hide Encloses, G.Marks;
  }

  lemma {:induction false} PlacedCopies(base: Datatype, count: nat, disp: int, extent: int)
    requires !base.kind.LbMarker? && !base.kind.UbMarker?
    ensures Datatype.PlacedAs(base, count, disp, extent)
         == Copies(base.Extent(), disp, Datatype.RealExtent(base.Extent(), extent), count)
  {}

  lemma {:induction false} MadeFacts(d: Datatype, t: seq<int>, right: bool)
    requires Made(d, t, right)
    ensures d.Sound() && d.kind.Derived? && WF(d.desc) && d.size == |TM(d.desc, 0)| == |t|
    ensures TM(d.desc, 0) == t <==> right
  {
    hide WF, TM;
  }

  lemma {:induction false} UsableFacts(base: Datatype, count: nat)
    requires Usable(base)
    ensures base.Sound() && !base.kind.LbMarker? && !base.kind.UbMarker?
    ensures !Datatype.TooMany(base.kind, |base.desc|, count)
  {
    hide WF, TM, Described;
  }

  /** The typemap after an add is right exactly if it was right before and nothing is overstretched. */
  lemma {:induction false} MoreMade(base: Datatype, was: seq<Rec>, t: seq<int>, right: bool, count: nat, disp: int,
                                    e: int)
    requires base.Sound() && WF(was) && |TM(was, 0)| == |t| && (TM(was, 0) == t <==> right)
    ensures |Iter(base.desc, disp, e, count)| == count * base.size
    ensures count == 0 || base.desc == [] ==>
              !base.Stretches(count, e) && t + Iter(base.desc, disp, e, count) == t && count * base.size == 0
    ensures count > 0 && base.desc != [] ==>
              (TM(was + Datatype.NewRecords(base, count, disp, e), 0) == t + Iter(base.desc, disp, e, count)
               <==> right && !base.Stretches(count, e))
  {
    hide WF, TM, Iter, Datatype.NewRecords, Overstretched, Described;
    IterLength(base.desc, disp, e, count);
    if count == 0 || base.desc == [] {
      Datatype.NothingAdded(was, base.desc, disp, e, count);
      Datatype.Unstretched(base, count, e);
      NothingIter(base.desc, disp, e, count, t);
      Datatype.NoSize(base.desc, base.size, base.nbElems);
    } else {
      var o, more := Datatype.NewRecords(base, count, disp, e), Iter(base.desc, disp, e, count);
      Datatype.NewRecordsTM(base, count, disp, e);
      TMConcat(was, o, 0);
      BothEqual(TM(was, 0), t, TM(o, 0), more);
    }
  }

  lemma {:induction false} NothingIter(c: seq<Rec>, disp: int, e: int, n: nat, t: seq<int>)
    requires n == 0 || c == []
    ensures t + Iter(c, disp, e, n) == t
  {
    IterLength(c, disp, e, n);
    hide Iter;
    assert Iter(c, disp, e, n) == [] by { assert TM([], 0) == []; }
  }

  lemma {:induction false} BothEqual(a: seq<int>, b: seq<int>, x: seq<int>, y: seq<int>)
    requires |a| == |b| && |x| == |y|
    ensures a + x == b + y <==> a == b && x == y
  {
    if a + x == b + y {
      assert a == (a + x)[..|a|] && b == (b + y)[..|a|];
      assert x == (a + x)[|a|..] && y == (b + y)[|a|..];
    }
  }

  lemma {:induction false} MadeOf(d: Datatype, t: seq<int>, right: bool)
    requires d.Sound() && d.kind.Derived? && d.size == |t| && (TM(d.desc, 0) == t <==> right)
    ensures Made(d, t, right)
  {
    hide WF, TM, Described;
  }

  /** Several elements of this datatype, its extent apart, are represented wrongly if it is not
      repeatable. */
  lemma {:induction false} StretchesIf(base: Datatype, n: nat)
    ensures base.Stretches(n, Span(base)) <==> !base.Repeatable() && n >= 2
  {}

  /** The bounds of a datatype without data. */
  const NOTHING: Extents := Extents(0, 0, false, false, 1)

  /** A constructor called with count 0 makes a datatype without data. */
  method Empty() returns (d: Datatype)
    ensures fresh(d) && Made(d, [], true) && d.Valid() && d.Extent() == NOTHING && G.Marks(d.desc) == []
  {
    var nothing := new Datatype.Marker(NullType);
    d := new Datatype();
    assert TM([], 0) == [];
    G.NoMarks();
    hide TM, Encloses, Snug, G.Marks;
    var ok := d.Add(nothing, 0, 0, 0);
  }

  // ----- indexed datatypes -----

  /** Section 4.1.2: the typemap of a list of blocks is that of the blocks one after the other. */
  ghost function BlocksTM(c: seq<Rec>, extent: int, blocks: seq<Block>): seq<int> {
    if blocks == [] then []
    else
      var b := blocks[|blocks| - 1];
      BlocksTM(c, extent, blocks[..|blocks| - 1]) + Iter(c, b.disp, extent, b.len)
  }

  /** All blocks lie at addresses that exist. */
  ghost predicate AllAddressable(base: Datatype, extent: int, blocks: seq<Block>)
    reads base
  {
    forall i :: 0 <= i < |blocks| ==> Datatype.Addressable(base, blocks[i].len, blocks[i].disp, extent)
  }

  lemma {:induction false} BlocksNext(c: seq<Rec>, extent: int, blocks: seq<Block>, i: nat)
    requires i < |blocks|
    ensures BlocksTM(c, extent, blocks[..i + 1]) == BlocksTM(c, extent, blocks[..i])
               + Iter(c, blocks[i].disp, extent, blocks[i].len)
  {
    assert blocks[..i + 1][..i] == blocks[..i];
    hide Iter;
  }

  /** A block that starts where the one before it ends continues it. */
  lemma {:induction false} BlocksMerge(c: seq<Rec>, extent: int, before: seq<int>, disp: int, m: nat, next: int, n: nat)
    requires next == disp + m * extent
    ensures before + Iter(c, disp, extent, m + n) == before + Iter(c, disp, extent, m) + Iter(c, next, extent, n)
  {
    IterSplit(c, disp, extent, m, n);
    hide Iter;
  }

  lemma {:induction false} MergeAddressable(base: Datatype, disp: int, extent: int, m: nat, next: int, n: nat)
    requires next == disp + m * extent
    requires Datatype.Addressable(base, m, disp, extent) && Datatype.Addressable(base, n, next, extent)
    ensures Datatype.Addressable(base, m + n, disp, extent)
  {
    if m > 0 && n > 0 {
      MergeEnds(extent, m, n);
    } else {
      assert m == 0 ==> m * extent == 0;
    }
  }

  lemma {:induction false} MergeEnds(e: int, m: nat, n: nat)
    requires m > 0 && n > 0
    ensures Min(0, e * (m + n - 1)) == Min(Min(0, e * (m - 1)), m * e + Min(0, e * (n - 1)))
    ensures Max(0, e * (m + n - 1)) == Max(Max(0, e * (m - 1)), m * e + Max(0, e * (n - 1)))
  {
    assert e * (m + n - 1) == m * e + e * (n - 1) && m * e == e * (m - 1) + e;
    if e >= 0 {
      Sign(e, m - 1);
      Sign(e, n - 1);
    } else {
      Sign(-e, m - 1);
      Sign(-e, n - 1);
      assert e * (m - 1) == -(-e * (m - 1)) && e * (n - 1) == -(-e * (n - 1));
    }
  }

  /** The blocks are merged into runs; this is the last one of them.  Displacements are counted in units
      of which an element takes `extent`. */
  function LastRun(extent: int, blocks: seq<Block>): Block
    requires blocks != []
  {
    var b := blocks[|blocks| - 1];
    if |blocks| == 1 then b
    else
      var p := LastRun(extent, blocks[..|blocks| - 1]);
      if p.disp + p.len * extent == b.disp then Block(p.len + b.len, p.disp) else b
  }

  /** Some run has several elements. */
  predicate Doubled(extent: int, blocks: seq<Block>) {
    blocks != [] && (LastRun(extent, blocks).len >= 2 || Doubled(extent, blocks[..|blocks| - 1]))
  }

  lemma {:induction false} RunNext(extent: int, blocks: seq<Block>, i: nat)
    requires i < |blocks|
    ensures Doubled(extent, blocks[..i + 1]) <==>
              LastRun(extent, blocks[..i + 1]).len >= 2 || Doubled(extent, blocks[..i])
    ensures i == 0 ==> LastRun(extent, blocks[..i + 1]) == blocks[0] && !Doubled(extent, blocks[..i])
    ensures i > 0 ==>
              var p := LastRun(extent, blocks[..i]);
              LastRun(extent, blocks[..i + 1])
              == if p.disp + p.len * extent == blocks[i].disp then Block(p.len + blocks[i].len, p.disp) else blocks[i]
  {
    assert blocks[..i + 1][..i] == blocks[..i];
  }

  /** The runs that the blocks are merged into. */
  function RunsOf(extent: int, blocks: seq<Block>): (r: seq<Block>)
    requires blocks != []
    ensures r != [] && r[|r| - 1] == LastRun(extent, blocks)
  {
    var b := blocks[|blocks| - 1];
    if |blocks| == 1 then [b]
    else
      var r := RunsOf(extent, blocks[..|blocks| - 1]);
      var p := r[|r| - 1];
      if p.disp + p.len * extent == b.disp then r[..|r| - 1] + [Block(p.len + b.len, p.disp)] else r + [b]
  }

  /** What is placed for runs, whose displacements are counted in `unit` bytes. */
  ghost function RunsPlaced(e: Extents, extent: int, unit: int, runs: seq<Block>): (l: seq<Placed>)
    ensures |l| == |runs|
    ensures forall i :: 0 <= i < |runs| ==> l[i] == Copies(e, runs[i].disp * unit, extent, runs[i].len)
  {
    seq(|runs|, i requires 0 <= i < |runs| => Copies(e, runs[i].disp * unit, extent, runs[i].len))
  }

  lemma {:induction false} PlacedAppend(e: Extents, extent: int, unit: int, runs: seq<Block>, b: Block)
    ensures RunsPlaced(e, extent, unit, runs + [b])
         == RunsPlaced(e, extent, unit, runs) + [Copies(e, b.disp * unit, extent, b.len)]
  {
    var k := RunsPlaced(e, extent, unit, runs + [b]);
    assert k[|runs|] == Copies(e, b.disp * unit, extent, b.len);
    assert forall i :: 0 <= i < |runs| ==> (runs + [b])[i] == runs[i];
  }

  lemma {:induction false} FirstPlaced(e: Extents, extent: int, unit: int, step: int, blocks: seq<Block>)
    requires blocks != []
    ensures [] + [Copies(e, blocks[0].disp * unit, extent, blocks[0].len)]
         == RunsPlaced(e, extent, unit, RunsOf(step, blocks[..1]))
    ensures Total(blocks[..1]) == blocks[0].len && Total(blocks[..0]) == 0
    ensures RunsOf(step, blocks[..1]) == blocks[..1] == [] + [blocks[0]]
  {
    assert blocks[..1] == [blocks[0]] == [] + [blocks[0]] && [blocks[0]][..0] == [] && blocks[..0] == [];
    assert Total([blocks[0]]) == Total([]) + blocks[0].len;
    PlacedAppend(e, extent, unit, [], blocks[0]);
    assert RunsPlaced(e, extent, unit, []) == [];
  }

  /** All runs but the last one are settled. */
  lemma {:induction false} RunsOfNext(step: int, blocks: seq<Block>, i: nat, p: Block) returns (front: seq<Block>)
    requires 0 < i < |blocks| && p == LastRun(step, blocks[..i])
    ensures RunsOf(step, blocks[..i]) == front + [p]
    ensures var b := blocks[i];
            RunsOf(step, blocks[..i + 1])
            == front + if p.disp + p.len * step == b.disp then [Block(p.len + b.len, p.disp)] else [p] + [b]
    ensures Total(blocks[..i + 1]) == Total(blocks[..i]) + blocks[i].len
  {
    assert blocks[..i + 1][..i] == blocks[..i] && blocks[..i + 1][i] == blocks[i];
    hide LastRun;
    var r := RunsOf(step, blocks[..i]);
    front := r[..|r| - 1];
    assert r + [blocks[i]] == front + ([p] + [blocks[i]]);
  }

  /** One more block continues the last run or begins a new one. */
  lemma {:induction false} PlacedNext(e: Extents, extent: int, unit: int, step: int, blocks: seq<Block>, i: nat,
                                      l: seq<Placed>, p: Block)
    requires 0 < i < |blocks| && p == LastRun(step, blocks[..i])
    requires l + [Copies(e, p.disp * unit, extent, p.len)] == RunsPlaced(e, extent, unit, RunsOf(step, blocks[..i]))
    ensures var b := blocks[i];
            RunsPlaced(e, extent, unit, RunsOf(step, blocks[..i + 1]))
            == if p.disp + p.len * step == b.disp then l + [Copies(e, p.disp * unit, extent, p.len + b.len)]
               else l + [Copies(e, p.disp * unit, extent, p.len)] + [Copies(e, b.disp * unit, extent, b.len)]
    ensures Total(blocks[..i + 1]) == Total(blocks[..i]) + blocks[i].len
  {
    hide *;
    var front := RunsOfNext(step, blocks, i, p);
    PlacedTwo(e, extent, unit, front, p, blocks[i]);
    SamePrefix(l, RunsPlaced(e, extent, unit, front), Copies(e, p.disp * unit, extent, p.len));
    PlacedAppend(e, extent, unit, front, Block(p.len + blocks[i].len, p.disp));
  }

  lemma {:induction false} PlacedTwo(e: Extents, extent: int, unit: int, front: seq<Block>, p: Block, b: Block)
    ensures var l := RunsPlaced(e, extent, unit, front);
            && RunsPlaced(e, extent, unit, front + [p]) == l + [Copies(e, p.disp * unit, extent, p.len)]
            && RunsPlaced(e, extent, unit, front + ([p] + [b]))
               == l + [Copies(e, p.disp * unit, extent, p.len)] + [Copies(e, b.disp * unit, extent, b.len)]
  {
    hide RunsPlaced;
    PlacedAppend(e, extent, unit, front, p);
    PlacedAppend(e, extent, unit, front + [p], b);
    assert front + ([p] + [b]) == front + [p] + [b];
  }

  lemma {:induction false} SamePrefix(a: seq<Placed>, b: seq<Placed>, p: Placed)
    requires a + [p] == b + [p]
    ensures a == b
  {
    assert |a| == |b|;
    assert (a + [p])[..|a|] == a && (b + [p])[..|b|] == b;
  }

  /** If no block is empty, the bounds are those of the blocks, merged or not. */
  lemma {:induction false} RunsSame(e: Extents, extent: int, unit: int, step: int, blocks: seq<Block>)
    requires blocks != [] && step * unit == extent && forall i :: 0 <= i < |blocks| ==> blocks[i].len >= 1
    ensures SameBounds(RunsPlaced(e, extent, unit, RunsOf(step, blocks)), RunsPlaced(e, extent, unit, blocks))
    ensures LastRun(step, blocks).len >= 1
    decreases |blocks|
  {
    hide *;
    var n := |blocks| - 1;
    assert blocks[..n + 1] == blocks && blocks == blocks[..n] + [blocks[n]];
    FirstPlaced(e, extent, unit, step, blocks);
    RunNext(step, blocks, n);
    PlacedAppend(e, extent, unit, blocks[..n], blocks[n]);
    if n == 0 {
      SameReflexive(RunsPlaced(e, extent, unit, blocks));
    } else {
      RunsSame(e, extent, unit, step, blocks[..n]);
      var p := LastRun(step, blocks[..n]);
      var front := RunsOfNext(step, blocks, n, p);
      PlacedTwo(e, extent, unit, front, p, blocks[n]);
      PlacedAppend(e, extent, unit, front, Block(p.len + blocks[n].len, p.disp));
      RunSame(e, extent, unit, step, RunsPlaced(e, extent, unit, front), RunsPlaced(e, extent, unit, blocks[..n]), p,
              blocks[n]);
    }
  }

  lemma {:induction false} RunSame(e: Extents, extent: int, unit: int, step: int, l: seq<Placed>, k: seq<Placed>,
                                   p: Block, b: Block)
    requires step * unit == extent && p.len >= 1 && b.len >= 1
    requires SameBounds(l + [Copies(e, p.disp * unit, extent, p.len)], k)
    ensures SameBounds(l + [Copies(e, p.disp * unit, extent, p.len)] + [Copies(e, b.disp * unit, extent, b.len)],
                       k + [Copies(e, b.disp * unit, extent, b.len)])
    ensures p.disp + p.len * step == b.disp ==>
              SameBounds(l + [Copies(e, p.disp * unit, extent, p.len + b.len)],
                         k + [Copies(e, b.disp * unit, extent, b.len)])
  {
    hide *;
    var q, was := Copies(e, b.disp * unit, extent, b.len), l + [Copies(e, p.disp * unit, extent, p.len)];
    SameNext(was, k, q);
    if p.disp + p.len * step == b.disp {
      Scale(p.disp, p.len, step, unit);
      CopiesMerged(l, e, p.disp * unit, extent, p.len, b.len, b.disp * unit);
      SameTrans(l + [Copies(e, p.disp * unit, extent, p.len + b.len)], was + [q], k + [q]);
    }
  }

  lemma {:induction false} Scale(disp: int, len: nat, step: int, unit: int)
    ensures (disp + len * step) * unit == disp * unit + len * (step * unit)
  {}

  /** All runs of the first `i` blocks but the last one, `p`, are placed, and their elements are `m`. */
  ghost predicate Before(e: Extents, extent: int, unit: int, step: int, blocks: seq<Block>, i: nat, bm: seq<G.Mark>,
                         l: seq<Placed>, m: seq<G.Mark>, p: Block)
    requires 0 < i <= |blocks|
  {
    && p == LastRun(step, blocks[..i])
    && l + [Copies(e, p.disp * unit, extent, p.len)] == RunsPlaced(e, extent, unit, RunsOf(step, blocks[..i]))
    && m + G.Times(bm, p.len) == G.Times(bm, Total(blocks[..i]))
  }

  lemma {:induction false} BeforeFirst(e: Extents, extent: int, unit: int, step: int, blocks: seq<Block>,
                                       bm: seq<G.Mark>)
    requires blocks != []
    ensures Before(e, extent, unit, step, blocks, 1, bm, [], [], blocks[0])
  {
    FirstPlaced(e, extent, unit, step, blocks);
    RunNext(step, blocks, 0);
    hide *;
    NoMarksYet(bm, blocks[0].len);
    BeforeIf(e, extent, unit, step, blocks, 1, bm, [], [], blocks[0]);
  }

  lemma {:induction false} BeforeIf(e: Extents, extent: int, unit: int, step: int, blocks: seq<Block>, i: nat,
                                    bm: seq<G.Mark>, l: seq<Placed>, m: seq<G.Mark>, p: Block)
    requires 0 < i <= |blocks|
    ensures Before(e, extent, unit, step, blocks, i, bm, l, m, p) <==>
              && p == LastRun(step, blocks[..i])
              && l + [Copies(e, p.disp * unit, extent, p.len)] == RunsPlaced(e, extent, unit, RunsOf(step, blocks[..i]))
              && m + G.Times(bm, p.len) == G.Times(bm, Total(blocks[..i]))
  {
    hide LastRun, RunsOf, RunsPlaced, Total, G.Times;
  }

  /** One more block. */
  lemma {:induction false} BeforeNext(e: Extents, extent: int, unit: int, step: int, blocks: seq<Block>, i: nat,
                                      bm: seq<G.Mark>, l: seq<Placed>, m: seq<G.Mark>, p: Block)
    requires 0 < i < |blocks| && Before(e, extent, unit, step, blocks, i, bm, l, m, p)
    ensures var b := blocks[i];
            if p.disp + p.len * step == b.disp then
              Before(e, extent, unit, step, blocks, i + 1, bm, l, m, Block(p.len + b.len, p.disp))
            else
              Before(e, extent, unit, step, blocks, i + 1, bm, l + [Copies(e, p.disp * unit, extent, p.len)],
                     m + G.Times(bm, p.len), b)
  {
    hide *;
    var b := blocks[i];
    BeforeIf(e, extent, unit, step, blocks, i, bm, l, m, p);
    PlacedNext(e, extent, unit, step, blocks, i, l, p);
    RunNext(step, blocks, i);
    MoreElements(bm, m, p.len, Total(blocks[..i]), b.len);
    BeforeIf(e, extent, unit, step, blocks, i + 1, bm, l, m, Block(p.len + b.len, p.disp));
    BeforeIf(e, extent, unit, step, blocks, i + 1, bm, l + [Copies(e, p.disp * unit, extent, p.len)],
             m + G.Times(bm, p.len), b);
  }

  /** When the last run is placed as well. */
  lemma {:induction false} BeforeEnd(d: Datatype, base: Datatype, unit: int, step: int, blocks: seq<Block>,
                                     l: seq<Placed>, m: seq<G.Mark>, p: Block)
    requires blocks != [] && step * unit == Span(base)
    requires Before(base.Extent(), Span(base), unit, step, blocks, |blocks|, G.Marks(base.desc), l, m, p)
    requires Tracks(d, l + [Copies(base.Extent(), p.disp * unit, Span(base), p.len)],
                    m + G.Times(G.Marks(base.desc), p.len))
    ensures BlockBounds(d, base, unit, step, blocks) && G.Marks(d.desc) == G.Times(G.Marks(base.desc), Total(blocks))
  {
    assert blocks[..|blocks|] == blocks;
    BeforeIf(base.Extent(), Span(base), unit, step, blocks, |blocks|, G.Marks(base.desc), l, m, p);
    hide *;
    BlocksTracked(d, base, unit, step, blocks, G.Times(G.Marks(base.desc), Total(blocks)));
  }

  /** How many elements the blocks have. */
  function Total(blocks: seq<Block>): nat {
    if blocks == [] then 0 else Total(blocks[..|blocks| - 1]) + blocks[|blocks| - 1].len
  }

  /** The bounds of a datatype made of blocks: those of the runs; an empty run counts as one element. */
  ghost predicate BlockBounds(d: Datatype, base: Datatype, unit: int, step: int, blocks: seq<Block>)
    reads d, base
  {
    if blocks == [] then d.Extent() == NOTHING
    else
      && Encloses(d.Extent(), RunsPlaced(base.Extent(), Span(base), unit, RunsOf(step, blocks)))
      && ((forall i :: 0 <= i < |blocks| ==> blocks[i].len >= 1) ==>
            Encloses(d.Extent(), RunsPlaced(base.Extent(), Span(base), unit, blocks)))
  }

  lemma {:induction false} BlocksTracked(d: Datatype, base: Datatype, unit: int, step: int, blocks: seq<Block>,
                                         m: seq<G.Mark>)
    requires blocks != [] && step * unit == Span(base)
    requires Tracks(d, RunsPlaced(base.Extent(), Span(base), unit, RunsOf(step, blocks)), m)
    ensures BlockBounds(d, base, unit, step, blocks) && G.Marks(d.desc) == m
  {
    hide Encloses, G.Marks;
    var l, k := RunsPlaced(base.Extent(), Span(base), unit, RunsOf(step, blocks)),
        RunsPlaced(base.Extent(), Span(base), unit, blocks);
    if forall i :: 0 <= i < |blocks| ==> blocks[i].len >= 1 {
      RunsSame(base.Extent(), Span(base), unit, step, blocks);
      hide *;
      SameEncloses(d.Extent(), l, k);
    }
  }

  /** A list of blocks on the way: all runs of the first `i` of them are built, except the last one, `p`.  The
      typemap up to there is `t`, right or not; displacements are counted in `unit` bytes. */
  ghost predicate Building(base: Datatype, unit: int, step: int, blocks: seq<Block>, i: nat, t: seq<int>, right: bool,
                           l: seq<Placed>, m: seq<G.Mark>, p: Block)
    requires 0 < i <= |blocks|
    reads base
  {
    && Usable(base) && step * unit == Span(base)
    && AllAddressable(base, Span(base), Scaled(blocks, unit))
    && Datatype.Addressable(base, p.len, p.disp * unit, Span(base))
    && t + Iter(base.desc, p.disp * unit, Span(base), p.len)
       == BlocksTM(base.desc, Span(base), Scaled(blocks, unit)[..i])
    && (right && !base.Stretches(p.len, Span(base)) <==> base.Repeatable() || !Doubled(step, blocks[..i]))
    && Before(base.Extent(), Span(base), unit, step, blocks, i, G.Marks(base.desc), l, m, p)
  }

  lemma {:induction false} BuildingFirst(base: Datatype, unit: int, step: int, blocks: seq<Block>)
    requires Usable(base) && step * unit == Span(base) && blocks != []
    requires AllAddressable(base, Span(base), Scaled(blocks, unit))
    ensures Building(base, unit, step, blocks, 1, [], true, [], [], blocks[0])
  {
    hide Usable, Datatype.Addressable, Iter, BlocksTM, Datatype.Stretches, Datatype.Repeatable, Before, Doubled,
         LastRun, G.Marks;
    BeforeFirst(base.Extent(), Span(base), unit, step, blocks, G.Marks(base.desc));
    BlocksNext(base.desc, Span(base), Scaled(blocks, unit), 0);
    NothingTM(base, Span(base), Scaled(blocks, unit));
    RunNext(step, blocks, 0);
    StretchesIf(base, blocks[0].len);
  }

  lemma {:induction false} NothingTM(base: Datatype, extent: int, blocks: seq<Block>)
    ensures BlocksTM(base.desc, extent, blocks[..0]) == []
  {}

  /** What an add of the last run needs. */
  lemma {:induction false} BuildingFacts(base: Datatype, unit: int, step: int, blocks: seq<Block>, i: nat, t: seq<int>,
                                         right: bool, l: seq<Placed>, m: seq<G.Mark>, p: Block)
    requires 0 < i <= |blocks| && Building(base, unit, step, blocks, i, t, right, l, m, p)
    ensures Usable(base) && step * unit == Span(base) == base.ub - base.lb
    ensures Datatype.RealExtent(base.Extent(), Span(base)) == Span(base)
    ensures Datatype.Addressable(base, p.len, p.disp * unit, Span(base))
  {
    hide Usable, Datatype.Addressable, Iter, BlocksTM, Datatype.Stretches, Datatype.Repeatable, Before, Doubled,
         G.Marks;
  }

  /** The next block continues the last run, or that one is built and the block begins a new one. */
  lemma {:induction false} BuildingNext(base: Datatype, unit: int, step: int, blocks: seq<Block>, i: nat, t: seq<int>,
                                        right: bool, l: seq<Placed>, m: seq<G.Mark>, p: Block)
    requires 0 < i < |blocks| && Building(base, unit, step, blocks, i, t, right, l, m, p)
    ensures var b, e := blocks[i], Span(base);
            if p.disp + p.len * step == b.disp then
              Building(base, unit, step, blocks, i + 1, t, right, l, m, Block(p.len + b.len, p.disp))
            else
              Building(base, unit, step, blocks, i + 1, t + Iter(base.desc, p.disp * unit, e, p.len),
                       right && !base.Stretches(p.len, e), l + [Copies(base.Extent(), p.disp * unit, e, p.len)],
                       m + G.Times(G.Marks(base.desc), p.len), b)
  {
    hide Usable, Datatype.Addressable, Iter, BlocksTM, Datatype.Stretches, Datatype.Repeatable, Before, Doubled,
         LastRun, G.Marks, G.Times;
    var b, e, scaled := blocks[i], Span(base), Scaled(blocks, unit);
    assert p == LastRun(step, blocks[..i]) by {
      BeforeIf(base.Extent(), e, unit, step, blocks, i, G.Marks(base.desc), l, m, p);
    }
    BeforeNext(base.Extent(), e, unit, step, blocks, i, G.Marks(base.desc), l, m, p);
    BlocksNext(base.desc, e, scaled, i);
    RunNext(step, blocks, i);
    StretchesIf(base, p.len);
    StretchesIf(base, p.len + b.len);
    StretchesIf(base, b.len);
    assert scaled[i] == Block(b.len, b.disp * unit) && Datatype.Addressable(base, b.len, b.disp * unit, e);
    if p.disp + p.len * step == b.disp {
      Scale(p.disp, p.len, step, unit);
      BlocksMerge(base.desc, e, t, p.disp * unit, p.len, b.disp * unit, b.len);
      MergeAddressable(base, p.disp * unit, e, p.len, b.disp * unit, b.len);
    }
  }

  /** When the last run is built as well. */
  lemma {:induction false} BuildingEnd(d: Datatype, base: Datatype, unit: int, step: int, blocks: seq<Block>,
                                       t: seq<int>, right: bool, l: seq<Placed>, m: seq<G.Mark>, p: Block)
    requires blocks != [] && Building(base, unit, step, blocks, |blocks|, t, right, l, m, p)
    requires Made(d, t + Iter(base.desc, p.disp * unit, Span(base), p.len), right && !base.Stretches(p.len, Span(base)))
    requires Tracks(d, l + [Copies(base.Extent(), p.disp * unit, Span(base), p.len)],
                    m + G.Times(G.Marks(base.desc), p.len))
    requires base.Valid() && right && !base.Stretches(p.len, Span(base)) ==> d.Valid()
    ensures Made(d, BlocksTM(base.desc, Span(base), Scaled(blocks, unit)), base.Repeatable() || !Doubled(step, blocks))
    ensures base.Valid() && (base.Repeatable() || !Doubled(step, blocks)) ==> d.Valid()
    ensures BlockBounds(d, base, unit, step, blocks) && G.Marks(d.desc) == G.Times(G.Marks(base.desc), Total(blocks))
  {
    hide Usable, Datatype.Addressable, Iter, BlocksTM, Datatype.Stretches, Datatype.Repeatable, Before, Doubled, Made,
         Tracks, Datatype.Valid, BlockBounds, G.Marks, G.Times, Total;
    assert blocks[..|blocks|] == blocks && Scaled(blocks, unit)[..|blocks|] == Scaled(blocks, unit);
    BeforeEnd(d, base, unit, step, blocks, l, m, p);
  }

  lemma {:induction false} NotScaled(blocks: seq<Block>)
    ensures Scaled(blocks, 1) == blocks
  {}

  /** `ompi_ddt_create_hindexed`: displacements in bytes. */
  method CreateHindexed(blocks: seq<Block>, base: Datatype) returns (d: Datatype)
    requires Usable(base) && AllAddressable(base, Span(base), blocks)
    ensures fresh(d)
    ensures Made(d, BlocksTM(base.desc, Span(base), blocks), base.Repeatable() || !Doubled(Span(base), blocks))
    ensures base.Valid() && (base.Repeatable() || !Doubled(Span(base), blocks)) ==> d.Valid()
    ensures BlockBounds(d, base, 1, Span(base), blocks)
    ensures G.Marks(d.desc) == G.Times(G.Marks(base.desc), Total(blocks))
  {
    hide *;
    OwnSpan(base);
    NotScaled(blocks);
    if |blocks| == 0 {
      NoBlocks(base, Span(base));
      assert blocks == [];
      d := Empty();
      NoBounds(d, base, 1, Span(base));
      return;
    }
    d := new Datatype();
    StartEmpty(d);
    var extent := base.ub - base.lb;
    var disp, length: nat := blocks[0].disp, blocks[0].len;
    var endat := disp + length * extent;
    ghost var t, right, l: seq<Placed>, m: seq<G.Mark> := [], true, [], [];
    BuildingFirst(base, 1, extent, blocks);
    for i := 1 to |blocks|
      invariant Building(base, 1, extent, blocks, i, t, right, l, m, Block(length, disp))
      invariant Made(d, t, right) && Tracks(d, l, m) && (base.Valid() && right ==> d.Valid())
      invariant endat == disp + length * extent
    {
      BuildingFacts(base, 1, extent, blocks, i, t, right, l, m, Block(length, disp));
      BuildingNext(base, 1, extent, blocks, i, t, right, l, m, Block(length, disp));
      if endat == blocks[i].disp {
        Distribute(length, blocks[i].len, extent);
        length, endat := length + blocks[i].len, endat + blocks[i].len * extent;
      } else {
        AddTo(d, base, length, disp, extent, t, right, l, m);
        t, right := t + Iter(base.desc, disp, extent, length), right && !base.Stretches(length, extent);
        l, m := l + [Copies(base.Extent(), disp, extent, length)], m + G.Times(G.Marks(base.desc), length);
        disp, length := blocks[i].disp, blocks[i].len;
        endat := disp + length * extent;
      }
    }
    BuildingFacts(base, 1, extent, blocks, |blocks|, t, right, l, m, Block(length, disp));
    AddTo(d, base, length, disp, extent, t, right, l, m);
    BuildingEnd(d, base, 1, extent, blocks, t, right, l, m, Block(length, disp));
  }

  lemma {:induction false} NoBounds(d: Datatype, base: Datatype, unit: int, step: int)
    requires d.Extent() == NOTHING
    ensures BlockBounds(d, base, unit, step, [])
    ensures G.Times(G.Marks(base.desc), Total([])) == []
  {}

  lemma {:induction false} NoMarksYet(bm: seq<G.Mark>, n: nat)
    ensures [] + G.Times(bm, n) == G.Times(bm, n)
  {}

  /** The elements of one more block. */
  lemma {:induction false} MoreElements(bm: seq<G.Mark>, m: seq<G.Mark>, length: nat, total: nat, more: nat)
    requires m + G.Times(bm, length) == G.Times(bm, total)
    ensures m + G.Times(bm, length + more) == G.Times(bm, total + more)
    ensures m + G.Times(bm, length) + G.Times(bm, more) == G.Times(bm, total + more)
  {
    G.TimesSplit(bm, length, more);
    G.TimesSplit(bm, total, more);
  }

  lemma {:induction false} Distribute(a: nat, b: nat, e: int)
    ensures (a + b) * e == a * e + b * e
  {}

  lemma {:induction false} StartEmpty(d: Datatype)
    requires d.Valid() && d.kind.Derived? && d.desc == [] && Encloses(d.Extent(), [])
    ensures Made(d, [], true) && Tracks(d, [], [])
  {
    assert TM([], 0) == [];
    hide TM, WF;
  }

  lemma {:induction false} NoBlocks(base: Datatype, extent: int)
    ensures !Doubled(extent, []) && BlocksTM(base.desc, extent, []) == [] && Scaled([], extent) == []
  {}

  /** Displacements counted in extents, in bytes. */
  ghost function Scaled(blocks: seq<Block>, extent: int): (s: seq<Block>)
    ensures |s| == |blocks|
  {
    seq(|blocks|, i requires 0 <= i < |blocks| => Block(blocks[i].len, blocks[i].disp * extent))
  }

  /** `ompi_ddt_create_indexed`: displacements in extents of the old type. */
  method CreateIndexed(blocks: seq<Block>, base: Datatype) returns (d: Datatype)
    requires Usable(base) && AllAddressable(base, Span(base), Scaled(blocks, Span(base)))
    ensures fresh(d)
    ensures Made(d, BlocksTM(base.desc, Span(base), Scaled(blocks, Span(base))), base.Repeatable()
                 || !Doubled(1, blocks))
    ensures base.Valid() && (base.Repeatable() || !Doubled(1, blocks)) ==> d.Valid()
    ensures BlockBounds(d, base, Span(base), 1, blocks)
    ensures G.Marks(d.desc) == G.Times(G.Marks(base.desc), Total(blocks))
  {
    hide *;
    OwnSpan(base);
    if |blocks| == 0 {
      NoBlocks(base, Span(base));
      NoBlocks(base, 1);
      assert blocks == [];
      d := Empty();
      NoBounds(d, base, Span(base), 1);
      return;
    }
    d := new Datatype();
    StartEmpty(d);
    var extent := base.ub - base.lb;
    var disp, length: nat := blocks[0].disp, blocks[0].len;
    var endat := disp + length;
    ghost var t, right, l: seq<Placed>, m: seq<G.Mark> := [], true, [], [];
    BuildingFirst(base, extent, 1, blocks);
    for i := 1 to |blocks|
      invariant Building(base, extent, 1, blocks, i, t, right, l, m, Block(length, disp))
      invariant Made(d, t, right) && Tracks(d, l, m) && (base.Valid() && right ==> d.Valid())
      invariant endat == disp + length
    {
      BuildingFacts(base, extent, 1, blocks, i, t, right, l, m, Block(length, disp));
      BuildingNext(base, extent, 1, blocks, i, t, right, l, m, Block(length, disp));
      if endat == blocks[i].disp {
        length, endat := length + blocks[i].len, endat + blocks[i].len;
      } else {
        AddTo(d, base, length, disp * extent, extent, t, right, l, m);
        t, right := t + Iter(base.desc, disp * extent, extent, length), right && !base.Stretches(length, extent);
        l, m := l + [Copies(base.Extent(), disp * extent, extent, length)], m + G.Times(G.Marks(base.desc), length);
        disp, length := blocks[i].disp, blocks[i].len;
        endat := disp + length;
      }
    }
    BuildingFacts(base, extent, 1, blocks, |blocks|, t, right, l, m, Block(length, disp));
    AddTo(d, base, length, disp * extent, extent, t, right, l, m);
    BuildingEnd(d, base, extent, 1, blocks, t, right, l, m, Block(length, disp));
  }

  // ----- vectors -----

  /** Section 4.1.2: `count` blocks of `blockLength` elements, `stride` bytes apart. */
  ghost function VectorTM(c: seq<Rec>, base: int, extent: int, count: nat, blockLength: nat, stride: int): seq<int>
    decreases count
  {
    if count == 0 then []
    else Iter(c, base, extent, blockLength) + VectorTM(c, base + stride, extent, count - 1, blockLength, stride)
  }

  lemma {:induction false} VectorWhole(c: seq<Rec>, base: int, extent: int, count: nat, blockLength: nat)
    ensures count * blockLength >= 0
    ensures VectorTM(c, base, extent, count, blockLength, extent * blockLength)
              == Iter(c, base, extent, count * blockLength)
    decreases count
  {
    Sign(count, blockLength);
    if count > 0 {
      Sign(count - 1, blockLength);
      VectorWhole(c, base + extent * blockLength, extent, count - 1, blockLength);
      assert count * blockLength == blockLength + (count - 1) * blockLength;
      IterSplit(c, base, extent, blockLength, (count - 1) * blockLength);
      hide Iter;
    }
  }

  lemma {:induction false} VectorOne(c: seq<Rec>, base: int, extent: int, count: nat, stride: int)
    ensures VectorTM(c, base, extent, count, 1, stride) == Iter(c, base, stride, count)
    decreases count
  {
    if count > 0 {
      VectorOne(c, base + stride, extent, count - 1, stride);
      IterOnce(c, base, extent);
      hide TM;
    }
  }

  /** Copies of a block that was itself built as copies. */
  lemma {:induction false} VectorNested(block: seq<Rec>, c: seq<Rec>, base: int, extent: int, count: nat,
                                        blockLength: nat, stride: int)
    requires TM(block, 0) == Iter(c, 0, extent, blockLength)
    ensures Iter(block, base, stride, count) == VectorTM(c, base, extent, count, blockLength, stride)
    decreases count
  {
    if count > 0 {
      hide *;
      VectorNested(block, c, base + stride, extent, count - 1, blockLength, stride);
      VectorStep(block, c, base, extent, count, blockLength, stride);
      BlockAt(block, c, base, extent, blockLength);
    } else {
      VectorNone(block, c, base, extent, blockLength, stride);
    }
  }

  /** A block that is placed elsewhere. */
  lemma {:induction false} BlockAt(block: seq<Rec>, c: seq<Rec>, base: int, extent: int, n: nat)
    requires TM(block, 0) == Iter(c, 0, extent, n)
    ensures TM(block, base) == Iter(c, base, extent, n)
  {
    hide TM, Iter;
    TMShift(block, 0, base);
    IterShift(c, 0, extent, n, base);
  }

  lemma {:induction false} VectorStep(block: seq<Rec>, c: seq<Rec>, base: int, extent: int, count: nat,
                                      blockLength: nat, stride: int)
    requires count > 0
    ensures Iter(block, base, stride, count) == TM(block, base) + Iter(block, base + stride, stride, count - 1)
    ensures VectorTM(c, base, extent, count, blockLength, stride)
         == Iter(c, base, extent, blockLength) + VectorTM(c, base + stride, extent, count - 1, blockLength, stride)
  {
    hide TM;
  }

  lemma {:induction false} VectorNone(block: seq<Rec>, c: seq<Rec>, base: int, extent: int, blockLength: nat,
                                      stride: int)
    ensures Iter(block, base, stride, 0) == VectorTM(c, base, extent, 0, blockLength, stride)
  {}

  /** Copies at different distances differ. */
  lemma {:induction false} OtherStride(c: seq<Rec>, base: int, a: int, b: int, n: nat)
    requires n >= 2 && TM(c, 0) != [] && a != b
    ensures Iter(c, base, a, n) != Iter(c, base, b, n)
  {
    hide *;
    SecondBegins(c, base, a, n);
    SecondBegins(c, base, b, n);
  }

  /** Where the second copy begins. */
  lemma {:induction false} SecondBegins(c: seq<Rec>, base: int, a: int, n: nat)
    requires n >= 2 && TM(c, 0) != []
    ensures var k, t := |TM(c, 0)|, Iter(c, base, a, n); k < |t| && t[k] == TM(c, 0)[0] + (base + a)
  {
    TMShift(c, 0, base);
    TMShift(c, 0, base + a);
    hide TM;
    assert Iter(c, base, a, n) == TM(c, base) + Iter(c, base + a, a, n - 1);
    assert Iter(c, base + a, a, n - 1) == TM(c, base + a) + Iter(c, base + a + a, a, n - 2);
    hide Iter;
  }

  /** The extent of a block of `n` elements, as the library computes it for a new datatype. */
  function BlockSpan(base: Datatype, n: nat): int
    reads base
  {
    var e := Grown(Extents(LONG_MAX, LONG_MIN, false, false, 1), base.Extent(), 0, Span(base), n);
    e.ub - e.lb
  }

  /** The distance that a stride stands for when it is passed on as an extent. */
  function Distance(base: Datatype, blockLength: nat, stride: int): int
    reads base
  {
    if stride != -1 then stride else if blockLength == 1 then Span(base) else BlockSpan(base, blockLength)
  }

  /** A stride of one byte backwards is taken for a request of the default extent. */
  ghost predicate Misread(base: Datatype, count: nat, blockLength: nat, stride: int)
    reads base
  {
    count >= 2 && blockLength >= 1 && base.desc != [] && stride != Span(base) * blockLength
    && Distance(base, blockLength, stride) != stride
  }

  /** The blocks lie at addresses that exist. */
  ghost predicate VectorFits(base: Datatype, count: nat, blockLength: nat, stride: int)
    reads base
  {
    && |base.desc| + 2 < MAX_DT_COMPONENT_COUNT - 2
    && Datatype.Addressable(base, blockLength, 0, Span(base))
    && Datatype.Addressable(base, count, 0, Distance(base, blockLength, stride))
    && (count * blockLength >= 0 ==> Datatype.Addressable(base, count * blockLength, 0, Span(base)))
    && (base.desc != [] && count > 0 && blockLength > 0 ==>
          && LONG_MIN <= CopiesLb(CopiesLb(base.trueLb, 0, Span(base), blockLength), 0,
                                  Distance(base, blockLength, stride), count)
          && CopiesUb(CopiesUb(base.trueUb, 0, Span(base), blockLength), 0, Distance(base, blockLength, stride),
                      count) <= LONG_MAX)
  }

  lemma {:induction false} SpanGrows(a: Extents, n: nat)
    requires n >= 2 && a.ub - a.lb != 0
    ensures var g :=
              Grown(Extents(LONG_MAX, LONG_MIN, false, false, 1), a, 0, a.ub - a.lb, n); g.ub - g.lb > a.ub - a.lb
  {
    var e := a.ub - a.lb;
    if e > 0 { Factor(n - 1, e); } else { Factor(n - 1, -e); }
    AlignedUp(Min(LONG_MAX, CopiesLb(a.lb, 0, e, n)), Max(LONG_MIN, CopiesUb(a.ub, 0, e, n)), Max(1, a.align));
    AlignedUp(CopiesLb(a.lb, 0, e, n), Max(LONG_MIN, CopiesUb(a.ub, 0, e, n)), Max(1, a.align));
    hide Aligned;
  }

  /** If several copies of a repeatable datatype make one record, it is one of basic elements. */
  lemma {:induction false} OneRecord(base: Datatype, n: nat)
    requires Usable(base) && n >= 2 && base.desc != []
    ensures var o := Datatype.NewRecords(base, n, 0, Span(base));
            |o| <= |base.desc| + 2 && (|o| == 1 && o[0].Data? ==> o[0].extent == Span(base))
  {
    hide TM, Run, Bounds, O.Repeating;
    if base.kind.Predefined? {
      Datatype.BasicFields(base);
    } else {
      hide WF;
    }
  }

  /** A block of several elements of a repeatable datatype is itself repeatable. */
  lemma {:induction false} BlockRepeatable(d: Datatype, base: Datatype, n: nat)
    requires Usable(base) && n >= 2 && base.desc != [] && d.kind.Derived?
    requires d.desc == Datatype.NewRecords(base, n, 0, Span(base))
    requires d.Extent() == Grown(Extents(LONG_MAX, LONG_MIN, false, false, 1), base.Extent(), 0, Span(base), n)
    ensures d.Repeatable() && |d.desc| <= |base.desc| + 2
  {
    hide Usable, Datatype.NewRecords, Grown;
    OneRecord(base, n);
    if Span(base) != 0 { SpanGrows(base.Extent(), n); }
  }

  /** Elements of a datatype that is not repeatable follow each other, the extent apart. */
  predicate Doubles(base: Datatype, count: nat, blockLength: nat, stride: int)
    reads base
  {
    (blockLength >= 2 && count >= 1) || (blockLength == 1 && count >= 2 && stride == Span(base))
  }

  /** The typemap is that of the vector. */
  ghost predicate VectorRight(base: Datatype, count: nat, blockLength: nat, stride: int)
    reads base
  {
    !Misread(base, count, blockLength, stride) && (base.Repeatable() || !Doubles(base, count, blockLength, stride))
  }

  /** A datatype whose typemap is that of a vector, unless the stride was misread or a record was
      overstretched. */
  ghost predicate VectorBuilt(d: Datatype, base: Datatype, count: nat, blockLength: nat, stride: int)
    reads d, base
  {
    && Made(d, VectorTM(base.desc, 0, Span(base), count, blockLength, stride),
            VectorRight(base, count, blockLength, stride))
    && (base.Valid() && (base.Repeatable() || VectorRight(base, count, blockLength, stride)) ==> d.Valid())
  }

  /** How far apart the blocks of a vector are placed. */
  function Apart(base: Datatype, blockLength: nat, stride: int): int
    reads base
  {
    if stride == Span(base) * blockLength then stride else Distance(base, blockLength, stride)
  }

  /** The bounds of a vector are those of its blocks, and its elements are theirs; an empty block counts as one
      element.  The lower bound of a block has to be an address. */
  ghost predicate VectorLaid(d: Datatype, base: Datatype, count: nat, blockLength: nat, stride: int)
    reads d, base
  {
    && count * blockLength >= 0 && G.Marks(d.desc) == G.Times(G.Marks(base.desc), count * blockLength)
    && (count == 0 ==> d.Extent() == NOTHING)
    && (count > 0 && (base.userLb || CopiesLb(base.lb, 0, Span(base), blockLength) <= LONG_MAX) ==>
          Encloses(d.Extent(),
                   BlocksPlaced(base.Extent(), Span(base), count, blockLength, Apart(base, blockLength, stride))))
  }

  /** The elements follow each other: one add of all of them. */
  method Contiguous(count: nat, blockLength: nat, stride: int, base: Datatype) returns (d: Datatype)
    requires Usable(base) && VectorFits(base, count, blockLength, stride)
    requires count >= 1 && (count == 1 || stride == Span(base) * blockLength)
    ensures fresh(d) && VectorBuilt(d, base, count, blockLength, stride)
    ensures VectorLaid(d, base, count, blockLength, stride)
  {
    hide *;
    ContiguousFacts(count, blockLength, stride, base);
    d := new Datatype();
    StartEmpty(d);
    AddTo(d, base, count * blockLength, 0, base.ub - base.lb, [], true, [], []);
    ContiguousLaid(d, base, count, blockLength, stride);
    StretchesIf(base, count * blockLength);
    ContiguousRight(count, blockLength, stride, base);
    MadeVector(d, base, count, blockLength, stride);
  }

  /** All elements in one add have the bounds of the blocks. */
  lemma {:induction false} ContiguousLaid(d: Datatype, base: Datatype, count: nat, blockLength: nat, stride: int)
    requires count >= 1 && (count == 1 || stride == Span(base) * blockLength) && count * blockLength >= 0
    requires Tracks(d, [] + [Copies(base.Extent(), 0, Span(base), count * blockLength)],
                    [] + G.Times(G.Marks(base.desc), count * blockLength))
    ensures VectorLaid(d, base, count, blockLength, stride)
  {
    hide Encloses, SameBounds, G.Marks, G.Times, CopiesLb, BlocksPlaced, Distance;
    G.NoMarks();
    var e, l := base.Extent(), [Copies(base.Extent(), 0, Span(base), count * blockLength)];
    var k := BlocksPlaced(e, Span(base), count, blockLength, Apart(base, blockLength, stride));
    assert [] + l == l;
    if count == 1 {
      BlocksStep(e, Span(base), 1, blockLength, Apart(base, blockLength, stride));
    } else {
      FlatBlocks(e, Span(base), count, blockLength);
      SameEncloses(d.Extent(), l, k);
    }
  }

  lemma {:induction false} ContiguousFacts(count: nat, blockLength: nat, stride: int, base: Datatype)
    requires VectorFits(base, count, blockLength, stride) && count >= 1
    requires count == 1 || stride == Span(base) * blockLength
    ensures count * blockLength >= 0 && Span(base) == base.ub - base.lb
    ensures Datatype.RealExtent(base.Extent(), base.ub - base.lb) == Span(base)
    ensures Datatype.Addressable(base, count * blockLength, 0, Span(base))
    ensures [] + Iter(base.desc, 0, Span(base), count * blockLength)
              == VectorTM(base.desc, 0, Span(base), count, blockLength, stride)
  {
    Sign(count, blockLength);
    NothingBefore(Iter(base.desc, 0, Span(base), count * blockLength));
    if count == 1 {
      VectorOnce(base.desc, 0, Span(base), blockLength, stride);
    } else {
      VectorWhole(base.desc, 0, Span(base), count, blockLength);
    }
    hide Iter, VectorTM, Datatype.Addressable;
  }

  lemma {:induction false} ContiguousRight(count: nat, blockLength: nat, stride: int, base: Datatype)
    requires count >= 1 && (count == 1 || stride == Span(base) * blockLength)
    ensures count * blockLength >= 0
    ensures VectorRight(base, count, blockLength, stride) <==> base.Repeatable() || !(count * blockLength >= 2)
  {
    Sign(count, blockLength);
    if blockLength >= 2 { Factor(count, blockLength); }
    hide Datatype.Repeatable, Distance;
  }

  /** If the typemap is right, or the old datatype is repeatable, the new one is valid. */
  lemma {:induction false} MadeVector(d: Datatype, base: Datatype, count: nat, blockLength: nat, stride: int)
    requires Made(d, VectorTM(base.desc, 0, Span(base), count, blockLength, stride),
                  VectorRight(base, count, blockLength, stride))
    requires base.Valid() && (base.Repeatable() || VectorRight(base, count, blockLength, stride)) ==> d.Valid()
    ensures VectorBuilt(d, base, count, blockLength, stride)
  {
    hide TM, VectorTM, VectorRight;
  }

  lemma {:induction false} VectorOnce(c: seq<Rec>, base: int, extent: int, n: nat, stride: int)
    ensures VectorTM(c, base, extent, 1, n, stride) == Iter(c, base, extent, n)
  {
    hide Iter;
    assert VectorTM(c, base, extent, 1, n, stride) == Iter(c, base, extent, n)
              + VectorTM(c, base + stride, extent, 0, n, stride);
  }

  /** Blocks of one element: one add with the stride as extent. */
  method Spread(count: nat, stride: int, base: Datatype) returns (d: Datatype)
    requires Usable(base) && VectorFits(base, count, 1, stride) && count >= 2
    requires stride != Span(base) || Distance(base, 1, stride) == stride
    ensures fresh(d) && VectorBuilt(d, base, count, 1, stride) && VectorLaid(d, base, count, 1, stride)
  {
    hide *;
    SpreadFits(base, count, stride);
    d := new Datatype();
    StartEmpty(d);
    ghost var e := Distance(base, 1, stride);
    AddTo(d, base, count, 0, stride, [], true, [], []);
    SpreadLaid(d, base, count, stride);
    NothingBefore(Iter(base.desc, 0, e, count));
    NewDesc(d, base, count, e);
    SpreadRight(d, base, count, stride);
  }

  lemma {:induction false} SpreadLaid(d: Datatype, base: Datatype, count: nat, stride: int)
    requires count >= 1 && (stride != Span(base) || Distance(base, 1, stride) == stride)
    requires Tracks(d, [] + [Copies(base.Extent(), 0, Distance(base, 1, stride), count)],
                    [] + G.Times(G.Marks(base.desc), count))
    ensures VectorLaid(d, base, count, 1, stride)
  {
    hide Encloses, SameBounds, G.Marks, G.Times, CopiesLb, BlocksPlaced, Distance;
    G.NoMarks();
    assert count * 1 == count && Apart(base, 1, stride) == Distance(base, 1, stride);
    var l := [Copies(base.Extent(), 0, Distance(base, 1, stride), count)];
    assert [] + l == l;
    SingleBlocks(base.Extent(), Span(base), count, Distance(base, 1, stride));
    SameEncloses(d.Extent(), l, BlocksPlaced(base.Extent(), Span(base), count, 1, Apart(base, 1, stride)));
  }

  lemma {:induction false} NothingBefore(t: seq<int>)
    ensures [] + t == t
  {}

  lemma {:induction false} SpreadFits(base: Datatype, count: nat, stride: int)
    requires VectorFits(base, count, 1, stride)
    ensures Datatype.RealExtent(base.Extent(), stride) == Distance(base, 1, stride)
    ensures Datatype.Addressable(base, count, 0, Distance(base, 1, stride))
  {
    hide Datatype.Addressable, Grown;
  }

  /** The description of a datatype made by one add. */
  lemma {:induction false} NewDesc(d: Datatype, base: Datatype, count: nat, e: int)
    requires base.desc != [] && count > 0 ==> d.desc == [] + Datatype.NewRecords(base, count, 0, e)
    ensures base.desc != [] && count > 0 ==> d.desc == Datatype.NewRecords(base, count, 0, e)
  {
    hide Datatype.NewRecords;
  }

  /** Copies at the distance that the stride stands for are the vector unless it is misread. */
  lemma {:induction false} SpreadRight(d: Datatype, base: Datatype, count: nat, stride: int)
    requires Usable(base) && count >= 2 && (stride != Span(base) || Distance(base, 1, stride) == stride)
    requires var e := Distance(base, 1, stride); Made(d, Iter(base.desc, 0, e, count), !base.Stretches(count, e))
    requires base.Valid() && !base.Stretches(count, Distance(base, 1, stride)) ==> d.Valid()
    requires base.desc != [] ==> d.desc == Datatype.NewRecords(base, count, 0, Distance(base, 1, stride))
    ensures VectorBuilt(d, base, count, 1, stride)
  {
    var e := Distance(base, 1, stride);
    VectorOne(base.desc, 0, Span(base), count, stride);
    StrideMatters(base, 0, stride, e, count);
    IterLength(base.desc, 0, e, count);
    IterLength(base.desc, 0, stride, count);
    if base.Stretches(count, e) && e != stride { StretchedMisread(d, base, count, stride); }
    hide Datatype.Valid, Datatype.Sound, Iter, VectorTM, TM, Datatype.NewRecords;
  }

  /** A stride of -1 is misread, and the record is overstretched as well. */
  lemma {:induction false} StretchedMisread(d: Datatype, base: Datatype, count: nat, stride: int)
    requires Usable(base) && count >= 2 && base.desc != [] && base.Stretches(count, Distance(base, 1, stride))
    requires Distance(base, 1, stride) != stride
    requires d.desc == Datatype.NewRecords(base, count, 0, Distance(base, 1, stride))
    ensures TM(d.desc, 0) != Iter(base.desc, 0, stride, count)
  {
    var e, r := Distance(base, 1, stride), base.desc[0];
    assert stride == -1 && base.desc == [r] && d.desc == [Repeated(r, count, 0)] && r.typ.size >= 1 && r.count >= 2
           && r.extent == e != 0;
    hide TM, Iter, Described, Grown;
    var size, k := r.typ.size, r.count;
    Products(k, count);
    OneRec(Repeated(r, count, 0), 0);
    ElemsSplit(size, k, k * (count - 1), r.disp, e);
    ElemsLength(size, k, r.disp, e);
    BlockStart(size, k * (count - 1), r.disp + k * e, e);
    NextCopy(r, count, stride);
    assert TM(d.desc, 0)[k * size] == r.disp + k * e;
    NotMinusOne(k, e);
  }

  /** Where the second copy of a record starts. */
  lemma {:induction false} NextCopy(r: Rec, n: nat, stride: int)
    requires r.Data? && r.typ.size >= 1 && r.count >= 1 && n >= 2
    ensures var u := Iter([r], 0, stride, n);
            0 <= r.count * r.typ.size < |u| && u[r.count * r.typ.size] == stride + r.disp
  {
    OneRec(r, 0);
    OneRec(r, stride);
    hide TM, Elems;
    ElemsLength(r.typ.size, r.count, r.disp, r.extent);
    BlockStart(r.typ.size, r.count, stride + r.disp, r.extent);
    assert Iter([r], 0, stride, n) == TM([r], 0) + Iter([r], stride, stride, n - 1);
    assert Iter([r], stride, stride, n - 1) == TM([r], stride) + Iter([r], stride + stride, stride, n - 2);
  }

  lemma {:induction false} NotMinusOne(k: nat, e: int)
    requires k >= 2
    ensures k * e != -1
  {}

  lemma {:induction false} StrideMatters(d: Datatype, base: int, a: int, b: int, n: nat)
    requires d.Sound() && n >= 2
    ensures Iter(d.desc, base, a, n) == Iter(d.desc, base, b, n) <==> a == b || d.desc == []
  {
    if d.desc == [] {
      IterLength(d.desc, base, a, n);
      IterLength(d.desc, base, b, n);
    } else if a != b {
      TMNonEmpty(d.desc, 0);
      hide TM, WF, Iter;
      OtherStride(d.desc, base, a, b, n);
    }
  }

  /** One block of several elements, which is then repeated. */
  method MakeBlock(blockLength: nat, base: Datatype) returns (block: Datatype)
    requires Usable(base) && blockLength != 1 && |base.desc| + 2 < MAX_DT_COMPONENT_COUNT - 2
    requires Datatype.Addressable(base, blockLength, 0, Span(base))
    ensures fresh(block) && block.kind.Derived? && block.Repeatable() && |block.desc| < MAX_DT_COMPONENT_COUNT - 2
    ensures Made(block, Iter(base.desc, 0, Span(base), blockLength), base.Repeatable() || blockLength == 0)
    ensures base.Valid() && (base.Repeatable() || blockLength == 0) ==> block.Valid()
    ensures Tracks(block, [Copies(base.Extent(), 0, Span(base), blockLength)],
                   G.Times(G.Marks(base.desc), blockLength))
    ensures block.desc == [] <==> base.desc == [] || blockLength == 0
    ensures block.Extent()
              == Grown(Extents(LONG_MAX, LONG_MIN, false, false, 1), base.Extent(), 0, Span(base), blockLength)
    ensures block.desc != [] ==>
              && block.trueLb == CopiesLb(base.trueLb, 0, Span(base), blockLength)
              && block.trueUb == CopiesUb(base.trueUb, 0, Span(base), blockLength)
  {
    OwnSpan(base);
    hide *;
    block := new Datatype();
    StartEmpty(block);
    NothingBefore(Iter(base.desc, 0, Span(base), blockLength));
    AddTo(block, base, blockLength, 0, base.ub - base.lb, [], true, [], []);
    OnlyPlaced(Copies(base.Extent(), 0, Span(base), blockLength), G.Times(G.Marks(base.desc), blockLength));
    StretchesIf(base, blockLength);
    MadeFacts(block, [] + Iter(base.desc, 0, Span(base), blockLength), !base.Stretches(blockLength, Span(base)));
    BlockUsable(block, base, blockLength);
  }

  lemma {:induction false} OnlyPlaced(p: Placed, m: seq<G.Mark>)
    ensures [] + [p] == [p] && [] + m == m
  {}

  lemma {:induction false} OwnSpan(base: Datatype)
    ensures Span(base) == base.ub - base.lb && Datatype.RealExtent(base.Extent(), Span(base)) == Span(base)
    ensures forall r: seq<Rec> :: [] + r == r
  {}

  lemma {:induction false} BlockUsable(block: Datatype, base: Datatype, n: nat)
    requires Usable(base) && n != 1 && |base.desc| + 2 < MAX_DT_COMPONENT_COUNT - 2
    requires Datatype.Addressable(base, n, 0, Span(base))
    requires block.Sound() && block.kind.Derived?
    requires block.Extent() == Grown(Extents(LONG_MAX, LONG_MIN, false, false, 1), base.Extent(), 0, Span(base), n)
    requires n > 0 && base.desc != [] ==>
               && block.desc == Datatype.NewRecords(base, n, 0, Span(base))
               && block.trueLb == Min(CopiesLb(base.trueLb, 0, Span(base), n), LONG_MAX)
               && block.trueUb == Max(CopiesUb(base.trueUb, 0, Span(base), n), LONG_MIN)
    requires n == 0 || base.desc == [] ==> block.desc == []
    ensures block.Repeatable() && |block.desc| < MAX_DT_COMPONENT_COUNT - 2
    ensures block.desc == [] <==> base.desc == [] || n == 0
    ensures block.desc != [] ==>
              && block.trueLb == CopiesLb(base.trueLb, 0, Span(base), n)
              && block.trueUb == CopiesUb(base.trueUb, 0, Span(base), n)
  {
    if n > 0 && base.desc != [] {
      Datatype.BoundsOrder(base, n, 0, Span(base));
      BlockRepeatable(block, base, n);
      hide Datatype.NewRecords, TM, WF, Bounds, Run, O.Repeating, CopiesLb, CopiesUb, Described, Structured, Grown;
      Datatype.NewRecordsTM(base, n, 0, Span(base));
    }
  }

  /** The true bounds of a datatype made of copies. */
  lemma {:induction false} NewBounds(d: Datatype, base: Datatype, n: nat, disp: int, extent: int)
    requires d.Valid() && base.Valid() && base.desc != [] && n >= 1 && TM(d.desc, 0) == Iter(base.desc, disp, extent, n)
    ensures d.desc != []
    ensures d.trueLb == CopiesLb(base.trueLb, disp, extent, n) && d.trueUb == CopiesUb(base.trueUb, disp, extent, n)
  {
    assert TM([], 0) == [];
    hide WF, TM, Iter, Run, O.Repeating, Bounds, Described, CopiesLb, CopiesUb;
    Emptiness(base.desc, base.size, base.nbElems, base.trueLb, base.trueUb, base.contiguous);
    Emptiness(d.desc, d.size, d.nbElems, d.trueLb, d.trueUb, d.contiguous);
    CopiesBounds(base.desc, base.trueLb, base.trueUb, disp, extent, n);
    BoundsSome(Iter(base.desc, disp, extent, n), CopiesLb(base.trueLb, disp, extent, n),
               CopiesUb(base.trueUb, disp, extent, n));
    BoundsUnique(TM(d.desc, 0), CopiesLb(base.trueLb, disp, extent, n), CopiesUb(base.trueUb, disp, extent, n),
                 d.trueLb, d.trueUb);
  }

  lemma {:induction false} CopiesBounds(c: seq<Rec>, lo: int, hi: int, disp: int, extent: int, n: nat)
    requires Bounds(TM(c, 0), lo, hi) && n >= 1
    ensures Bounds(Iter(c, disp, extent, n), CopiesLb(lo, disp, extent, n), CopiesUb(hi, disp, extent, n))
  {
    hide Bounds, TM, Iter;
    BoundsIter(c, lo, hi, disp, extent, n);
  }

  lemma {:induction false} BoundsSome(t: seq<int>, lo: int, hi: int)
    requires Bounds(t, lo, hi)
    ensures t != []
  {}

  /** Blocks of several elements, the stride apart. */
  method RepeatBlock(count: nat, blockLength: nat, stride: int, base: Datatype) returns (d: Datatype)
    requires Usable(base) && VectorFits(base, count, blockLength, stride)
    requires count >= 2 && blockLength != 1
    requires stride != Span(base) * blockLength || Distance(base, blockLength, stride) == stride
    ensures fresh(d) && VectorBuilt(d, base, count, blockLength, stride)
    ensures VectorLaid(d, base, count, blockLength, stride)
  {
    hide *;
    BlockFits(base, count, blockLength, stride);
    var block := MakeBlock(blockLength, base);
    MadeFacts(block, Iter(base.desc, 0, Span(base), blockLength), base.Repeatable() || blockLength == 0);
    BlockDistance(block, base, count, blockLength, stride);
    var e := Datatype.RealExtent(block.Extent(), stride);
    d := new Datatype();
    StartEmpty(d);
    MadeFacts(d, [], true);
    MoreMade(block, d.desc, [], true, count, 0, e);
    NothingBefore(Iter(block.desc, 0, e, count));
    block.RepeatableKeeps(count, e);
    TracksFacts(block, [Copies(base.Extent(), 0, Span(base), blockLength)],
                G.Times(G.Marks(base.desc), blockLength));
    TracksFacts(d, [], []);
    PlacedCopies(block, count, 0, stride);
    OnlyPlaced(Copies(block.Extent(), 0, e, count), G.Times(G.Marks(block.desc), count));
    var ok := d.Add(block, count, 0, stride);
    BlocksLaid(d, block.Extent(), base, count, blockLength, stride, G.Marks(block.desc));
    MadeOnce(d, Iter(block.desc, 0, e, count), count * block.size);
    VectorOfBlocks(block, base, count, blockLength, stride, e);
    BlocksVector(d, block, base, count, blockLength, stride, e);
  }

  /** Copies of the block have the bounds of the blocks. */
  lemma {:induction false} BlocksLaid(d: Datatype, b: Extents, base: Datatype, count: nat, blockLength: nat,
                                      stride: int, m: seq<G.Mark>)
    requires count >= 1 && (stride != Span(base) * blockLength || Distance(base, blockLength, stride) == stride)
    requires Encloses(b, [Copies(base.Extent(), 0, Span(base), blockLength)])
    requires Encloses(d.Extent(), [Copies(b, 0, Distance(base, blockLength, stride), count)])
    requires m == G.Times(G.Marks(base.desc), blockLength) && G.Marks(d.desc) == G.Times(m, count)
    ensures VectorLaid(d, base, count, blockLength, stride)
  {
    hide Encloses, G.Marks, G.Times, CopiesLb, BlocksPlaced, Distance;
    G.TimesTimes(G.Marks(base.desc), blockLength, count);
    assert blockLength * count == count * blockLength;
    if base.userLb || CopiesLb(base.lb, 0, Span(base), blockLength) <= LONG_MAX {
      NestedBlocks(b, d.Extent(), base.Extent(), Span(base), count, blockLength, Distance(base, blockLength, stride));
    }
  }

  lemma {:induction false} BlockFits(base: Datatype, count: nat, blockLength: nat, stride: int)
    requires VectorFits(base, count, blockLength, stride)
    ensures |base.desc| + 2 < MAX_DT_COMPONENT_COUNT - 2 && Datatype.Addressable(base, blockLength, 0, Span(base))
  {
    hide Datatype.Addressable, Grown, CopiesLb, CopiesUb;
  }

  /** The distance at which a block is repeated, and that the copies lie at addresses that exist. */
  lemma {:induction false} BlockDistance(block: Datatype, base: Datatype, count: nat, blockLength: nat, stride: int)
    requires VectorFits(base, count, blockLength, stride) && count >= 2 && blockLength != 1 && block.kind.Derived?
    requires |block.desc| < MAX_DT_COMPONENT_COUNT - 2
    requires block.desc == [] <==> base.desc == [] || blockLength == 0
    requires block.Extent()
               == Grown(Extents(LONG_MAX, LONG_MIN, false, false, 1), base.Extent(), 0, Span(base), blockLength)
    requires block.desc != [] ==>
               && block.trueLb == CopiesLb(base.trueLb, 0, Span(base), blockLength)
               && block.trueUb == CopiesUb(base.trueUb, 0, Span(base), blockLength)
    ensures var e := Datatype.RealExtent(block.Extent(), stride);
            e == Distance(base, blockLength, stride) && Datatype.Addressable(block, count, 0, e)
    ensures !Datatype.TooMany(block.kind, |block.desc|, count) && !block.kind.LbMarker? && !block.kind.UbMarker?
  {
    hide Grown, CopiesLb, CopiesUb, Datatype.Valid;
  }

  lemma {:induction false} MadeOnce(d: Datatype, t: seq<int>, bytes: int)
    requires d.Sound() && d.kind.Derived? && TM(d.desc, 0) == t && |t| == bytes && d.size == bytes
    ensures |TM(d.desc, 0)| == |t| && TM(d.desc, 0) == t
  {}

  /** Copies of a block are the vector exactly if the block is right and the stride is not misread. */
  lemma {:induction false} VectorOfBlocks(block: Datatype, base: Datatype, count: nat, blockLength: nat, stride: int,
                                          e: int)
    requires block.Sound() && count >= 2 && |TM(block.desc, 0)| == |Iter(base.desc, 0, Span(base), blockLength)|
    ensures var t := VectorTM(base.desc, 0, Span(base), count, blockLength, stride);
            && |Iter(block.desc, 0, e, count)| == |t|
            && (Iter(block.desc, 0, e, count) == t
                <==> TM(block.desc, 0) == Iter(base.desc, 0, Span(base), blockLength)
                     && (e == stride || block.desc == []))
  {
    hide TM, Iter, WF, Described, Structured;
    StrideMatters(block, 0, stride, e, count);
    IterLength(block.desc, 0, e, count);
    VectorLength(base.desc, 0, Span(base), count, blockLength, stride, block.desc);
    if TM(block.desc, 0) == Iter(base.desc, 0, Span(base), blockLength) {
      VectorNested(block.desc, base.desc, 0, Span(base), count, blockLength, stride);
    } else {
      FirstBlock(block.desc, base.desc, Span(base), count, blockLength, stride, e);
    }
  }

  lemma {:induction false} VectorLength(c: seq<Rec>, base: int, extent: int, count: nat, blockLength: nat, stride: int,
                                        block: seq<Rec>)
    requires |TM(block, 0)| == |Iter(c, 0, extent, blockLength)|
    ensures |VectorTM(c, base, extent, count, blockLength, stride)| == count * |TM(block, 0)|
    decreases count
  {
    hide TM, Iter;
    if count > 0 {
      VectorLength(c, base + stride, extent, count - 1, blockLength, stride, block);
      IterLength(c, base, extent, blockLength);
      IterLength(c, 0, extent, blockLength);
      assert count * |TM(block, 0)| == |TM(block, 0)| + (count - 1) * |TM(block, 0)|;
    }
  }

  lemma {:induction false} FirstBlock(block: seq<Rec>, c: seq<Rec>, extent: int, count: nat, blockLength: nat,
                                      stride: int, e: int)
    requires count > 0 && |TM(block, 0)| == |Iter(c, 0, extent, blockLength)|
    requires TM(block, 0) != Iter(c, 0, extent, blockLength)
    ensures Iter(block, 0, e, count) != VectorTM(c, 0, extent, count, blockLength, stride)
  {
    hide TM;
    var a, b := Iter(block, 0, e, count), VectorTM(c, 0, extent, count, blockLength, stride);
    var n := |TM(block, 0)|;
    assert a == TM(block, 0) + Iter(block, e, e, count - 1);
    assert b == Iter(c, 0, extent, blockLength) + VectorTM(c, stride, extent, count - 1, blockLength, stride);
    hide Iter, VectorTM;
    assert a[..n] == TM(block, 0) && b[..n] == Iter(c, 0, extent, blockLength);
  }

  lemma {:induction false} BlocksVector(d: Datatype, block: Datatype, base: Datatype, count: nat, blockLength: nat,
                                        stride: int, e: int)
    requires count >= 2 && blockLength != 1
    requires stride != Span(base) * blockLength || Distance(base, blockLength, stride) == stride
    requires block.desc == [] <==> base.desc == [] || blockLength == 0
    requires block.desc != [] ==> e == Distance(base, blockLength, stride)
    requires TM(block.desc, 0) == Iter(base.desc, 0, Span(base), blockLength) <==> base.Repeatable() || blockLength == 0
    requires base.Valid() && (base.Repeatable() || blockLength == 0) ==> d.Valid()
    requires d.Sound() && d.kind.Derived? && TM(d.desc, 0) == Iter(block.desc, 0, e, count)
    requires var t := VectorTM(base.desc, 0, Span(base), count, blockLength, stride);
             && |Iter(block.desc, 0, e, count)| == |t|
             && (Iter(block.desc, 0, e, count) == t
                 <==> TM(block.desc, 0) == Iter(base.desc, 0, Span(base), blockLength)
                      && (e == stride || block.desc == []))
    ensures VectorBuilt(d, base, count, blockLength, stride)
  {
    hide TM, Iter, VectorTM, Datatype.Valid, Datatype.Sound;
  }

  /** `ompi_ddt_create_hvector`: the stride is in bytes. */
  method CreateHvector(count: nat, blockLength: nat, stride: int, base: Datatype) returns (d: Datatype)
    requires Usable(base) && VectorFits(base, count, blockLength, stride)
    ensures fresh(d) && VectorBuilt(d, base, count, blockLength, stride)
    ensures VectorLaid(d, base, count, blockLength, stride)
  {
    hide Usable, VectorFits, TM, Made, Grown, Datatype.Valid, Datatype.Repeatable, VectorLaid, VectorBuilt, G.Marks;
    var extent := base.ub - base.lb;
    if count == 0 {
      d := Empty();
      NoVector(d, base, blockLength, stride);
    } else if extent * blockLength == stride || 1 >= count {
      d := Contiguous(count, blockLength, stride, base);
    } else if blockLength == 1 {
      d := Spread(count, stride, base);
    } else {
      d := RepeatBlock(count, blockLength, stride, base);
    }
  }

  /** `ompi_ddt_create_vector`: the stride is in extents of the old type. */
  method CreateVector(count: nat, blockLength: nat, stride: int, base: Datatype) returns (d: Datatype)
    requires Usable(base) && VectorFits(base, count, blockLength, Span(base) * stride)
    ensures fresh(d) && VectorBuilt(d, base, count, blockLength, Span(base) * stride)
    ensures VectorLaid(d, base, count, blockLength, Span(base) * stride)
  {
    hide Usable, VectorFits, TM, Made, Grown, Datatype.Valid, Datatype.Repeatable, VectorLaid, VectorBuilt, G.Marks;
    var extent := base.ub - base.lb;
    if count == 0 {
      d := Empty();
      NoVector(d, base, blockLength, extent * stride);
    } else if blockLength == stride || 1 >= count {
      d := Contiguous(count, blockLength, extent * stride, base);
    } else {
      SameProduct(extent, blockLength, stride);
      if blockLength == 1 {
        d := Spread(count, extent * stride, base);
      } else {
        d := RepeatBlock(count, blockLength, extent * stride, base);
      }
    }
  }

  lemma {:induction false} NoVector(d: Datatype, base: Datatype, blockLength: nat, stride: int)
    requires Made(d, [], true) && d.Valid() && d.Extent() == NOTHING && G.Marks(d.desc) == []
    ensures VectorBuilt(d, base, 0, blockLength, stride) && VectorLaid(d, base, 0, blockLength, stride)
  {
    hide TM, WF, Datatype.Valid, Datatype.Sound;
  }

  lemma {:induction false} SameProduct(e: int, a: int, b: int)
    requires a != b
    ensures e * a == e * b ==> e == 0 && e * a == 0
  {
    assert e * (a - b) == e * a - e * b;
  }

  // ----- structs -----

  /** A datatype that a struct may list: one to build on, a bound marker or the null datatype. */
  ghost predicate Listed(d: Datatype)
    reads d
  {
    Usable(d) || (d.Sound() && (d.kind.LbMarker? || d.kind.UbMarker? || d.kind.NullType?))
  }

  /** Adding an entry of a struct; the markers and the null datatype add no data. */
  method AddEntry(d: Datatype, base: Datatype, count: nat, disp: int, extent: int, ghost t: seq<int>, ghost right: bool,
                  ghost l: seq<Placed>, ghost m: seq<G.Mark>)
    requires Made(d, t, right) && Tracks(d, l, m) && Listed(base) && d != base && extent == Span(base)
    requires Datatype.Addressable(base, count, disp, extent)
    modifies d
    ensures Made(d, t + Iter(base.desc, disp, extent, count), right && (base.Repeatable() || count < 2))
    ensures Tracks(d, l + [PiecePlaced(PieceOf(Entry(count, disp, base)))], m + G.Times(G.Marks(base.desc), count))
    ensures base.kind.LbMarker? ==> d.userLb && d.lb == if old(d.userLb) then Min(old(d.lb), disp) else disp
    ensures base.kind.UbMarker? ==> d.userUb && d.ub == if old(d.userUb) then Max(old(d.ub), disp) else disp
    ensures old(d.Valid()) && base.Valid() && (base.Repeatable() || count < 2) ==> d.Valid()
  {
    hide *;
    StretchesIf(base, count);
    EntryPlaced(base, count, disp, extent);
    if base.kind.Predefined? || base.kind.Derived? {
      RealSpan(base);
      AddTo(d, base, count, disp, extent, t, right, l, m);
    } else {
      NoEntryData(base, count, disp, extent);
      MadeFacts(d, t, right);
      TracksFacts(d, l, m);
      MoreMade(base, d.desc, t, right, count, disp, extent);
      Datatype.Unstretched(base, count, Datatype.RealExtent(base.Extent(), extent));
      ghost var was := d.desc;
      var ok := d.Add(base, count, disp, extent);
      SameData(d, was, t, right);
      MadeOf(d, t + Iter(base.desc, disp, extent, count), right);
      NoElements(base, count, m);
      TracksOf(d, l + [PiecePlaced(PieceOf(Entry(count, disp, base)))], m + G.Times(G.Marks(base.desc), count));
    }
  }

  lemma {:induction false} EntryPlaced(base: Datatype, count: nat, disp: int, extent: int)
    requires extent == Span(base)
    ensures Datatype.PlacedAs(base, count, disp, extent) == PiecePlaced(PieceOf(Entry(count, disp, base)))
    ensures base.kind.Predefined? || base.kind.Derived? ==>
              PiecePlaced(PieceOf(Entry(count, disp, base)))
              == Copies(base.Extent(), disp, Datatype.RealExtent(base.Extent(), extent), count)
  {
    hide Datatype.Repeatable;
  }

  lemma {:induction false} NoElements(base: Datatype, count: nat, m: seq<G.Mark>)
    requires base.desc == []
    ensures m + G.Times(G.Marks(base.desc), count) == m
  {
    G.NoMarks();
    G.TimesLength([], count);
  }

  lemma {:induction false} NoEntryData(base: Datatype, count: nat, disp: int, extent: int)
    requires Listed(base) && !base.kind.Predefined? && !base.kind.Derived?
    ensures base.Sound() && base.desc == [] && base.size == 0 && base.Repeatable()
    ensures Datatype.Addressable(base, count, disp, Datatype.RealExtent(base.Extent(), extent))
    ensures !Datatype.TooMany(base.kind, |base.desc|, count)
  {
    assert TM([], 0) == [];
    hide TM, WF;
  }

  lemma {:induction false} SameData(d: Datatype, was: seq<Rec>, t: seq<int>, right: bool)
    requires d.desc == was && d.Sound() && |TM(was, 0)| == |t| && (TM(was, 0) == t <==> right)
    ensures d.size == |t| && (TM(d.desc, 0) == t <==> right)
  {
    hide TM, WF;
  }

  lemma {:induction false} RealSpan(base: Datatype)
    requires Listed(base) && (base.kind.Predefined? || base.kind.Derived?)
    ensures Usable(base) && Datatype.RealExtent(base.Extent(), Span(base)) == Span(base)
    ensures !base.kind.LbMarker? && !base.kind.UbMarker?
  {
    hide Datatype.Valid;
  }

  /** Some elements of one datatype at a displacement. */
  datatype Entry = Entry(len: nat, disp: int, typ: Datatype)

  ghost function Types(entries: seq<Entry>): set<Datatype> {
    set i | 0 <= i < |entries| :: entries[i].typ
  }

  /** An entry with the description and the bounds of its datatype, and whether that is repeatable. */
  datatype Piece = Piece(typ: Datatype, kind: Kind, bounds: Extents, code: seq<Rec>, extent: int, repeatable: bool,
                         len: nat, disp: int)

  ghost function PieceOf(e: Entry): Piece
    reads e.typ
  {
    Piece(e.typ, e.typ.kind, e.typ.Extent(), e.typ.desc, Span(e.typ), e.typ.Repeatable(), e.len, e.disp)
  }

  ghost function Pieces(entries: seq<Entry>): seq<Piece>
    reads Types(entries)
  {
    seq(|entries|, i requires 0 <= i < |entries| reads Types(entries) =>
      assert entries[i].typ in Types(entries);
      PieceOf(entries[i]))
  }

  /** Entries of the same datatype that follow each other are merged; this is the last run of them. */
  ghost function LastPiece(pieces: seq<Piece>): Piece
    requires pieces != []
  {
    var b := pieces[|pieces| - 1];
    if |pieces| == 1 then b
    else
      var p := LastPiece(pieces[..|pieces| - 1]);
      if p.typ == b.typ && p.disp + p.extent * p.len == b.disp then p.(len := p.len + b.len) else b
  }

  /** Some run has several elements of a datatype that is not repeatable. */
  ghost predicate PieceDoubled(pieces: seq<Piece>) {
    pieces != []
    && ((LastPiece(pieces).len >= 2 && !LastPiece(pieces).repeatable) || PieceDoubled(pieces[..|pieces| - 1]))
  }

  lemma {:induction false} PieceNext(pieces: seq<Piece>, i: nat)
    requires i < |pieces|
    ensures var p := LastPiece(pieces[..i + 1]); PieceDoubled(pieces[..i + 1]) <==>
              (p.len >= 2 && !p.repeatable) || PieceDoubled(pieces[..i])
    ensures i == 0 ==> LastPiece(pieces[..i + 1]) == pieces[0] && !PieceDoubled(pieces[..i])
    ensures i > 0 ==>
              var p := LastPiece(pieces[..i]);
              LastPiece(pieces[..i + 1])
              == if p.typ == pieces[i].typ
              && p.disp + p.extent * p.len == pieces[i].disp then p.(len := p.len + pieces[i].len) else pieces[i]
  {
    assert pieces[..i + 1][..i] == pieces[..i];
  }

  /** What is placed for an entry. */
  ghost function PiecePlaced(p: Piece): Placed {
    match p.kind
    case LbMarker => LowerMark(p.disp)
    case UbMarker => UpperMark(p.disp)
    case _ => Copies(p.bounds, p.disp, p.extent, p.len)
  }

  ghost function PiecesPlaced(ps: seq<Piece>): (l: seq<Placed>)
    ensures |l| == |ps| && forall i :: 0 <= i < |ps| ==> l[i] == PiecePlaced(ps[i])
  {
    seq(|ps|, i requires 0 <= i < |ps| => PiecePlaced(ps[i]))
  }

  /** The runs that the entries are merged into. */
  ghost function PieceRuns(ps: seq<Piece>): (r: seq<Piece>)
    requires ps != []
    ensures r != [] && r[|r| - 1] == LastPiece(ps)
  {
    var b := ps[|ps| - 1];
    if |ps| == 1 then [b]
    else
      var r := PieceRuns(ps[..|ps| - 1]);
      var p := r[|r| - 1];
      if p.typ == b.typ && p.disp + p.extent * p.len == b.disp then r[..|r| - 1] + [p.(len := p.len + b.len)]
      else r + [b]
  }

  /** The elements of all entries. */
  ghost function Elements(ps: seq<Piece>): seq<G.Mark> {
    if ps == [] then []
    else Elements(ps[..|ps| - 1]) + G.Times(G.Marks(ps[|ps| - 1].code), ps[|ps| - 1].len)
  }

  lemma {:induction false} FirstRun(ps: seq<Piece>)
    requires ps != []
    ensures [] + [PiecePlaced(ps[0])] == PiecesPlaced(PieceRuns(ps[..1]))
    ensures [] + G.Times(G.Marks(ps[0].code), ps[0].len) == Elements(ps[..1])
  {
    hide G.Marks, G.Times, PiecePlaced;
    assert ps[..1] == [ps[0]] && ps[..1][..0] == [];
    assert Elements(ps[..1]) == Elements([]) + G.Times(G.Marks(ps[0].code), ps[0].len);
  }

  lemma {:induction false} PiecesAppend(ps: seq<Piece>, b: Piece)
    ensures PiecesPlaced(ps + [b]) == PiecesPlaced(ps) + [PiecePlaced(b)]
  {
    hide PiecePlaced;
    assert PiecesPlaced(ps + [b])[|ps|] == PiecePlaced(b);
    assert forall i :: 0 <= i < |ps| ==> (ps + [b])[i] == ps[i];
  }

  /** One more entry continues the last run or begins a new one. */
  lemma {:induction false} RunsPlacedNext(ps: seq<Piece>, i: nat, l: seq<Placed>, p: Piece)
    requires 0 < i < |ps| && p == LastPiece(ps[..i])
    requires l + [PiecePlaced(p)] == PiecesPlaced(PieceRuns(ps[..i]))
    ensures var b := ps[i];
            PiecesPlaced(PieceRuns(ps[..i + 1]))
            == if p.typ == b.typ && p.disp + p.extent * p.len == b.disp then l + [PiecePlaced(p.(len := p.len + b.len))]
               else l + [PiecePlaced(p)] + [PiecePlaced(b)]
  {
    hide *;
    assert ps[..i + 1] == ps[..i] + [ps[i]];
    var front := RunsStep(ps[..i], ps[i], p);
    PiecesTwo(front, p, ps[i]);
    SamePrefix(l, PiecesPlaced(front), PiecePlaced(p));
    PiecesAppend(front, p.(len := p.len + ps[i].len));
  }

  lemma {:induction false} PiecesTwo(front: seq<Piece>, p: Piece, b: Piece)
    ensures PiecesPlaced(front + [p]) == PiecesPlaced(front) + [PiecePlaced(p)]
    ensures PiecesPlaced(front + ([p] + [b])) == PiecesPlaced(front) + [PiecePlaced(p)] + [PiecePlaced(b)]
  {
    hide PiecesPlaced, PiecePlaced;
    PiecesAppend(front, p);
    PiecesAppend(front + [p], b);
    assert front + ([p] + [b]) == front + [p] + [b];
  }

  /** All runs but the last one are settled. */
  lemma {:induction false} RunsStep(before: seq<Piece>, b: Piece, p: Piece) returns (front: seq<Piece>)
    requires before != [] && p == LastPiece(before)
    ensures PieceRuns(before) == front + [p]
    ensures PieceRuns(before + [b])
         == front + if p.typ == b.typ && p.disp + p.extent * p.len == b.disp then [p.(len := p.len + b.len)]
                    else [p] + [b]
  {
    hide *;
    var r := PieceRuns(before);
    RunsOfMore(before, b);
    front := FrontOf(r, b);
  }

  lemma {:induction false} RunsOfMore(before: seq<Piece>, b: Piece)
    requires before != []
    ensures var r := PieceRuns(before);
            var p := r[|r| - 1];
            && p == LastPiece(before)
            && PieceRuns(before + [b])
               == if p.typ == b.typ && p.disp + p.extent * p.len == b.disp
                  then r[..|r| - 1] + [p.(len := p.len + b.len)] else r + [b]
  {
    var ps := before + [b];
    assert ps[..|ps| - 1] == before && ps[|ps| - 1] == b;
    hide LastPiece;
  }

  lemma {:induction false} FrontOf(r: seq<Piece>, b: Piece) returns (front: seq<Piece>)
    requires r != []
    ensures front == r[..|r| - 1] && r == front + [r[|r| - 1]] && r + [b] == front + ([r[|r| - 1]] + [b])
  {
    front := r[..|r| - 1];
  }

  lemma {:induction false} ElementsNext(ps: seq<Piece>, i: nat, m: seq<G.Mark>, p: Piece)
    requires i < |ps| && m + G.Times(G.Marks(p.code), p.len) == Elements(ps[..i])
    ensures p.code == ps[i].code ==> m + G.Times(G.Marks(p.code), p.len + ps[i].len) == Elements(ps[..i + 1])
    ensures m + G.Times(G.Marks(p.code), p.len) + G.Times(G.Marks(ps[i].code), ps[i].len) == Elements(ps[..i + 1])
  {
    assert ps[..i + 1][..i] == ps[..i] && ps[..i + 1][i] == ps[i];
    hide G.Marks, G.Times;
    G.TimesSplit(G.Marks(p.code), p.len, ps[i].len);
  }

  /** Section 4.1.2: the typemap of a struct is that of its entries one after the other. */
  ghost function StructTM(pieces: seq<Piece>): seq<int> {
    if pieces == [] then []
    else
      var p := pieces[|pieces| - 1];
      StructTM(pieces[..|pieces| - 1]) + Iter(p.code, p.disp, p.extent, p.len)
  }

  ghost predicate EntriesOK(entries: seq<Entry>)
    reads Types(entries)
  {
    forall i :: 0 <= i < |entries| ==>
      assert entries[i].typ in Types(entries);
      Listed(entries[i].typ)
      && Datatype.Addressable(entries[i].typ, entries[i].len, entries[i].disp, Span(entries[i].typ))
  }

  /** All datatypes of the entries denote what was added to them. */
  ghost predicate AllValid(entries: seq<Entry>)
    reads Types(entries)
  {
    forall t :: t in Types(entries) ==> t.Valid()
  }

  lemma {:induction false} StructNext(pieces: seq<Piece>, i: nat)
    requires i < |pieces|
    ensures StructTM(pieces[..i + 1]) == StructTM(pieces[..i])
               + Iter(pieces[i].code, pieces[i].disp, pieces[i].extent, pieces[i].len)
  {
    assert pieces[..i + 1][..i] == pieces[..i];
    hide Iter;
  }

  lemma {:induction false} EntryOK(entries: seq<Entry>, i: nat)
    requires EntriesOK(entries) && i < |entries|
    ensures Listed(entries[i].typ)
    ensures Datatype.Addressable(entries[i].typ, entries[i].len, entries[i].disp, Span(entries[i].typ))
    ensures entries[i].typ in Types(entries)
    ensures |Pieces(entries)| == |entries|
    ensures Pieces(entries)[i] == PieceOf(entries[i])
  {}

  lemma {:induction false} PartValid(entries: seq<Entry>, t: Datatype)
    requires t in Types(entries)
    ensures AllValid(entries) ==> t.Valid()
  {}

  // ----- the bounds of a struct -----

  /** An entry says the same about its datatype wherever that is listed. */
  ghost predicate Coherent(ps: seq<Piece>) {
    forall i, j :: 0 <= i < |ps| && 0 <= j < |ps| && ps[i].typ == ps[j].typ ==>
      && ps[i].extent == ps[j].extent && ps[i].repeatable == ps[j].repeatable
      && ps[i].kind == ps[j].kind && ps[i].bounds == ps[j].bounds && ps[i].code == ps[j].code
  }

  /** A marker takes no room, wherever it is listed. */
  ghost predicate FlatMarkers(ps: seq<Piece>) {
    forall i :: 0 <= i < |ps| && !PiecePlaced(ps[i]).Copies? ==> ps[i].extent == 0
  }

  lemma {:induction false} PiecesCoherent(entries: seq<Entry>)
    requires EntriesOK(entries)
    ensures Coherent(Pieces(entries)) && FlatMarkers(Pieces(entries)) && |Pieces(entries)| == |entries|
  {
    hide Datatype.Repeatable, Structured, Described;
    forall i | 0 <= i < |entries| && !PiecePlaced(Pieces(entries)[i]).Copies? ensures Pieces(entries)[i].extent == 0 {
      EntryOK(entries, i);
    }
  }

  /** A marker of this side stands at `v`. */
  ghost predicate Marked(ps: seq<Piece>, s: Side, v: int) {
    exists i :: 0 <= i < |ps| && PiecePlaced(ps[i]) == if s.Lower? then LowerMark(v) else UpperMark(v)
  }

  /** The outermost marker of this side stands at `v`. */
  ghost predicate Outer(ps: seq<Piece>, s: Side, v: int) {
    Marked(ps, s, v) && forall w :: Marked(ps, s, w) ==> Beyond(s, v, w)
  }

  /** Only markers set this bound for the user. */
  ghost predicate OnlyMarkers(ps: seq<Piece>, s: Side) {
    forall i :: 0 <= i < |ps| && UserSets(PiecePlaced(ps[i]), s) ==> !PiecePlaced(ps[i]).Copies?
  }

  /** Some entry sets this bound for the user: a marker, or a datatype whose bound was set. */
  ghost predicate SomeSets(ps: seq<Piece>, s: Side) {
    exists i :: 0 <= i < |ps| && UserSets(PiecePlaced(ps[i]), s)
  }

  /** The bounds of a struct with these entries.  They are those of the runs, in which an empty one counts as one
      element, and those of the entries if none is empty.  If only markers set a bound, it is that of
      the outermost marker. */
  ghost predicate StructBounds(e: Extents, ps: seq<Piece>) {
    if ps == [] then e == NOTHING
    else
      && Encloses(e, PiecesPlaced(PieceRuns(ps)))
      && (NoneEmpty(ps) ==> Encloses(e, PiecesPlaced(ps)))
      && (e.userLb <==> SomeSets(ps, Lower)) && (e.userUb <==> SomeSets(ps, Upper))
      && (e.userLb && OnlyMarkers(ps, Lower) ==> Outer(ps, Lower, e.lb))
      && (e.userUb && OnlyMarkers(ps, Upper) ==> Outer(ps, Upper, e.ub))
  }

  /** If no entry is empty, the bounds are those of the entries, merged or not. */
  lemma {:induction false} RunsEnclose(ps: seq<Piece>)
    requires ps != [] && Coherent(ps) && FlatMarkers(ps) && NoneEmpty(ps)
    ensures SameBounds(PiecesPlaced(PieceRuns(ps)), PiecesPlaced(ps))
    ensures LastPiece(ps).len >= 1 || !PiecePlaced(LastPiece(ps)).Copies?
    decreases |ps|
  {
    hide *;
    var n := |ps| - 1;
    assert ps[..n + 1] == ps == ps[..n] + [ps[n]];
    PieceNext(ps, n);
    PiecesAppend(ps[..n], ps[n]);
    if n == 0 {
      assert ps[..0] == [] && ps[..1] == ps;
      FirstRunIs(ps);
      FirstNotEmpty(ps);
      SameReflexive(PiecesPlaced(ps));
    } else {
      BeforeLast(ps, n);
      RunsEnclose(ps[..n]);
      NotEmpty(ps, n);
      Follows(ps, n);
      RunEncloses(ps[..n], ps[n], LastPiece(ps[..n]));
      StillNotEmpty(ps, n);
    }
  }

  /** No entry is empty, unless it is a marker. */
  ghost predicate NoneEmpty(ps: seq<Piece>) {
    forall i :: 0 <= i < |ps| ==> ps[i].len >= 1 || !PiecePlaced(ps[i]).Copies?
  }

  lemma {:induction false} FirstNotEmpty(ps: seq<Piece>)
    requires ps != [] && NoneEmpty(ps)
    ensures ps[0].len >= 1 || !PiecePlaced(ps[0]).Copies?
  {
    hide PiecePlaced;
  }

  lemma {:induction false} BeforeLast(ps: seq<Piece>, n: nat)
    requires 0 < n < |ps| && Coherent(ps) && FlatMarkers(ps)
    ensures Coherent(ps[..n]) && FlatMarkers(ps[..n]) && |ps[..n]| == n
    ensures NoneEmpty(ps) ==> NoneEmpty(ps[..n])
  {
    hide PiecePlaced;
  }

  lemma {:induction false} StillNotEmpty(ps: seq<Piece>, n: nat)
    requires 0 < n < |ps| && Coherent(ps) && NoneEmpty(ps)
    requires LastPiece(ps[..n]).len >= 1 || !PiecePlaced(LastPiece(ps[..n])).Copies?
    ensures var p := LastPiece(ps[..n + 1]); p.len >= 1 || !PiecePlaced(p).Copies?
  {
    PieceNext(ps, n);
    hide LastPiece;
  }

  /** What the last run of the entries before says of the next entry. */
  lemma {:induction false} Follows(ps: seq<Piece>, n: nat)
    requires 0 < n < |ps| && Coherent(ps) && FlatMarkers(ps)
    ensures var p, b := LastPiece(ps[..n]), ps[n];
            p.typ == b.typ ==> p == b.(len := p.len, disp := p.disp)
    ensures !PiecePlaced(ps[n]).Copies? ==> ps[n].extent == 0
  {
    BeforeLast(ps, n);
    LastOf(ps[..n]);
    assert ps[..n][n - 1] == ps[n - 1];
    hide LastPiece, PiecePlaced;
  }

  lemma {:induction false} RunEncloses(before: seq<Piece>, b: Piece, p: Piece)
    requires before != [] && p == LastPiece(before)
    requires p.typ == b.typ ==> p == b.(len := p.len, disp := p.disp)
    requires !PiecePlaced(b).Copies? ==> b.extent == 0
    requires p.len >= 1 || !PiecePlaced(p).Copies?
    requires b.len >= 1 || !PiecePlaced(b).Copies?
    requires SameBounds(PiecesPlaced(PieceRuns(before)), PiecesPlaced(before))
    ensures SameBounds(PiecesPlaced(PieceRuns(before + [b])), PiecesPlaced(before) + [PiecePlaced(b)])
  {
    hide *;
    var front := RunsStep(before, b, p);
    PiecesTwo(front, p, b);
    PieceSame(PiecesPlaced(front), PiecesPlaced(before), p, b);
    if p.typ == b.typ && p.disp + p.extent * p.len == b.disp {
      PiecesAppend(front, p.(len := p.len + b.len));
    }
  }

  lemma {:induction false} NotEmpty(ps: seq<Piece>, n: nat)
    requires n < |ps| && NoneEmpty(ps)
    ensures ps[n].len >= 1 || !PiecePlaced(ps[n]).Copies?
  {
    hide PiecePlaced;
  }

  lemma {:induction false} PieceSame(l: seq<Placed>, k: seq<Placed>, p: Piece, b: Piece)
    requires p.typ == b.typ ==> p == b.(len := p.len, disp := p.disp)
    requires !PiecePlaced(b).Copies? ==> b.extent == 0
    requires p.len >= 1 || !PiecePlaced(p).Copies?
    requires b.len >= 1 || !PiecePlaced(b).Copies?
    requires SameBounds(l + [PiecePlaced(p)], k)
    ensures SameBounds(l + [PiecePlaced(p)] + [PiecePlaced(b)], k + [PiecePlaced(b)])
    ensures p.typ == b.typ && p.disp + p.extent * p.len == b.disp ==>
              SameBounds(l + [PiecePlaced(p.(len := p.len + b.len))], k + [PiecePlaced(b)])
  {
    hide *;
    SameNext(l + [PiecePlaced(p)], k, PiecePlaced(b));
    if p.typ == b.typ && p.disp + p.extent * p.len == b.disp {
      SameKindPlaced(p, b);
      PiecesMerged(l, p, b);
      SameTrans(l + [PiecePlaced(p.(len := p.len + b.len))], l + [PiecePlaced(p)] + [PiecePlaced(b)],
                k + [PiecePlaced(b)]);
    }
  }

  lemma {:induction false} SameKindPlaced(p: Piece, b: Piece)
    requires p == b.(len := p.len, disp := p.disp)
    ensures PiecePlaced(p).Copies? == PiecePlaced(b).Copies?
  {}

  /** The last run is one of the datatype of the last entry. */
  lemma {:induction false} LastOf(ps: seq<Piece>)
    requires ps != [] && Coherent(ps)
    ensures var p, b := LastPiece(ps), ps[|ps| - 1];
            p == b.(len := p.len, disp := p.disp)
    decreases |ps|
  {
    var n := |ps| - 1;
    if n > 0 {
      LastOf(ps[..n]);
      Whole(ps);
      PieceNext(ps, n);
      assert ps[..n][n - 1] == ps[n - 1];
      hide LastPiece;
    }
  }

  lemma {:induction false} PiecesMerged(l: seq<Placed>, p: Piece, b: Piece)
    requires p.kind == b.kind && p.bounds == b.bounds && p.extent == b.extent
    requires p.disp + p.extent * p.len == b.disp
    requires PiecePlaced(p).Copies? ==> p.len >= 1 && b.len >= 1
    requires !PiecePlaced(p).Copies? ==> p.extent == 0
    ensures SameBounds(l + [PiecePlaced(p.(len := p.len + b.len))], l + [PiecePlaced(p)] + [PiecePlaced(b)])
  {
    hide SameBounds;
    if PiecePlaced(p).Copies? {
      assert p.extent * p.len == p.len * p.extent;
      CopiesMerged(l, p.bounds, p.disp, p.extent, p.len, b.len, b.disp);
    } else {
      assert p.extent * p.len == 0;
      MarksMerged(l, PiecePlaced(p));
    }
  }

  /** What the runs say of the user's bounds is what the entries say. */
  lemma {:induction false} RunsUser(ps: seq<Piece>, s: Side)
    requires ps != [] && Coherent(ps) && FlatMarkers(ps)
    ensures SomeSets(PieceRuns(ps), s) <==> SomeSets(ps, s)
    ensures OnlyMarkers(PieceRuns(ps), s) <==> OnlyMarkers(ps, s)
    ensures forall v :: Marked(PieceRuns(ps), s, v) <==> Marked(ps, s, v)
    decreases |ps|
  {
    var n := |ps| - 1;
    hide PieceRuns, SomeSets, OnlyMarkers, Marked, UserSets;
    Whole(ps);
    if n == 0 {
      FirstRunIs(ps);
    } else {
      var before, b := ps[..n], ps[n];
      RunsUser(before, s);
      LastOf(before);
      var p := LastPiece(before);
      assert ps == before + [b];
      var front := RunsStep(before, b, p);
      PiecesUser(before, b, s);
      PiecesUser(front, p, s);
      if p.typ == b.typ && p.disp + p.extent * p.len == b.disp {
        assert before[n - 1] == ps[n - 1];
        PiecesUser(front, p.(len := p.len + b.len), s);
        SamePlace(p, b);
      } else {
        assert front + ([p] + [b]) == front + [p] + [b];
        PiecesUser(front + [p], b, s);
      }
    }
  }

  lemma {:induction false} FirstRunIs(ps: seq<Piece>)
    requires |ps| == 1
    ensures PieceRuns(ps) == ps
  {}

  /** A merged run is placed like its parts as far as the user's bounds are concerned. */
  lemma {:induction false} SamePlace(p: Piece, b: Piece)
    requires p == b.(len := p.len, disp := p.disp) && p.disp + p.extent * p.len == b.disp
    requires !PiecePlaced(b).Copies? ==> b.extent == 0
    ensures var q := p.(len := p.len + b.len);
            && PiecePlaced(p).Copies? == PiecePlaced(b).Copies? == PiecePlaced(q).Copies?
            && (!PiecePlaced(p).Copies? ==> PiecePlaced(p) == PiecePlaced(b) == PiecePlaced(q))
    ensures forall s :: var q := p.(len := p.len + b.len);
                        UserSets(PiecePlaced(p), s) == UserSets(PiecePlaced(b), s) == UserSets(PiecePlaced(q), s)
  {
    if !PiecePlaced(b).Copies? { assert p.extent * p.len == 0; }
  }

  lemma {:induction false} PiecesUser(ps: seq<Piece>, b: Piece, s: Side)
    ensures SomeSets(ps + [b], s) <==> SomeSets(ps, s) || UserSets(PiecePlaced(b), s)
    ensures OnlyMarkers(ps + [b], s)
            <==> OnlyMarkers(ps, s) && (UserSets(PiecePlaced(b), s) ==> !PiecePlaced(b).Copies?)
    ensures forall v :: Marked(ps + [b], s, v)
                        <==> Marked(ps, s, v) || PiecePlaced(b) == if s.Lower? then LowerMark(v) else UpperMark(v)
  {
    hide PiecePlaced, UserSets;
    var m := ps + [b];
    assert m[|ps|] == b && forall i :: 0 <= i < |ps| ==> m[i] == ps[i];
    forall v
      ensures Marked(m, s, v)
              <==> Marked(ps, s, v) || PiecePlaced(b) == if s.Lower? then LowerMark(v) else UpperMark(v)
    {
      if Marked(ps, s, v) {
        var i :| 0 <= i < |ps| && PiecePlaced(ps[i]) == if s.Lower? then LowerMark(v) else UpperMark(v);
        assert m[i] == ps[i];
      }
    }
    if SomeSets(ps, s) {
      var i :| 0 <= i < |ps| && UserSets(PiecePlaced(ps[i]), s);
      assert m[i] == ps[i];
    }
    if OnlyMarkers(m, s) {
      forall i | 0 <= i < |ps| && UserSets(PiecePlaced(ps[i]), s) ensures !PiecePlaced(ps[i]).Copies? {
        assert m[i] == ps[i];
      }
    }
  }

  lemma {:induction false} SetsPlaced(ps: seq<Piece>, s: Side)
    ensures SomeUser(PiecesPlaced(ps), s) <==> SomeSets(ps, s)
  {
    hide PiecePlaced, UserSets;
    if SomeSets(ps, s) {
      var i :| 0 <= i < |ps| && UserSets(PiecePlaced(ps[i]), s);
      assert PiecesPlaced(ps)[i] == PiecePlaced(ps[i]);
    }
  }

  /** If only markers set a bound, it is that of the outermost one. */
  lemma {:induction false} MarkerBound(ps: seq<Piece>, s: Side, v: int)
    requires Outermost(PiecesPlaced(ps), s, v) && SomeSets(ps, s) && OnlyMarkers(ps, s)
    ensures Outer(ps, s, v)
  {
    SetsPlaced(ps, s);
    var l := PiecesPlaced(ps);
    var i :| 0 <= i < |l| && UserSets(l[i], s) && Bound(l[i], s, v);
    assert l[i] == PiecePlaced(ps[i]);
    hide PiecePlaced;
    forall w | Marked(ps, s, w) ensures Beyond(s, v, w) {
      var j :| 0 <= j < |ps| && PiecePlaced(ps[j]) == if s.Lower? then LowerMark(w) else UpperMark(w);
      assert l[j] == PiecePlaced(ps[j]) && UserSets(l[j], s) && Bound(l[j], s, w);
    }
  }

  lemma {:induction false} StructEnclosed(e: Extents, ps: seq<Piece>)
    requires ps != [] && Coherent(ps) && FlatMarkers(ps) && Encloses(e, PiecesPlaced(PieceRuns(ps)))
    ensures StructBounds(e, ps)
  {
    hide PiecePlaced, PiecesPlaced, PieceRuns, Outermost, SomeUser, SomeSets, OnlyMarkers, Marked, Aligns, Clears,
         SameBounds, Coherent, FlatMarkers;
    var r := PieceRuns(ps);
    RunsUser(ps, Lower);
    RunsUser(ps, Upper);
    SetsPlaced(r, Lower);
    SetsPlaced(r, Upper);
    if e.userLb && OnlyMarkers(ps, Lower) { MarkerBound(r, Lower, e.lb); }
    if e.userUb && OnlyMarkers(ps, Upper) { MarkerBound(r, Upper, e.ub); }
    if NoneEmpty(ps) {
      RunsEnclose(ps);
      hide Encloses;
      SameEncloses(e, PiecesPlaced(r), PiecesPlaced(ps));
    }
  }

  // ----- building a struct -----

  /** A struct on the way: all runs of the first `i` entries are built, except `last`.  The typemap up to there
      is `t`, right or not. */
  ghost predicate Listing(entries: seq<Entry>, i: nat, t: seq<int>, right: bool, l: seq<Placed>, m: seq<G.Mark>,
                          last: Entry)
    requires 0 < i <= |entries|
    reads Types(entries)
  {
    && EntriesOK(entries) && |Pieces(entries)| == |entries| && last.typ in Types(entries)
    && Listed(last.typ) && Datatype.Addressable(last.typ, last.len, last.disp, Span(last.typ))
    && var ps, p := Pieces(entries)[..i], PieceOf(last);
    && LastPiece(ps) == p && p.code == last.typ.desc
    && t + Iter(last.typ.desc, last.disp, Span(last.typ), last.len) == StructTM(ps)
    && (right && (last.typ.Repeatable() || last.len < 2) <==> !PieceDoubled(ps))
    && l + [PiecePlaced(p)] == PiecesPlaced(PieceRuns(ps))
    && m + G.Times(G.Marks(last.typ.desc), last.len) == Elements(ps)
  }

  lemma {:induction false} ListingFirst(entries: seq<Entry>)
    requires EntriesOK(entries) && entries != []
    ensures Listing(entries, 1, [], true, [], [], entries[0])
  {
    EmptyStruct();
    EntryOK(entries, 0);
    hide Listed, Datatype.Addressable, Iter, EntriesOK, StructTM, Pieces, LastPiece, PieceDoubled, Datatype.Repeatable,
         PieceRuns, PiecesPlaced, PiecePlaced, Elements, G.Marks, G.Times, StructBounds;
    var ps := Pieces(entries);
    StructNext(ps, 0);
    PieceNext(ps, 0);
    FirstRun(ps);
    assert ps[..0] == [];
  }

  /** What an add of the last run needs. */
  lemma {:induction false} ListingFacts(entries: seq<Entry>, i: nat, t: seq<int>, right: bool, l: seq<Placed>,
                                        m: seq<G.Mark>, last: Entry)
    requires 0 < i <= |entries| && Listing(entries, i, t, right, l, m, last)
    ensures EntriesOK(entries) && last.typ in Types(entries) && Listed(last.typ)
    ensures Datatype.Addressable(last.typ, last.len, last.disp, Span(last.typ))
    ensures Span(last.typ) == last.typ.ub - last.typ.lb
    ensures PieceOf(last) == PieceOf(Entry(last.len, last.disp, last.typ))
    ensures i < |entries| ==> entries[i].typ in Types(entries)
  {
    hide Listed, Datatype.Addressable, Iter, EntriesOK, StructTM, Pieces, LastPiece, PieceDoubled, Datatype.Repeatable,
         PieceRuns, PiecesPlaced, PiecePlaced, Elements, G.Marks, G.Times;
  }

  /** The next entry continues the last run. */
  lemma {:induction false} ListingMerged(entries: seq<Entry>, i: nat, t: seq<int>, right: bool, l: seq<Placed>,
                                         m: seq<G.Mark>, last: Entry)
    requires 0 < i < |entries| && Listing(entries, i, t, right, l, m, last)
    requires entries[i].typ == last.typ && entries[i].disp == last.disp + Span(last.typ) * last.len
    ensures Listing(entries, i + 1, t, right, l, m, Entry(last.len + entries[i].len, last.disp, last.typ))
  {
    hide *;
    var b, e, typ := entries[i], Span(last.typ), last.typ;
    var ps, p, q := Pieces(entries), PieceOf(last), PieceOf(Entry(last.len + b.len, last.disp, typ));
    ListingIs(entries, i, t, right, l, m, last);
    EntryOK(entries, i);
    ListingIs(entries, i + 1, t, right, l, m, Entry(last.len + b.len, last.disp, typ));
    MergedPiece(last, b);
    PieceJoined(ps, i, l, m, p);
    JoinedTM(typ, last.disp, e, last.len, b.disp, b.len, t);
  }

  /** The last run grows by the entry `i`. */
  lemma {:induction false} PieceJoined(ps: seq<Piece>, i: nat, l: seq<Placed>, m: seq<G.Mark>, p: Piece)
    requires 0 < i < |ps| && LastPiece(ps[..i]) == p && p.typ == ps[i].typ && p.code == ps[i].code
    requires p.disp + p.extent * p.len == ps[i].disp
    requires l + [PiecePlaced(p)] == PiecesPlaced(PieceRuns(ps[..i]))
    requires m + G.Times(G.Marks(p.code), p.len) == Elements(ps[..i])
    ensures var q := p.(len := p.len + ps[i].len);
            && LastPiece(ps[..i + 1]) == q && l + [PiecePlaced(q)] == PiecesPlaced(PieceRuns(ps[..i + 1]))
            && m + G.Times(G.Marks(p.code), p.len + ps[i].len) == Elements(ps[..i + 1])
            && (PieceDoubled(ps[..i + 1]) <==> (q.len >= 2 && !q.repeatable) || PieceDoubled(ps[..i]))
    ensures PieceDoubled(ps[..i]) ==> PieceDoubled(ps[..i + 1])
    ensures StructTM(ps[..i + 1]) == StructTM(ps[..i]) + Iter(ps[i].code, ps[i].disp, ps[i].extent, ps[i].len)
    ensures p.len >= 2 && !p.repeatable ==> PieceDoubled(ps[..i])
  {
    PieceNext(ps, i);
    assert p.len >= 2 && !p.repeatable ==> PieceDoubled(ps[..i]);
    hide *;
    StructNext(ps, i);
    RunsPlacedNext(ps, i, l, p);
    ElementsNext(ps, i, m, p);
  }

  lemma {:induction false} JoinedTM(typ: Datatype, disp: int, e: int, m: nat, next: int, n: nat, t: seq<int>)
    requires next == disp + e * m
    requires Datatype.Addressable(typ, m, disp, e) && Datatype.Addressable(typ, n, next, e)
    ensures t + Iter(typ.desc, disp, e, m + n) == t + Iter(typ.desc, disp, e, m) + Iter(typ.desc, next, e, n)
    ensures Datatype.Addressable(typ, m + n, disp, e)
  {
    hide *;
    assert e * m == m * e;
    BlocksMerge(typ.desc, e, t, disp, m, next, n);
    MergeAddressable(typ, disp, e, m, next, n);
  }

  lemma {:induction false} MergedPiece(last: Entry, b: Entry)
    requires b.typ == last.typ
    ensures var p, q, r := PieceOf(last), PieceOf(b), PieceOf(Entry(last.len + b.len, last.disp, last.typ));
            && p.typ == q.typ && q.disp == b.disp && q.len == b.len && q.code == p.code == last.typ.desc
            && p.disp == last.disp && p.len == last.len && p.extent == q.extent == Span(last.typ)
            && r == p.(len := p.len + q.len) && r.repeatable == p.repeatable == last.typ.Repeatable()
            && Span(last.typ) * last.len == last.len * Span(last.typ)
  {
    hide Datatype.Repeatable;
  }

  lemma {:induction false} ListingIs(entries: seq<Entry>, i: nat, t: seq<int>, right: bool, l: seq<Placed>,
                                     m: seq<G.Mark>, last: Entry)
    requires 0 < i <= |entries|
    ensures Listing(entries, i, t, right, l, m, last) <==>
              && EntriesOK(entries) && |Pieces(entries)| == |entries| && last.typ in Types(entries)
              && Listed(last.typ) && Datatype.Addressable(last.typ, last.len, last.disp, Span(last.typ))
              && var ps, p := Pieces(entries)[..i], PieceOf(last);
              && LastPiece(ps) == p && p.code == last.typ.desc
              && t + Iter(last.typ.desc, last.disp, Span(last.typ), last.len) == StructTM(ps)
              && (right && (last.typ.Repeatable() || last.len < 2) <==> !PieceDoubled(ps))
              && l + [PiecePlaced(p)] == PiecesPlaced(PieceRuns(ps))
              && m + G.Times(G.Marks(last.typ.desc), last.len) == Elements(ps)
  {
    hide Listed, Datatype.Addressable, Iter, EntriesOK, StructTM, Pieces, LastPiece, PieceDoubled, Datatype.Repeatable,
         PieceRuns, PiecesPlaced, PiecePlaced, Elements, G.Marks, G.Times;
  }

  /** The last run is built, and the next entry begins a new one. */
  lemma {:induction false} ListingNew(entries: seq<Entry>, i: nat, t: seq<int>, right: bool, l: seq<Placed>,
                                      m: seq<G.Mark>, last: Entry)
    requires 0 < i < |entries| && Listing(entries, i, t, right, l, m, last)
    requires entries[i].typ != last.typ || entries[i].disp != last.disp + Span(last.typ) * last.len
    ensures Listing(entries, i + 1, t + Iter(last.typ.desc, last.disp, Span(last.typ), last.len),
                    right && (last.typ.Repeatable() || last.len < 2), l + [PiecePlaced(PieceOf(last))],
                    m + G.Times(G.Marks(last.typ.desc), last.len), entries[i])
  {
    hide *;
    var b, e, typ := entries[i], Span(last.typ), last.typ;
    var ps, p := Pieces(entries), PieceOf(last);
    ListingIs(entries, i, t, right, l, m, last);
    EntryOK(entries, i);
    ListingIs(entries, i + 1, t + Iter(typ.desc, last.disp, e, last.len), right && (typ.Repeatable() || last.len < 2),
              l + [PiecePlaced(p)], m + G.Times(G.Marks(typ.desc), last.len), b);
    PieceFields(last);
    PieceFields(b);
    StructNext(ps, i);
    PieceNext(ps, i);
    RunsPlacedNext(ps, i, l, p);
    ElementsNext(ps, i, m, p);
  }

  lemma {:induction false} PieceFields(e: Entry)
    ensures var p := PieceOf(e);
            && p.typ == e.typ && p.len == e.len && p.disp == e.disp && p.code == e.typ.desc
            && p.extent == Span(e.typ) && p.repeatable == e.typ.Repeatable()
  {
    hide Datatype.Repeatable;
  }

  /** When the last run is built as well. */
  lemma {:induction false} ListingEnd(d: Datatype, entries: seq<Entry>, t: seq<int>, right: bool, l: seq<Placed>,
                                      m: seq<G.Mark>, last: Entry)
    requires entries != [] && Listing(entries, |entries|, t, right, l, m, last)
    requires Made(d, t + Iter(last.typ.desc, last.disp, Span(last.typ), last.len),
                  right && (last.typ.Repeatable() || last.len < 2))
    requires Tracks(d, l + [PiecePlaced(PieceOf(last))], m + G.Times(G.Marks(last.typ.desc), last.len))
    requires AllValid(entries) && right && (last.typ.Repeatable() || last.len < 2) ==> d.Valid()
    ensures Made(d, StructTM(Pieces(entries)), !PieceDoubled(Pieces(entries)))
    ensures AllValid(entries) && !PieceDoubled(Pieces(entries)) ==> d.Valid()
    ensures StructBounds(d.Extent(), Pieces(entries)) && G.Marks(d.desc) == Elements(Pieces(entries))
  {
    hide Listed, Made, Datatype.Addressable, Iter, Datatype.Valid, EntriesOK, StructTM, Pieces, LastPiece, PieceDoubled,
         Datatype.Repeatable, AllValid, Tracks, PieceRuns, PiecesPlaced, PiecePlaced, Elements, G.Marks, G.Times,
         Encloses, StructBounds;
    var ps := Pieces(entries);
    assert ps[..|entries|] == ps && ps != [];
    TracksFacts(d, PiecesPlaced(PieceRuns(ps)), Elements(ps));
    PiecesCoherent(entries);
    StructEnclosed(d.Extent(), ps);
  }

  /** `ompi_ddt_create_struct`. */
  method CreateStruct(entries: seq<Entry>) returns (d: Datatype)
    requires EntriesOK(entries)
    ensures fresh(d) && EntriesOK(entries)
    ensures Made(d, StructTM(Pieces(entries)), !PieceDoubled(Pieces(entries)))
    ensures AllValid(entries) && !PieceDoubled(Pieces(entries)) ==> d.Valid()
    ensures StructBounds(d.Extent(), Pieces(entries)) && G.Marks(d.desc) == Elements(Pieces(entries))
  {
    hide *;
    ghost var types := TypesOf(entries);
    EmptyStruct();
    if |entries| == 0 {
      assert entries == [];
      d := Empty();
      EmptyStruct();
      return;
    }
    d := new Datatype();
    assert d !in types;
    StartEmpty(d);
    var lastType, lastBlock: nat, lastDisp := entries[0].typ, entries[0].len, entries[0].disp;
    var lastExtent := lastType.ub - lastType.lb;
    var endto := entries[0].disp + lastExtent * lastBlock;
    ghost var t, right, l: seq<Placed>, m: seq<G.Mark> := [], true, [], [];
    ListingFirst(entries);
    for i := 1 to |entries|
      invariant fresh(d) && d !in Types(entries) && EntriesOK(entries)
      invariant Listing(entries, i, t, right, l, m, Entry(lastBlock, lastDisp, lastType))
      invariant lastExtent == lastType.ub - lastType.lb && endto == lastDisp + lastExtent * lastBlock
      invariant Made(d, t, right) && Tracks(d, l, m) && (AllValid(entries) && right ==> d.Valid())
    {
      ListingFacts(entries, i, t, right, l, m, Entry(lastBlock, lastDisp, lastType));
      if entries[i].typ == lastType && entries[i].disp == endto {
        ListingMerged(entries, i, t, right, l, m, Entry(lastBlock, lastDisp, lastType));
        lastBlock := lastBlock + entries[i].len;
        Commutes(lastExtent, lastBlock);
        endto := lastDisp + lastBlock * lastExtent;
      } else {
        ListingNew(entries, i, t, right, l, m, Entry(lastBlock, lastDisp, lastType));
        PartValid(entries, lastType);
        AddEntry(d, lastType, lastBlock, lastDisp, lastExtent, t, right, l, m);
        t, right := t + Iter(lastType.desc, lastDisp, lastExtent, lastBlock), right
        && (lastType.Repeatable() || lastBlock < 2);
        l := l + [PiecePlaced(PieceOf(Entry(lastBlock, lastDisp, lastType)))];
        m := m + G.Times(G.Marks(lastType.desc), lastBlock);
        lastType := entries[i].typ;
        lastExtent, lastBlock, lastDisp := lastType.ub - lastType.lb, entries[i].len, entries[i].disp;
        endto := lastDisp + lastExtent * lastBlock;
      }
    }
    ListingFacts(entries, |entries|, t, right, l, m, Entry(lastBlock, lastDisp, lastType));
    PartValid(entries, lastType);
    AddEntry(d, lastType, lastBlock, lastDisp, lastExtent, t, right, l, m);
    ListingEnd(d, entries, t, right, l, m, Entry(lastBlock, lastDisp, lastType));
  }

  lemma {:induction false} TypesOf(entries: seq<Entry>) returns (types: set<Datatype>)
    ensures types == Types(entries)
  {
    types := Types(entries);
  }

  lemma {:induction false} Commutes(a: int, b: int)
    ensures a * b == b * a
  {}

  lemma {:induction false} EmptyStruct()
    ensures Elements([]) == [] && StructBounds(NOTHING, [])
    ensures StructTM([]) == [] && Pieces([]) == [] && !PieceDoubled([]) && EntriesOK([])
    ensures forall t: seq<int> :: [] + t == t
  {}

  // ----- the same call with other parts -----

  /** The same entries, except that one datatype may be listed twice in `ps` where `qs` lists two that
      are alike, as a process does that rebuilds a datatype from its description. */
  ghost predicate Alike(ps: seq<Piece>, qs: seq<Piece>) {
    && Coherent(ps) && |ps| == |qs| && (forall i :: 0 <= i < |ps| ==> qs[i] == ps[i].(typ := qs[i].typ))
    && forall i, j :: 0 <= i < |qs| && 0 <= j < |qs| && qs[i].typ == qs[j].typ ==> ps[i].typ == ps[j].typ
  }

  lemma {:induction false} AlikePrefix(ps: seq<Piece>, qs: seq<Piece>)
    requires Alike(ps, qs) && ps != []
    ensures Alike(ps[..|ps| - 1], qs[..|qs| - 1])
  {
    var a, b := ps[..|ps| - 1], qs[..|qs| - 1];
    forall i, j | 0 <= i < |b| && 0 <= j < |b| && b[i].typ == b[j].typ ensures a[i].typ == a[j].typ {
      assert qs[i].typ == qs[j].typ;
    }
    forall i, j | 0 <= i < |a| && 0 <= j < |a| && a[i].typ == a[j].typ
      ensures a[i].extent == a[j].extent && a[i].repeatable == a[j].repeatable
    {
      assert ps[i].typ == ps[j].typ;
    }
  }

  lemma {:induction false} AlikeTM(ps: seq<Piece>, qs: seq<Piece>)
    requires Alike(ps, qs)
    ensures StructTM(ps) == StructTM(qs)
    decreases |ps|
  {
    hide Iter;
    if ps != [] {
      AlikePrefix(ps, qs);
      AlikeTM(ps[..|ps| - 1], qs[..|qs| - 1]);
      assert qs[|qs| - 1] == ps[|ps| - 1].(typ := qs[|qs| - 1].typ);
    }
  }

  /** Where less is identical less is merged, and a run ends where its last entry ends. */
  lemma {:induction false} ShorterRuns(ps: seq<Piece>, qs: seq<Piece>)
    requires Alike(ps, qs) && ps != []
    ensures qs != [] && Runs(LastPiece(ps), LastPiece(qs), ps[|ps| - 1], qs[|qs| - 1])
    decreases |ps|
  {
    hide *;
    var n := |ps| - 1;
    LastAlike(ps, qs);
    if n > 0 {
      AlikePrefix(ps, qs);
      ShorterRuns(ps[..n], qs[..n]);
      PrefixLast(ps, n);
      PrefixLast(qs, n);
      RunsNext(LastPiece(ps[..n]), LastPiece(qs[..n]), ps[n - 1], qs[n - 1], ps[n], qs[n]);
    }
    PieceNext(ps, n);
    PieceNext(qs, n);
    Whole(ps);
    Whole(qs);
    if n == 0 { OneRun(ps[n], qs[n]); }
  }

  lemma {:induction false} Whole(ps: seq<Piece>)
    ensures ps[..|ps|] == ps
  {}

  lemma {:induction false} PrefixLast(ps: seq<Piece>, n: nat)
    requires 0 < n < |ps|
    ensures |ps[..n]| == n && ps[..n][|ps[..n]| - 1] == ps[n - 1] && ps[..n] != []
  {}

  /** The last runs `p` and `q`, whose last entries are `b` and `c`. */
  predicate Runs(p: Piece, q: Piece, b: Piece, c: Piece) {
    && p.typ == b.typ && q.typ == c.typ && q.len <= p.len && c == b.(typ := c.typ)
    && p.extent == q.extent == b.extent && p.repeatable == q.repeatable == b.repeatable
    && p.disp + p.extent * p.len == q.disp + q.extent * q.len == b.disp + b.extent * b.len
  }

  lemma {:induction false} OneRun(b: Piece, c: Piece)
    requires c == b.(typ := c.typ)
    ensures Runs(b, c, b, c)
  {}

  lemma {:induction false} RunsNext(p: Piece, q: Piece, b: Piece, c: Piece, b': Piece, c': Piece)
    requires Runs(p, q, b, c) && c' == b'.(typ := c'.typ) && (c.typ == c'.typ ==> b.typ == b'.typ)
    requires b.typ == b'.typ ==> b.extent == b'.extent && b.repeatable == b'.repeatable
    ensures Runs(if p.typ == b'.typ && p.disp + p.extent * p.len == b'.disp then p.(len := p.len + b'.len) else b',
                 if q.typ == c'.typ
                    && q.disp + q.extent * q.len == c'.disp then q.(len := q.len + c'.len) else c', b', c')
  {
    Distribute(p.len, b'.len, p.extent);
    Distribute(q.len, b'.len, q.extent);
  }

  lemma {:induction false} LastAlike(ps: seq<Piece>, qs: seq<Piece>)
    requires Alike(ps, qs) && ps != []
    ensures var n := |ps| - 1;
            && |qs| == |ps| && qs[n] == ps[n].(typ := qs[n].typ)
            && (n > 0 ==> (qs[n - 1].typ == qs[n].typ ==> ps[n - 1].typ == ps[n].typ)
                          && (ps[n - 1].typ == ps[n].typ ==>
                                ps[n - 1].extent == ps[n].extent && ps[n - 1].repeatable == ps[n].repeatable))
  {}

  lemma {:induction false} LessDoubled(ps: seq<Piece>, qs: seq<Piece>)
    requires Alike(ps, qs)
    ensures PieceDoubled(qs) ==> PieceDoubled(ps)
    decreases |ps|
  {
    if ps != [] {
      AlikePrefix(ps, qs);
      LessDoubled(ps[..|ps| - 1], qs[..|qs| - 1]);
      ShorterRuns(ps, qs);
      hide LastPiece, Alike;
    }
  }

  /** Entries that list a datatype of their own are not merged. */
  lemma {:induction false} NoneDoubled(qs: seq<Piece>)
    requires forall i, j :: 0 <= i < j < |qs| ==> qs[i].typ != qs[j].typ
    requires forall i :: 0 <= i < |qs| ==> qs[i].repeatable || qs[i].len < 2
    ensures !PieceDoubled(qs) && (qs != [] ==> LastPiece(qs) == qs[|qs| - 1])
    decreases |qs|
  {
    if qs != [] {
      NoneDoubled(qs[..|qs| - 1]);
    }
  }

  /** The struct call of a rebuilt datatype, whose parts are different objects: if the original has the
      typemap of its entries, the rebuilt one has the same; and if no entry is overstretched by itself, the
      rebuilt one always has it, so that the two are equal only then. */
  lemma {:induction false} RebuiltStruct(d: Datatype, e: Datatype, ps: seq<Piece>, qs: seq<Piece>)
    requires Alike(ps, qs) && Made(d, StructTM(ps), !PieceDoubled(ps)) && Made(e, StructTM(qs), !PieceDoubled(qs))
    ensures !PieceDoubled(ps) ==> TM(d.desc, 0) == TM(e.desc, 0) == StructTM(ps)
    ensures (forall i, j :: 0 <= i < j < |qs| ==> qs[i].typ != qs[j].typ)
            && (forall i :: 0 <= i < |qs| ==> qs[i].repeatable || qs[i].len < 2) ==>
              (TM(d.desc, 0) == TM(e.desc, 0) <==> !PieceDoubled(ps))
  {
    AlikeTM(ps, qs);
    LessDoubled(ps, qs);
    if (forall i, j :: 0 <= i < j < |qs| ==> qs[i].typ != qs[j].typ)
       && (forall i :: 0 <= i < |qs| ==> qs[i].repeatable || qs[i].len < 2) {
      NoneDoubled(qs);
    }
    hide TM, StructTM, PieceDoubled, Alike, Datatype.Valid, Datatype.Sound;
  }

  lemma {:induction false} AlikePlaced(ps: seq<Piece>, qs: seq<Piece>)
    requires Alike(ps, qs)
    ensures PiecesPlaced(ps) == PiecesPlaced(qs) && (NoneEmpty(ps) <==> NoneEmpty(qs))
  {
    forall i | 0 <= i < |ps| ensures PiecePlaced(ps[i]) == PiecePlaced(qs[i]) && ps[i].len == qs[i].len {
      assert qs[i] == ps[i].(typ := qs[i].typ);
    }
    hide PiecePlaced, Coherent;
    assert PiecesPlaced(ps) == PiecesPlaced(qs);
  }

  /** The bounds of the original and of the rebuilt struct agree, although other entries are merged. */
  lemma {:induction false} RebuiltBounds(e: Extents, f: Extents, ps: seq<Piece>, qs: seq<Piece>)
    requires Alike(ps, qs) && StructBounds(e, ps) && StructBounds(f, qs) && NoneEmpty(ps)
    ensures e.lb == f.lb && e.userLb == f.userLb && e.userUb == f.userUb && e.align == f.align
    ensures e.userUb ==> e.ub == f.ub
  {
    AlikePlaced(ps, qs);
    hide Encloses, PiecesPlaced, NoneEmpty, SomeSets, OnlyMarkers, Outer;
    if ps != [] { EnclosesOnce(e, f, PiecesPlaced(ps)); }
  }

  /** A struct that lists one datatype twice, and one that lists two of the same kind: three ints, resized to
      the extent of one, and the same one int further.  The typemaps differ. */
  method SharedPart() returns (shared: Datatype, rebuilt: Datatype)
    ensures TM(shared.desc, 0) != TM(rebuilt.desc, 0) == Run(0, 12) + Run(4, 12)
  {
    hide *;
    var a := ResizedInts();
    var b := ResizedInts();
    PartsOK(a, a);
    shared := CreateStruct([Entry(1, 0, a), Entry(1, 4, a)]);
    PartsOK(a, a);
    PartsOK(a, b);
    rebuilt := CreateStruct([Entry(1, 0, a), Entry(1, 4, b)]);
    PartsOK(a, b);
    PartsDiffer(a, b, shared, rebuilt);
  }

  /** The resized ints as an entry. */
  function IntsAt(a: Datatype, disp: int): Piece
    reads a
  {
    Piece(a, Derived, a.Extent(), [Data(O.INT4, 3, 0, 4, true)], 4, false, 1, disp)
  }

  lemma {:induction false} PartsOK(a: Datatype, b: Datatype)
    requires a.Valid() && a.kind.Derived? && a.desc == [Data(O.INT4, 3, 0, 4, true)] && a.lb == 0 && a.ub == 4
    requires a.trueLb == 0 && a.trueUb == 12
    requires b.Valid() && b.kind.Derived? && b.desc == [Data(O.INT4, 3, 0, 4, true)] && b.lb == 0 && b.ub == 4
    requires b.trueLb == 0 && b.trueUb == 12
    ensures EntriesOK([Entry(1, 0, a), Entry(1, 4, b)])
    ensures Pieces([Entry(1, 0, a), Entry(1, 4, b)]) == [IntsAt(a, 0), IntsAt(b, 4)]
  {
    hide Described, Structured;
  }

  lemma {:induction false} PartsDiffer(a: Datatype, b: Datatype, shared: Datatype, rebuilt: Datatype)
    requires a != b && a.Extent() == b.Extent()
    requires var ps := [IntsAt(a, 0), IntsAt(a, 4)]; Made(shared, StructTM(ps), !PieceDoubled(ps))
    requires var qs := [IntsAt(a, 0), IntsAt(b, 4)]; Made(rebuilt, StructTM(qs), !PieceDoubled(qs))
    ensures TM(shared.desc, 0) != TM(rebuilt.desc, 0) == Run(0, 12) + Run(4, 12)
  {
    var ps, qs := [IntsAt(a, 0), IntsAt(a, 4)], [IntsAt(a, 0), IntsAt(b, 4)];
    assert ps[..1] == [IntsAt(a, 0)] && ps[..2] == ps && qs[..1] == [IntsAt(a, 0)] && qs[..2] == qs && qs[..0] == []
           && ps[..0] == [];
    assert PieceDoubled(ps) by { PieceNext(ps, 0); PieceNext(ps, 1); }
    NoneDoubled(qs);
    AlikeTM(ps, qs);
    hide TM, Run, PieceDoubled, LastPiece, Datatype.Valid, Datatype.Sound;
    TwoResized(ps[0].code);
    StructNext(qs, 0);
    StructNext(qs, 1);
    assert StructTM(qs) == Run(0, 12) + Run(4, 12);
  }

  lemma {:induction false} TwoResized(c: seq<Rec>)
    requires c == [Data(O.INT4, 3, 0, 4, true)]
    ensures [] + Iter(c, 0, 4, 1) + Iter(c, 4, 4, 1) == Run(0, 12) + Run(4, 12)
  {
    SixInts();
    hide TM, Run;
    RunCopies(c, 0, 12, 0, 4, 1);
    RunCopies(c, 0, 12, 4, 4, 1);
    hide Iter;
  }

  /** Two ints, the second one byte before the first, come out as two adjacent ints. */
  method StrideExample() returns (d: Datatype, int4: Datatype)
    ensures d.Valid() && int4.kind == Predefined(O.INT4)
    ensures TM(d.desc, 0) != VectorTM(int4.desc, 0, Span(int4), 2, 1, -1)
  {
    int4 := new Datatype.Basic(O.INT4, 4);
    Datatype.BasicFields(int4);
    hide TM, Described, VectorTM, Bounds, Run;
    assert int4.desc == [BasicRec(O.INT4)];
    d := CreateHvector(2, 1, -1, int4);
  }
}
