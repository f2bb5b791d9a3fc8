/** Copying between two buffers of the same datatype, without a packed form in between: in chunks,
    in strides, or by interpreting the description.

    Source: openmpi-1.4.2/ompi/datatype/dt_copy.c. */
module DirectCopy {
  import opened Typemap
  import opened Memory
  import opened ConvertorState
  import opened Progress
  import opened SplitPoint
  import opened ReadExtent
  import opened Convertors
  import opened SndRcv
  import opened Streams
  import N = Nesting

  const MEMCPY_BLOCK_SIZE: nat := 128 * 1024

  // ----- memory -----

  /** The bytes at the displacements are those of the source, all others are as before. */
  ghost predicate Copied(s: seq<byte>, sbase: int, d: seq<byte>, dbase: int, addrs: seq<int>, r: seq<byte>) {
    InBounds(|s|, sbase, addrs) && InBounds(|d|, dbase, addrs) && r == Scatter(d, dbase, addrs, Gather(s, sbase, addrs))
  }

  lemma {:induction false} CopiedNothing(s: seq<byte>, sbase: int, d: seq<byte>, dbase: int)
    ensures Copied(s, sbase, d, dbase, [], d)
  {}

  lemma {:induction false} CopiedMore(s: seq<byte>, sbase: int, d: seq<byte>, dbase: int, a: seq<int>, b: seq<int>,
                                      r: seq<byte>, t: seq<byte>)
    requires Copied(s, sbase, d, dbase, a, r) && Copied(s, sbase, r, dbase, b, t)
    ensures Copied(s, sbase, d, dbase, a + b, t)
  {
    GatherAppend(s, sbase, a, b);
    ScatterAppend(d, dbase, a, b, Gather(s, sbase, a), Gather(s, sbase, b));
  }

  /** Also where the typemap visits a byte twice. */
  lemma {:induction false} CopiedExactly(s: seq<byte>, sbase: int, d: seq<byte>, dbase: int, addrs: seq<int>,
                                         r: seq<byte>)
    requires Copied(s, sbase, d, dbase, addrs, r)
    ensures |r| == |d|
    ensures forall k :: 0 <= k < |addrs| ==> r[dbase + addrs[k]] == s[sbase + addrs[k]]
    ensures forall i :: 0 <= i < |d| && i - dbase !in addrs ==> r[i] == d[i]
    decreases |addrs|
  {
    if addrs != [] {
      var n := |addrs| - 1;
      var a := addrs[..n];
      assert Gather(s, sbase, addrs)[..n] == Gather(s, sbase, a) && Gather(s, sbase, addrs)[n] == s[sbase + addrs[n]];
      var q := Scatter(d, dbase, a, Gather(s, sbase, a));
      assert r == q[dbase + addrs[n] := s[sbase + addrs[n]]];
      CopiedExactly(s, sbase, d, dbase, a, q);
      hide Scatter, Gather, Copied;
      forall i | 0 <= i < |d| && i - dbase !in addrs ensures r[i] == d[i] {
        assert addrs[n] in addrs && i - dbase !in a;
      }
    }
  }

  // ----- how high the stack gets -----

  /** The bodies that the stack is in, as `Nesting.Reach` wants them. */
  ghost function Bodies(code: seq<Rec>, fs: seq<Frame>): (b: seq<(int, int)>)
    ensures |b| == |fs|
    ensures forall k :: 0 <= k < |fs| ==> b[k] == (Lo(fs[k]), if Framed(code, fs[k]) then Hi(code, fs[k]) else -1)
  {
    seq(|fs|, k requires 0 <= k < |fs| => (Lo(fs[k]), if Framed(code, fs[k]) then Hi(code, fs[k]) else -1))
  }

  /** How many entries a copy needs: one for the whole and one for every loop that it enters. */
  ghost function Entries(code: seq<Rec>): nat
    requires |code| >= 1
  {
    1 + N.Depth(N.Copy, Body(code))
  }

  ghost function DepthOf(code: seq<Rec>, body: (int, int)): nat {
    if 0 <= body.0 <= body.1 <= |code| then N.Depth(N.Copy, code[body.0..body.1]) else 0
  }

  /** No body on the stack is nested too deep for that. */
  ghost predicate Fitting(code: seq<Rec>, bodies: seq<(int, int)>, most: nat) {
    forall k :: 0 <= k < |bodies| ==> k + 1 + DepthOf(code, bodies[k]) <= most
  }

  /** The stack has been `deepest` entries high, and with what is still to come it reaches its greatest
      height, also if a body is repeated. */
  ghost predicate Climbing(code: seq<Rec>, bodies: seq<(int, int)>, pos: int, deepest: nat)
    requires |code| >= 1
  {
    && |bodies| <= deepest <= Entries(code) && Fitting(code, bodies, Entries(code))
    && N.Reach(N.Copy, code, bodies, pos) <= Entries(code) <= N.Higher(deepest, N.Reach(N.Copy, code, bodies, pos))
  }

  lemma {:induction false} ClimbBegin(code: seq<Rec>, total: nat)
    requires |code| >= 1
    ensures Climbing(code, Bodies(code, [Frame(-1, total, 0)]), 0, 1)
  {
    N.ReachAll(N.Copy, code);
    assert code[0..|code| - 1] == Body(code);
    assert Bodies(code, [Frame(-1, total, 0)]) == [(0, |code| - 1)];
    hide N.Depth, N.Reach;
  }

  /** Data records and contiguous loops do not touch the stack. */
  lemma {:induction false} ClimbPast(code: seq<Rec>, bodies: seq<(int, int)>, pos: int, next: int, deepest: nat)
    requires |code| >= 1 && Climbing(code, bodies, pos, deepest)
    requires bodies != [] && 0 <= pos <= next <= bodies[|bodies| - 1].1 <= |code|
    requires N.Depth(N.Copy, code[next..bodies[|bodies| - 1].1]) == N.Depth(N.Copy, code[pos..bodies[|bodies| - 1].1])
    ensures Climbing(code, bodies, next, deepest)
  {
    hide *;
    N.ReachPast(N.Copy, code, bodies, pos, next);
    SameClimb(code, bodies, pos, next, deepest);
  }

  lemma {:induction false} SameClimb(code: seq<Rec>, bodies: seq<(int, int)>, pos: int, next: int, deepest: nat)
    requires |code| >= 1 && Climbing(code, bodies, pos, deepest)
    requires N.Reach(N.Copy, code, bodies, next) == N.Reach(N.Copy, code, bodies, pos)
    ensures Climbing(code, bodies, next, deepest)
  {
    hide Entries, Fitting, N.Reach, N.Higher;
  }

  /** Entering a loop. */
  lemma {:induction false} ClimbInto(code: seq<Rec>, bodies: seq<(int, int)>, pos: int, deepest: nat)
    requires |code| >= 1 && Climbing(code, bodies, pos, deepest)
    requires bodies != [] && 0 <= pos < bodies[|bodies| - 1].1 <= |code|
    requires code[pos].Loop? && 2 <= code[pos].items < bodies[|bodies| - 1].1 - pos && !code[pos].contiguous
    ensures Climbing(code, bodies + [(pos + 1, pos + code[pos].items)], pos + 1, N.Higher(deepest, |bodies| + 1))
  {
    hide N.Depth, Entries;
    var hi, n := bodies[|bodies| - 1].1, code[pos].items;
    var body := (pos + 1, pos + n);
    var more := bodies + [body];
    assert more[..|more| - 1] == bodies && more[|more| - 1] == body;
    assert code[pos..hi][0] == code[pos];
    N.ReachInto(N.Copy, code, bodies, pos);
    N.ReachIs(N.Copy, code, more, pos + 1);
    hide N.Reach;
    forall k | 0 <= k < |more| ensures k + 1 + DepthOf(code, more[k]) <= Entries(code) {
      if k < |bodies| { assert more[k] == bodies[k]; }
    }
  }

  /** Going on behind a loop that is finished. */
  lemma {:induction false} ClimbOut(code: seq<Rec>, bodies: seq<(int, int)>, deepest: nat)
    requires |code| >= 1 && bodies != [] && 0 <= bodies[|bodies| - 1].1 <= |code|
    requires Climbing(code, bodies, bodies[|bodies| - 1].1, deepest)
    ensures Climbing(code, bodies[..|bodies| - 1], bodies[|bodies| - 1].1 + 1, deepest)
    ensures |bodies| == 1 ==> deepest == Entries(code)
  {
    hide N.Depth, Entries, DepthOf;
    N.ReachEnd(N.Copy, code, bodies);
    if |bodies| == 1 { assert N.Reach(N.Copy, code, bodies[..0], bodies[0].1 + 1) == 0; }
    hide N.Reach;
  }

  /** Starting the next repetition. */
  lemma {:induction false} ClimbAgain(code: seq<Rec>, bodies: seq<(int, int)>, deepest: nat)
    requires |code| >= 1 && bodies != [] && 0 <= bodies[|bodies| - 1].0 <= bodies[|bodies| - 1].1 <= |code|
    requires Climbing(code, bodies, bodies[|bodies| - 1].1, deepest)
    ensures Climbing(code, bodies, bodies[|bodies| - 1].0, deepest)
  {
    hide N.Depth, Entries, N.Reach;
    N.ReachEnd(N.Copy, code, bodies);
    N.ReachIs(N.Copy, code, bodies, bodies[|bodies| - 1].0);
    assert |bodies| + DepthOf(code, bodies[|bodies| - 1]) <= Entries(code);
  }

  // ----- the same for states of the interpreter -----

  /** The innermost body, and where the record at `pos` lies in it. */
  lemma {:induction false} InBody(code: seq<Rec>, extent: int, total: nat, fs: seq<Frame>, pos: int, cnt: nat, src: int,
                                  b: nat)
    requires Proper(code, extent, total, fs, pos, cnt, src, b)
    ensures |fs| >= 1 && Framed(code, Top(fs)) && 0 <= Lo(Top(fs)) <= pos <= Hi(code, Top(fs)) < |code|
    ensures Bodies(code, fs) != [] && Bodies(code, fs)[|fs| - 1] == (Lo(Top(fs)), Hi(code, Top(fs)))
    ensures code[pos].EndLoop? <==> pos == Hi(code, Top(fs))
    ensures code[pos].Loop? ==> 2 <= code[pos].items < Hi(code, Top(fs)) - pos
  {
    hide WF, TM, Iter, After, WholeTM, Cur, RemAt;
    Progress.AtEnd(code, extent, total, fs, pos, cnt, src);
    Inner(code, extent, total, fs);
    if pos < Hi(code, Top(fs)) { Unfold(code, pos, Hi(code, Top(fs))); }
  }

  lemma {:induction false} ClimbData(code: seq<Rec>, extent: int, total: nat, fs: seq<Frame>, pos: int, cnt: nat,
                                     src: int, b: nat, deepest: nat)
    requires Proper(code, extent, total, fs, pos, cnt, src, b) && 0 <= pos < |code| && code[pos].Data?
    requires Climbing(code, Bodies(code, fs), pos, deepest)
    ensures Climbing(code, Bodies(code, fs), pos + 1, deepest)
  {
    hide *;
    InBody(code, extent, total, fs, pos, cnt, src, b);
    N.DepthAt(N.Copy, code, pos, Hi(code, Top(fs)));
    ClimbPast(code, Bodies(code, fs), pos, pos + 1, deepest);
  }

  lemma {:induction false} ClimbLoop(code: seq<Rec>, extent: int, total: nat, fs: seq<Frame>, pos: int, cnt: nat,
                                     src: int, b: nat, deepest: nat)
    requires Proper(code, extent, total, fs, pos, cnt, src, b) && 0 <= pos < |code| && code[pos].Loop?
    requires Climbing(code, Bodies(code, fs), pos, deepest)
    ensures code[pos].contiguous ==> Climbing(code, Bodies(code, fs), pos + code[pos].items + 1, deepest)
    ensures !code[pos].contiguous ==>
              forall d :: Climbing(code, Bodies(code, fs + [Frame(pos, code[pos].loops, d)]), pos + 1,
                                   N.Higher(deepest, |fs| + 1))
  {
    hide *;
    InBody(code, extent, total, fs, pos, cnt, src, b);
    var hi, n := Hi(code, Top(fs)), code[pos].items;
    if code[pos].contiguous {
      PastContiguous(code, pos, hi);
      ClimbPast(code, Bodies(code, fs), pos, pos + n + 1, deepest);
    } else {
      ClimbInto(code, Bodies(code, fs), pos, deepest);
      forall d ensures Climbing(code, Bodies(code, fs + [Frame(pos, code[pos].loops, d)]), pos + 1,
                                N.Higher(deepest, |fs| + 1)) {
        MoreBodies(code, fs, Frame(pos, code[pos].loops, d));
      }
    }
  }

  lemma {:induction false} PastContiguous(code: seq<Rec>, pos: nat, hi: nat)
    requires pos < hi <= |code| && code[pos].Loop? && 2 <= code[pos].items < hi - pos && code[pos].contiguous
    ensures N.Depth(N.Copy, code[pos + code[pos].items + 1..hi]) == N.Depth(N.Copy, code[pos..hi])
  {
    N.DepthAt(N.Copy, code, pos, hi);
    hide N.Depth;
  }

  lemma {:induction false} MoreBodies(code: seq<Rec>, fs: seq<Frame>, f: Frame)
    requires 0 <= f.index < |code| && code[f.index].Loop?
    ensures Bodies(code, fs + [f]) == Bodies(code, fs) + [(f.index + 1, f.index + code[f.index].items)]
  {}

  /** At an END_LOOP, whichever way it goes on. */
  lemma {:induction false} ClimbEnd(code: seq<Rec>, extent: int, total: nat, fs: seq<Frame>, pos: int, cnt: nat,
                                    src: int, b: nat, deepest: nat)
    requires Proper(code, extent, total, fs, pos, cnt, src, b) && 0 <= pos < |code| && code[pos].EndLoop?
    requires Climbing(code, Bodies(code, fs), pos, deepest)
    ensures |fs| >= 1 && Climbing(code, Bodies(code, Pop(fs)), pos + 1, deepest)
    ensures Climbing(code, Bodies(code, fs), Lo(Top(fs)), deepest)
    ensures |fs| == 1 ==> deepest == Entries(code)
  {
    hide *;
    InBody(code, extent, total, fs, pos, cnt, src, b);
    ClimbOut(code, Bodies(code, fs), deepest);
    ClimbAgain(code, Bodies(code, fs), deepest);
    FewerBodies(code, fs);
  }

  lemma {:induction false} FewerBodies(code: seq<Rec>, fs: seq<Frame>)
    requires |fs| >= 1
    ensures Bodies(code, fs)[..|fs| - 1] == Bodies(code, Pop(fs))
  {}

  /** A frame that starts its next repetition. */
  lemma {:induction false} SameBodies(code: seq<Rec>, fs: seq<Frame>, gs: seq<Frame>, pos: int, next: int)
    requires |fs| == |gs| >= 1
    requires (fs == Pop(gs) && next == pos + 1)
             || (Pop(fs) == Pop(gs) && Top(fs).index == Top(gs).index && next == Lo(Top(fs)))
    ensures Bodies(code, fs) == Bodies(code, gs) && next == Lo(Top(gs))
  {
    var n := |fs| - 1;
    forall k | 0 <= k < n ensures fs[k] == gs[k] {
      assert fs[k] == Pop(fs)[k] && gs[k] == Pop(gs)[k];
    }
  }

  /** The description as it is read has the same loops. */
  lemma {:induction false} ReadEntries(desc: seq<Rec>)
    requires Committed(desc)
    ensures |Read(desc)| >= 1 && Entries(Read(desc)) == Entries(desc)
  {
    ReadCommitted(desc);
    assert N.SameLoops(Body(desc), Read(Body(desc)));
    N.DepthSame(N.Copy, Body(desc), Read(Body(desc)));
    hide N.Depth, Committed;
  }

  // ----- the copy -----

  class Copier {
    const desc: seq<Rec>      // the description in use, closed by a fake END_LOOP
    const code: seq<Rec>      // the description as the copy reads it
    const extent: int
    const size: nat
    const total: nat
    const contiguous: bool
    const trueLb: int
    const source: array<byte>
    const sbase: int
    const dest: array<byte>
    const dbase: int
    var stack: seq<Frame>
    var space: int
    ghost var deepest: nat    // how many entries the stack has held

    ghost function Whole(): seq<int>
      requires |code| > 0
    {
      WholeTM(code, total, extent)
    }

    ghost predicate Setup() {
      && Committed(desc) && code == Read(desc) && Committed(code) && size == |TM(Body(code), 0)| && source != dest
      && InBounds(source.Length, sbase, Whole()) && InBounds(dest.Length, dbase, Whole())
      && (contiguous ==> TM(Body(desc), 0) == Run(trueLb, size))
    }

    constructor (desc: seq<Rec>, extent: int, size: nat, total: nat, contiguous: bool, trueLb: int,
                 source: array<byte>, sbase: int, dest: array<byte>, dbase: int)
      requires Committed(desc) && size == |TM(Body(desc), 0)| && source != dest
      requires InBounds(source.Length, sbase, WholeTM(Read(desc), total, extent))
      requires InBounds(dest.Length, dbase, WholeTM(Read(desc), total, extent))
      requires contiguous ==> TM(Body(desc), 0) == Run(trueLb, size)
      ensures Setup() && this.desc == desc && this.extent == extent && this.total == total
      ensures this.source == source && this.sbase == sbase && this.dest == dest && this.dbase == dbase
    {
      this.desc, this.code, this.extent, this.size, this.total := desc, Read(desc), extent, size, total;
      this.contiguous, this.trueLb := contiguous, trueLb;
      this.source, this.sbase, this.dest, this.dbase := source, sbase, dest, dbase;
      stack, space, deepest := [], 0, 0;
      new;
      ReadCommitted(desc);
      hide Committed, WholeTM, InBounds, TM, Run, Read;
    }

    /** memcpy of `n` bytes at the same displacement. */
    method Move(start: int, n: nat)
      requires source != dest && InBounds(source.Length, sbase, Run(start, n))
      requires InBounds(dest.Length, dbase, Run(start, n))
      modifies dest
      ensures Copied(source[..], sbase, old(dest[..]), dbase, Run(start, n), dest[..])
    {
      if n > 0 {
        RunBounds(source.Length, sbase, start, n);
        RunBounds(dest.Length, dbase, start, n);
        ghost var s, d := source[..], dest[..];
        ghost var data := Gather(s, sbase, Run(start, n));
        assert |data| == n && forall i :: 0 <= i < n ==> data[i] == s[sbase + start + i];
        forall i | 0 <= i < n {
          dest[dbase + start + i] := source[sbase + start + i];
        }
        ScatterRun(d, dbase, start, data);
        assert source[..] == s;
        assert dest[..] == d[..dbase + start] + data + d[dbase + start + n..];
      } else {
        assert Run(start, 0) == [];
        CopiedNothing(source[..], sbase, dest[..], dbase);
      }
    }

    /** One memcpy for each of `n` blocks that lie `stride` bytes apart. */
    method MoveBlocks(start: int, blockSize: nat, n: nat, stride: int)
      requires source != dest && blockSize >= 1
      requires InBounds(source.Length, sbase, Elems(blockSize, n, start, stride))
      requires InBounds(dest.Length, dbase, Elems(blockSize, n, start, stride))
      modifies dest
      ensures Copied(source[..], sbase, old(dest[..]), dbase, Elems(blockSize, n, start, stride), dest[..])
    {
      hide Elems, InBounds, Run, Copied;
      ghost var s, d := source[..], dest[..];
      NoBlocks(s, sbase, blockSize, start, stride);
      CopiedNothing(s, sbase, d, dbase);
      var at := start;
      for i := 0 to n
        invariant at == start + i * stride && source[..] == s
        invariant Copied(s, sbase, d, dbase, Elems(blockSize, i, start, stride), dest[..])
      {
        ElemsBounds(source.Length, sbase, blockSize, n, i, start, stride);
        ElemsBounds(dest.Length, dbase, blockSize, n, i, start, stride);
        ghost var before := dest[..];
        Move(at, blockSize);
        CopiedMore(s, sbase, d, dbase, Elems(blockSize, i, start, stride), Run(at, blockSize), before, dest[..]);
        at := at + stride;
      }
    }

    /** All elements of a data record. */
    method MoveData(r: Rec, cnt: nat, src: int)
      requires r.Data? && r.typ.size >= 1 && cnt >= 1 && source != dest
      requires InBounds(source.Length, sbase, Elems(r.typ.size, cnt, src + r.disp, ReadRec(r).extent))
      requires InBounds(dest.Length, dbase, Elems(r.typ.size, cnt, src + r.disp, ReadRec(r).extent))
      modifies dest, `space
      ensures Copied(source[..], sbase, old(dest[..]), dbase, Elems(r.typ.size, cnt, src + r.disp, ReadRec(r).extent),
                     dest[..])
      ensures space == old(space) - cnt * r.typ.size
    {
      hide Elems, InBounds, Run, Copied;
      var length := r.typ.size;
      if length == r.extent % WRAP {
        OneRun(source.Length, sbase, length, cnt, src + r.disp);
        OneRun(dest.Length, dbase, length, cnt, src + r.disp);
        Move(src + r.disp, cnt * length);
      } else {
        MoveBlocks(src + r.disp, length, cnt, r.extent);
      }
      space := space - cnt * length;
    }

    /** All repetitions of a contiguous loop. */
    method MoveLoop(r: Rec, end: Rec, cnt: nat, src: int)
      requires r.Loop? && end.EndLoop? && end.size >= 1 && cnt >= 1 && source != dest
      requires InBounds(source.Length, sbase, Elems(end.size, cnt, src + end.first, r.extent))
      requires InBounds(dest.Length, dbase, Elems(end.size, cnt, src + end.first, r.extent))
      modifies dest, `space
      ensures Copied(source[..], sbase, old(dest[..]), dbase, Elems(end.size, cnt, src + end.first, r.extent), dest[..])
      ensures space == old(space) - cnt * end.size
    {
      hide Elems, InBounds, Run, Copied;
      if r.extent == end.size {
        OneRun(source.Length, sbase, end.size, cnt, src + end.first);
        OneRun(dest.Length, dbase, end.size, cnt, src + end.first);
        Move(src + end.first, cnt * end.size);
      } else {
        MoveBlocks(src + end.first, end.size, cnt, r.extent);
      }
      space := space - cnt * end.size;
    }

    // ----- the interpreter -----

    /** The copy is at record `pos`, and the first `b` displacements of the message are copied. */
    ghost predicate Copying(pos: int, b: nat, d0: seq<byte>)
      reads this, source, dest
    {
      && Setup() && |stack| >= 1 && 0 <= pos < |code|
      && Proper(code, extent, total, stack, pos, Counter(code[pos]), Top(stack).disp, b) && b <= |Whole()|
      && space == |Whole()| - b
      && Copied(source[..], sbase, d0, dbase, Whole()[..b], dest[..])
    }

    /** A data record as it is in the description and as it is read. */
    lemma {:induction false} AsRead(pos: int)
      requires Setup() && 0 <= pos < |code| && code[pos].Data?
      ensures pos < |desc| && desc[pos].Data? && ReadRec(desc[pos]) == code[pos]
      ensures desc[pos].typ == code[pos].typ && desc[pos].disp == code[pos].disp && desc[pos].count == code[pos].count
    {
      hide Committed, WholeTM, InBounds, TM;
    }

    /** A data record is copied at once. */
    method CopyData(pos: int, ghost b: nat, ghost d0: seq<byte>) returns (next: int, ghost c: nat)
      requires Copying(pos, b, d0) && code[pos].Data?
      modifies dest, `space
      ensures Copying(next, c, d0) && next == pos + 1 && c > b
    {
      hide Proper, WholeTM, Committed, Elems, InBounds, Copied, Run;
      ghost var cnt, src, whole := Counter(code[pos]), Top(stack).disp, Whole();
      Place(code, extent, total, stack, pos, cnt, src, b);
      Progress.MoveData(code, extent, total, stack, pos, cnt, src, b, cnt);
      c := b + cnt * code[pos].typ.size;
      MulMono(1, cnt, code[pos].typ.size);
      InSlice(source.Length, sbase, whole, b, c);
      InSlice(dest.Length, dbase, whole, b, c);
      ghost var before := dest[..];
      AsRead(pos);
      MoveData(desc[pos], desc[pos].count, stack[|stack| - 1].disp);
      CopiedMore(source[..], sbase, d0, dbase, whole[..b], whole[b..c], before, dest[..]);
      assert whole[..b] + whole[b..c] == whole[..c];
      next := pos + 1;
    }

    /** So is a contiguous loop. */
    method CopyLoop(pos: int, ghost b: nat, ghost d0: seq<byte>) returns (next: int, ghost c: nat)
      requires Copying(pos, b, d0) && code[pos].Loop? && code[pos].contiguous
      modifies dest, `space
      ensures Copying(next, c, d0) && next == pos + code[pos].items + 1 && c > b
    {
      hide Proper, WholeTM, Committed, Elems, InBounds, Copied, Run;
      ghost var cnt, src, whole := Counter(code[pos]), Top(stack).disp, Whole();
      Place(code, extent, total, stack, pos, cnt, src, b);
      AllLoops(code, extent, total, stack, pos, cnt, src, b);
      LoopsPositive(code, extent, total, stack, pos, cnt, src, b);
      var end := code[pos + code[pos].items];
      c := b + cnt * end.size;
      MulMono(1, cnt, end.size);
      InSlice(source.Length, sbase, whole, b, c);
      InSlice(dest.Length, dbase, whole, b, c);
      ghost var before := dest[..];
      MoveLoop(code[pos], end, code[pos].loops, stack[|stack| - 1].disp);
      CopiedMore(source[..], sbase, d0, dbase, whole[..b], whole[b..c], before, dest[..]);
      assert whole[..b] + whole[b..c] == whole[..c];
      next := pos + code[pos].items + 1;
    }

    /** The end of a loop body. */
    method Close(pos: int, ghost b: nat, ghost d0: seq<byte>) returns (done: bool, next: int)
      requires Copying(pos, b, d0) && code[pos].EndLoop?
      modifies `stack
      ensures done ==> b == |Whole()|
      ensures !done ==> Copying(next, b, d0)
      ensures !done ==> |stack| < |old(stack)| || (|stack| == |old(stack)| && !code[next].EndLoop?)
      ensures done ==> |old(stack)| == 1
      ensures !done ==> (stack == Pop(old(stack)) && |stack| >= 1 && next == pos + 1)
                        || (Pop(stack) == Pop(old(stack)) && |stack| == |old(stack)|
                            && Top(stack).index == Top(old(stack)).index
                            && next == Lo(Top(stack)))
    {
      hide Proper, WholeTM, Committed, Copied;
      ghost var fs := stack;
      ghost var cnt, src := Counter(code[pos]), Top(stack).disp;
      Place(code, extent, total, fs, pos, cnt, src, b);
      var f := stack[|stack| - 1];
      stack := stack[..|stack| - 1] + [f.(count := f.count - 1)];
      if f.count - 1 == 0 {
        Leave(code, extent, total, fs, pos, cnt, src, b);
        if |stack| == 1 {
          return true, pos;
        }
        stack := stack[..|stack| - 1];
        assert stack == Pop(fs);
        next := pos + 1;
      } else {
        Repeat(code, extent, total, fs, pos, cnt, src, b);
        next := f.index + 1;
        var e := if f.index == -1 then extent else code[f.index].extent;
        stack := stack[..|stack| - 1] + [Frame(f.index, f.count - 1, f.disp + e)];
        assert stack == Pop(fs) + [Frame(f.index, f.count - 1, f.disp + e)];
      }
      done := false;
    }

    /** A loop that is not contiguous is entered. */
    method Open(pos: int, ghost b: nat, ghost d0: seq<byte>) returns (next: int)
      requires Copying(pos, b, d0) && code[pos].Loop?
      modifies `stack, `deepest
      ensures Copying(next, b, d0) && !code[next].EndLoop? && Framed(code, Top(stack)) && old(Framed(code, Top(stack)))
      ensures stack == old(stack) + [Frame(pos, code[pos].loops, Top(old(stack)).disp)] && next == pos + 1
      ensures deepest == N.Higher(old(deepest), |stack|)
      ensures Hi(code, Top(stack)) - next < old(Hi(code, Top(stack))) - pos
    {
      hide Proper, At, WholeTM, Committed, Copied;
      ghost var fs, cnt, src := stack, Counter(code[pos]), Top(stack).disp;
      Place(code, extent, total, fs, pos, cnt, src, b);
      ProperAt(code, extent, total, fs, pos, cnt, src, b);
      Enter(code, extent, total, fs, pos, cnt, src, b);
      stack := stack + [Frame(pos, code[pos].loops, stack[|stack| - 1].disp)];
      assert stack == fs + [Frame(pos, cnt, src)];
      deepest := N.Higher(deepest, |stack|);
      next := pos + 1;
    }

    /** One record: bytes are copied, or a loop is entered, repeated or left. */
    method Step(pos: int, ghost b: nat, ghost d0: seq<byte>) returns (done: bool, next: int, ghost c: nat)
      requires Copying(pos, b, d0) && Climbing(code, Bodies(code, stack), pos, deepest) && Framed(code, Top(stack))
      modifies dest, `stack, `space, `deepest
      ensures done ==>
                c == |Whole()| && Copied(source[..], sbase, d0, dbase, Whole()[..c], dest[..]) && space == 0
                && deepest == Entries(code)
      ensures !done ==>
                Copying(next, c, d0) && Climbing(code, Bodies(code, stack), next, deepest) && Framed(code, Top(stack))
      ensures !done ==> c >= b
      ensures !done && c == b ==>
                if code[pos].EndLoop? then !code[next].EndLoop? || |stack| < old(|stack|)
                else !code[next].EndLoop? && Hi(code, Top(stack)) - next < old(Hi(code, Top(stack))) - pos
    {
      hide *;
      CopyingIs(pos, b, d0);
      ghost var fs, most, cnt, src := stack, deepest, Counter(code[pos]), Top(stack).disp;
      c, done := b, false;
      match code[pos] {
      case Data(_, _, _, _, _) =>
        ClimbData(code, extent, total, fs, pos, cnt, src, b, most);
        next, c := CopyData(pos, b, d0);
      case EndLoop(_, _, _) =>
        ClimbEnd(code, extent, total, fs, pos, cnt, src, b, most);
        done, next := Close(pos, b, d0);
        if done { return; }
        if |stack| == |fs| { SameBodies(code, stack, fs, pos, next); } else { assert stack == Pop(fs); }
      case Loop(_, _, _, _) =>
        ClimbLoop(code, extent, total, fs, pos, cnt, src, b, most);
        if code[pos].contiguous {
          next, c := CopyLoop(pos, b, d0);
        } else {
          next := Open(pos, b, d0);
        }
      }
      CopyingIs(next, c, d0);
      Place(code, extent, total, stack, next, Counter(code[next]), Top(stack).disp, c);
    }

    lemma {:induction false} CopyingIs(pos: int, b: nat, d0: seq<byte>)
      requires Copying(pos, b, d0)
      ensures Setup() && |stack| >= 1 && 0 <= pos < |code| && b <= |Whole()| && space == |Whole()| - b
      ensures Proper(code, extent, total, stack, pos, Counter(code[pos]), Top(stack).disp, b)
      ensures Copied(source[..], sbase, d0, dbase, Whole()[..b], dest[..])
    {
      hide Proper, Copied, WholeTM, Setup;
    }

    /** The interpreter, for datatypes that are not contiguous; `deepest` is the number of stack entries
        that it uses. */
    method Interpret()
      requires Setup() && total >= 1
      modifies dest, `stack, `space, `deepest
      ensures Copied(source[..], sbase, old(dest[..]), dbase, Whole(), dest[..]) && space == 0
      ensures deepest == Entries(code)
    {
      WholeSize(code, extent, total, size);
      hide Proper, WholeTM, Committed, InBounds, Copied, Climbing, Entries, Bodies;
      ghost var d0, b := dest[..], 0;
      stack, deepest := [Frame(-1, total, 0)], 1;
      space := total * size;
      var pos, done := 0, false;
      Start(code, extent, total);
      ClimbBegin(code, total);
      assert Whole()[..0] == [];
      CopiedNothing(source[..], sbase, d0, dbase);
      while !done
        invariant done ==>
                    b == |Whole()| && Copied(source[..], sbase, d0, dbase, Whole()[..b], dest[..]) && space == 0
                    && deepest == Entries(code)
        invariant !done ==>
                    Copying(pos, b, d0) && Climbing(code, Bodies(code, stack), pos, deepest) && Framed(code, Top(stack))
        decreases !done, |Whole()| - b, if done || code[pos].EndLoop? then 1 else 0,
                  if done then 0 else if code[pos].EndLoop? then |stack| else Hi(code, Top(stack)) - pos
      {
        if !code[pos].EndLoop? {
          Place(code, extent, total, stack, pos, Counter(code[pos]), Top(stack).disp, b);
        }
        done, pos, b := Step(pos, b, d0);
      }
      assert Whole()[..b] == Whole();
    }

    /** A contiguous datatype without gaps: chunks of at most 128 KiB. */
    method CopyChunks(length: nat)
      requires source != dest && InBounds(source.Length, sbase, Run(trueLb, length))
      requires InBounds(dest.Length, dbase, Run(trueLb, length))
      modifies dest
      ensures Copied(source[..], sbase, old(dest[..]), dbase, Run(trueLb, length), dest[..])
    {
      hide InBounds, Copied, Run;
      ghost var s, d, n := source[..], dest[..], 0;
      var at, left, chunk := trueLb, length, MEMCPY_BLOCK_SIZE;
      RunSplit(trueLb, 0, 0);
      NoRun(trueLb);
      CopiedNothing(s, sbase, d, dbase);
      while left > 0
        invariant left >= 0 && n == length - left && at == trueLb + n && chunk >= 1 && source[..] == s
        invariant Copied(s, sbase, d, dbase, Run(trueLb, n), dest[..])
      {
        if chunk > left {
          chunk := left;
        }
        RunPart(source.Length, sbase, trueLb, length, n, chunk);
        RunPart(dest.Length, dbase, trueLb, length, n, chunk);
        ghost var before := dest[..];
        Move(at, chunk);
        CopiedMore(s, sbase, d, dbase, Run(trueLb, n), Run(at, chunk), before, dest[..]);
        RunSplit(trueLb, n, chunk);
        at, left, n := at + chunk, left - chunk, n + chunk;
      }
    }

    /** `ompi_ddt_copy_content_same_ddt`: exactly the bytes of the typemap are copied, whichever way
        is taken. */
    method Copy() returns (status: int)
      requires Setup()
      modifies dest, `stack, `space, `deepest
      ensures total > 0 && !contiguous ==> deepest == Entries(desc)
      ensures Copied(source[..], sbase, old(dest[..]), dbase, Whole(), dest[..])
      ensures status == if total == 0 then 1 else 0
    {
      if total == 0 {
        NoCopies(code, extent);
        CopiedNothing(source[..], sbase, dest[..], dbase);
        return 1;
      }
      status := 0;
      if contiguous {
        RunReads(desc, trueLb, size);
        ContiguousWhole(code, extent, total, trueLb, size);
        hide TM, Iter, WholeTM, InBounds, Copied, Elems;
        if size == extent {
          ElemsRun(size, total, trueLb);
          CopyChunks(total * size);
        } else {
          MoveBlocks(trueLb, size, total, extent);
        }
      } else {
        ReadEntries(desc);
        hide TM, Iter, WholeTM, InBounds, Copied, Elems, Entries;
        Interpret();
      }
    }
  }

  /** A contiguous datatype is read as it is. */
  lemma {:induction false} RunReads(desc: seq<Rec>, first: int, size: nat)
    requires Committed(desc) && TM(Body(desc), 0) == Run(first, size)
    ensures TM(Body(Read(desc)), 0) == Run(first, size)
  {
    ReadCommitted(desc);
    ReadTM(Body(desc));
    RunClear(Body(desc), first, size);
    hide WF, TM, Clear, Run;
  }

  lemma {:induction false} NoRun(start: int)
    ensures Run(start, 0) == []
  {}

  lemma {:induction false} RunPart(m: int, base: int, start: int, length: nat, n: nat, k: nat)
    requires InBounds(m, base, Run(start, length)) && n + k <= length
    ensures InBounds(m, base, Run(start + n, k))
  {
    var r := Run(start + n, k);
    forall i | 0 <= i < k ensures 0 <= base + r[i] < m {
      assert r[i] == start + n + i;
      assert Run(start, length)[n + i] == start + n + i;
    }
  }

  lemma {:induction false} NoCopies(code: seq<Rec>, extent: int)
    requires |code| > 0
    ensures WholeTM(code, 0, extent) == []
  {}

  /** The typemap of a contiguous datatype is blocks, the extent apart. */
  lemma {:induction false} ContiguousWhole(code: seq<Rec>, extent: int, total: nat, first: int, size: nat)
    requires Committed(code) && TM(Body(code), 0) == Run(first, size)
    ensures size >= 1 && total * size >= 0 && WholeTM(code, total, extent) == Elems(size, total, first, extent)
  {
    TMNonEmpty(Body(code), 0);
    MulMono(0, total, size);
    IterElems(Body(code), first, size, 0, extent, total);
  }

  // ----- the same as packing and unpacking -----

  /** A copy and a pair of convertors for the same data: same description, count, layout and memory
      contents; the copy's destination is an array of its own. */
  ghost predicate SameData(copier: Copier, send: Convertor, recv: Convertor)
    reads copier.source, copier.dest, send.mem, recv.mem
  {
    && copier.desc == send.desc == recv.desc && copier.extent == send.extent == recv.extent
    && copier.total == send.total == recv.total && !send.receives && recv.receives
    && copier.sbase == send.base && copier.dbase == recv.base
    && copier.source[..] == send.mem[..] && copier.dest[..] == recv.mem[..]
    && copier.source != recv.mem && copier.dest != send.mem && copier.dest != recv.mem
  }

  /** The direct copy leaves the same bytes in its destination as packing in any calls, cutting the
      stream in any way and unpacking in any calls leaves in the receiver's memory: every byte of it,
      gaps and overlaps included. */
  method SameAsPackUnpack(copier: Copier, send: Convertor, recv: Convertor, buffers: seq<seq<array<byte>>>,
                          cut: seq<byte> -> seq<seq<seq<byte>>>)
    requires copier.Setup() && SameData(copier, send, recv)
    requires Apart(send, recv) && send.Valid() && recv.Valid() && recv.Splittable()
    requires send.bConverted == recv.bConverted == 0 && send.partialLength == 0
    requires forall i :: 0 <= i < |buffers| ==> Separate(send, buffers[i])
    requires recv.mem !in Buffers(buffers) && copier.source !in Buffers(buffers) && copier.dest !in Buffers(buffers)
    requires forall s :: Stream(cut(s)) == s && Acceptable(recv, cut(s))
    modifies copier, copier.dest, send, recv, send.stack, recv.stack, recv.mem, Buffers(buffers)
    ensures send.completed && Clear(Body(copier.desc)) ==> recv.completed && recv.mem[..] == copier.dest[..]
  {
    hide *;
    ghost var sent, before := send.mem[..], recv.mem[..];
    SameFacts(copier, send, recv);
    Streams.RoundTrip(send, recv, buffers, cut);
    assert copier.source[..] == sent && copier.dest[..] == before && Moved(send, recv, recv.bConverted, sent, before);
    var status := copier.Copy();
    assert Moved(send, recv, recv.bConverted, sent, before);
    if send.completed && Clear(Body(copier.desc)) {
      ValidFacts(send);
      ValidFacts(recv);
      SameWhole(copier, send, recv);
      AllArrived(send, recv);
      MovedIsCopied(copier, send, recv, sent, before);
    }
  }

  lemma {:induction false} SameFacts(copier: Copier, send: Convertor, recv: Convertor)
    requires SameData(copier, send, recv) && copier.Setup()
    ensures |copier.desc| > 0 && copier.desc == send.desc == recv.desc && copier.extent == send.extent == recv.extent
    ensures copier.total == send.total == recv.total && !send.receives && recv.receives
    ensures copier.sbase == send.base && copier.dbase == recv.base
    ensures copier.source[..] == send.mem[..] && copier.dest[..] == recv.mem[..]
    ensures copier.source != recv.mem && copier.dest != send.mem && copier.dest != recv.mem
    ensures copier.source != copier.dest
  {
    hide WF, TM, WholeTM, InBounds, Run;
  }

  /** The three machines work on the same typemap if no record is confused. */
  lemma {:induction false} SameWhole(copier: Copier, send: Convertor, recv: Convertor)
    requires copier.desc == send.desc == recv.desc && copier.extent == send.extent == recv.extent
    requires copier.total == send.total == recv.total && !send.receives && recv.receives
    requires copier.Setup() && send.Setup() && recv.Setup() && Clear(Body(copier.desc))
    ensures |copier.code| > 0 && |send.code| > 0 && |recv.code| > 0
    ensures copier.Whole() == send.Whole() == recv.Whole()
  {
    if copier.total >= 1 {
      ReadWhole(copier.desc, copier.total, copier.extent);
    }
    hide WF, TM, Clear, Run, InBounds, Enclosing;
  }

  lemma {:induction false} MovedIsCopied(copier: Copier, send: Convertor, recv: Convertor, sent: seq<byte>,
                                         before: seq<byte>)
    requires |copier.code| > 0 && |send.code| > 0 && |recv.code| > 0 && copier.Whole() == send.Whole() == recv.Whole()
    requires copier.sbase == send.base && copier.dbase == recv.base
    requires Moved(send, recv, |recv.Whole()|, sent, before)
    requires Copied(sent, copier.sbase, before, copier.dbase, copier.Whole(), copier.dest[..])
    ensures recv.mem[..] == copier.dest[..]
  {
    hide WholeTM;
    var w := recv.Whole();
    assert w[..|w|] == w;
  }

  lemma {:induction false} InSlice(m: int, base: int, whole: seq<int>, b: nat, c: nat)
    requires InBounds(m, base, whole) && b <= c <= |whole|
    ensures InBounds(m, base, whole[b..c])
  {}

  lemma {:induction false} LoopsPositive(code: seq<Rec>, extent: int, total: nat, fs: seq<Frame>, pos: int, cnt: nat,
                                         src: int, b: nat)
    requires Proper(code, extent, total, fs, pos, cnt, src, b) && 0 <= pos < |code| && code[pos].Loop?
    ensures cnt >= 1 && cnt == code[pos].loops
  {
    hide WF, TM, Iter, After, WholeTM, Cur;
    Progress.AtEnd(code, extent, total, fs, pos, cnt, src);
  }

  lemma {:induction false} WholeSize(code: seq<Rec>, extent: int, total: nat, size: nat)
    requires |code| > 0 && size == |TM(Body(code), 0)|
    ensures |WholeTM(code, total, extent)| == total * size
  {
    IterLength(Body(code), 0, extent, total);
  }
}
