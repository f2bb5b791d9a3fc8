/** The description compiler of a commit, as the loop that the library runs: one pass over the
    records with a pending run, an explicit stack of open loops, and an output array in which the
    LOOP records are completed when their END_LOOP is reached.

    Source: openmpi-1.4.2/ompi/datatype/dt_optimize.c, `ompi_ddt_optimize_short`. */
module Optimize {
  import opened Typemap
  import opened OptimizeSpec
  import N = Nesting

  /** The type of a loop record; its entry in the table of basic types has size 0. */
  const DT_LOOP: Basic := Basic(0x00, 0)

  /** The run held in the variables `last_type`, `last_length`, `last_disp` and `last_extent`. */
  function AsPending(typ: Basic, length: nat, disp: int, extent: int): Pending {
    if length == 0 then NoRun else Pend(typ, length, disp, extent)
  }

  // ----- the compiler stopped between two records -----

  /** A loop whose body is being compiled: the body is `code[lo..hi]`, its output starts at `start`. */
  datatype Opened = Opened(start: nat, lo: nat, hi: nat)

  ghost function Top(frames: seq<Opened>): Opened
    requires |frames| > 0
  {
    frames[|frames| - 1]
  }

  ghost function Outer(frames: seq<Opened>): seq<Opened>
    requires |frames| > 0
  {
    frames[..|frames| - 1]
  }

  /** The open loops fit into each other; `pre` is the output before the innermost body, and the
      innermost body is compiled up to `pos`. */
  ghost predicate Nest(code: seq<Rec>, pre: seq<Rec>, frames: seq<Opened>, pos: nat)
    decreases |frames|
  {
    && |frames| >= 1
    && var f := Top(frames);
    && f.start == |pre| && f.lo <= pos <= f.hi < |code| && code[f.hi].EndLoop? && WF(code[pos..f.hi])
    && if |frames| == 1 then f == Opened(0, 0, |code| - 1)
       else
         && f.start >= 1 && f.lo >= 1 && code[f.lo - 1].Loop? && pre[f.start - 1] == code[f.lo - 1]
         && Top(Outer(frames)).start < f.start
         && Nest(code, pre[..Top(Outer(frames)).start], Outer(frames), f.hi + 1)
  }

  lemma {:induction false} TopOf(code: seq<Rec>, pre: seq<Rec>, frames: seq<Opened>, pos: nat)
    requires Nest(code, pre, frames, pos)
    ensures |frames| >= 1
    ensures var f := Top(frames);
            && f.start == |pre| && f.lo <= pos <= f.hi < |code| && code[f.hi].EndLoop? && WF(code[pos..f.hi])
  {
    hide WF;
  }

  /** The output for the whole description if the innermost open body compiles to `inner`. */
  ghost function Final(code: seq<Rec>, pre: seq<Rec>, frames: seq<Opened>, pos: nat, inner: seq<Rec>): seq<Rec>
    requires Nest(code, pre, frames, pos)
    decreases |frames|
  {
    if |frames| == 1 then inner
    else
      var f, g := Top(frames), Top(Outer(frames));
      TopOf(code, pre[..g.start], Outer(frames), f.hi + 1);
      Final(code, pre[..g.start], Outer(frames), f.hi + 1,
            pre[g.start..f.start - 1] + Wrap(code[f.lo - 1], inner, code[f.hi]) + Opt(code[f.hi + 1..g.hi], NoRun))
  }

  /** What the compiler has emitted and what it has still to do make up the compiled description,
      and no more records were emitted than read. */
  ghost predicate Compiling(code: seq<Rec>, out: seq<Rec>, frames: seq<Opened>, pos: nat, p: Pending) {
    && |code| >= 1 && WF(Body(code))
    && |frames| >= 1 && Top(frames).start <= |out| && Nest(code, out[..Top(frames).start], frames, pos)
    && Final(code, out[..Top(frames).start], frames, pos, out[Top(frames).start..] + Opt(code[pos..Top(frames).hi], p))
       == Opt(Body(code), NoRun)
    && |out| + |Flush(p)| <= pos
  }

  ghost predicate Compiled(code: seq<Rec>, out: seq<Rec>) {
    && |code| >= 1 && WF(Body(code)) && code[|code| - 1].EndLoop? && |out| <= |code|
    && var end := code[|code| - 1];
       out == Opt(Body(code), NoRun) + [EndLoop(|out| + 1, end.size, end.first)]
  }

  lemma {:induction false} Begin(code: seq<Rec>)
    requires Committed(code)
    ensures Compiling(code, [], [Opened(0, 0, |code| - 1)], 0, NoRun)
  {
    hide WF, Opt;
    var frames := [Opened(0, 0, |code| - 1)];
    assert code[0..|code| - 1] == Body(code);
    assert Nest(code, [], frames, 0);
    assert [] + Opt(Body(code), NoRun) == Opt(Body(code), NoRun);
  }

  /** Where the innermost body is compiled up to does not matter to the loops around it. */
  lemma {:induction false} NestAt(code: seq<Rec>, pre: seq<Rec>, frames: seq<Opened>, pos: nat, next: nat,
                                  inner: seq<Rec>)
    requires Nest(code, pre, frames, pos) && pos <= next <= Top(frames).hi && WF(code[next..Top(frames).hi])
    ensures Nest(code, pre, frames, next)
    ensures Final(code, pre, frames, pos, inner) == Final(code, pre, frames, next, inner)
  {
    hide WF, Opt, Wrap;
  }

  /** Emitting `x` and reading on to `next`. */
  lemma {:induction false} Advance(code: seq<Rec>, out: seq<Rec>, frames: seq<Opened>, pos: nat, p: Pending,
                                   x: seq<Rec>, next: nat, q: Pending)
    requires Compiling(code, out, frames, pos, p)
    requires pos <= next <= Top(frames).hi && WF(code[next..Top(frames).hi])
    requires Opt(code[pos..Top(frames).hi], p) == x + Opt(code[next..Top(frames).hi], q)
    requires |x| + |Flush(q)| <= next - pos + |Flush(p)|
    ensures Compiling(code, out + x, frames, next, q)
  {
    hide WF, Opt, Nest, Final, Flush;
    var f := Top(frames);
    TopOf(code, out[..f.start], frames, pos);
    assert (out + x)[..f.start] == out[..f.start];
    assert (out + x)[f.start..] + Opt(code[next..f.hi], q) == out[f.start..] + Opt(code[pos..f.hi], p);
    NestAt(code, out[..f.start], frames, pos, next, out[f.start..] + Opt(code[pos..f.hi], p));
  }

  // ----- single steps -----

  lemma {:induction false} Rest(code: seq<Rec>, pos: nat, hi: nat, k: nat)
    requires pos + k <= hi <= |code|
    ensures code[pos..hi][k..] == code[pos + k..hi] && code[pos..hi][..k] == code[pos..pos + k]
    ensures k < hi - pos ==> code[pos..hi][k] == code[pos + k]
    ensures 1 <= k ==> code[pos..hi][1..k] == code[pos + 1..pos + k]
  {}

  /** The record at `pos` and what is left of its body, for a position that is not at an END_LOOP. */
  lemma {:induction false} NotAtEnd(code: seq<Rec>, out: seq<Rec>, frames: seq<Opened>, pos: nat, p: Pending)
    requires Compiling(code, out, frames, pos, p) && pos < |code| && !code[pos].EndLoop?
    ensures |frames| > 0 && pos < Top(frames).hi < |code| && WF(code[pos..Top(frames).hi])
    ensures code[pos..Top(frames).hi][0] == code[pos] && code[pos..Top(frames).hi][1..] == code[pos + 1..Top(frames).hi]
  {
    TopOf(code, out[..Top(frames).start], frames, pos);
    hide WF, Opt, Nest, Final;
    Rest(code, pos, Top(frames).hi, 1);
  }

  lemma {:induction false} DataAt(code: seq<Rec>, out: seq<Rec>, frames: seq<Opened>, pos: nat, p: Pending)
    requires Compiling(code, out, frames, pos, p) && pos < |code| && code[pos].Data?
    ensures code[pos].typ.size >= 1 && code[pos].count >= 1 && pos + 1 < |code|
    ensures |out| + |Flush(p)| <= pos
  {
    NotAtEnd(code, out, frames, pos, p);
    DataHead(code[pos..Top(frames).hi]);
    hide TM, Opt, Nest, Final;
  }

  lemma {:induction false} MayRead(code: seq<Rec>, out: seq<Rec>, frames: seq<Opened>, pos: nat, p: Pending)
    requires Compiling(code, out, frames, pos, p)
    ensures |frames| > 0 && pos < |code| && |out| + |Flush(p)| <= pos
  {
    TopOf(code, out[..Top(frames).start], frames, pos);
    hide Nest, Final, Opt, WF;
  }

  lemma {:induction false} LoopAt(code: seq<Rec>, out: seq<Rec>, frames: seq<Opened>, pos: nat, p: Pending)
    requires Compiling(code, out, frames, pos, p) && pos < |code| && code[pos].Loop?
    ensures var n := code[pos].items;
            && 2 <= n && pos + n < Top(frames).hi < |code| && code[pos + n].EndLoop? && code[pos + n].size >= 1
            && code[pos].loops >= 1
            && WF(code[pos..Top(frames).hi]) && First(code[pos..Top(frames).hi]) == code[pos + n].first
            && (n == 2 ==> code[pos + 1].Data?)
  {
    AtLoop(code, out, frames, pos, p);
    var c := code[pos..Top(frames).hi];
    LoopHead(c);
    if code[pos].items == 2 { SmallBody(c); }
    hide TM, Opt, Nest, Final, WF;
  }

  lemma {:induction false} AtLoop(code: seq<Rec>, out: seq<Rec>, frames: seq<Opened>, pos: nat, p: Pending)
    requires Compiling(code, out, frames, pos, p) && pos < |code| && code[pos].Loop?
    ensures |frames| > 0
    ensures var hi, n := Top(frames).hi, code[pos].items;
            && 2 <= n && pos + n < hi < |code| && WF(code[pos..hi]) && code[pos..hi] != []
            && code[pos..hi][0] == code[pos] && code[pos..hi][1] == code[pos + 1]
            && code[pos..hi][n] == code[pos + n] && code[pos + n].EndLoop?
            && code[pos..hi][n + 1..] == code[pos + n + 1..hi] && WF(code[pos + n + 1..hi])
            && code[pos..hi][1..n] == code[pos + 1..pos + n] && WF(code[pos + 1..pos + n])
            && First(code[pos..hi]) == code[pos + n].first
  {
    hide *;
    NotAtEnd(code, out, frames, pos, p);
    var hi, n := Top(frames).hi, code[pos].items;
    LoopHead(code[pos..hi]);
    Rest(code, pos, hi, n);
    Rest(code, pos, hi, n + 1);
    Rest(code, pos, hi, 1);
  }

  lemma {:induction false} StepData(code: seq<Rec>, out: seq<Rec>, frames: seq<Opened>, pos: nat, p: Pending)
    requires Compiling(code, out, frames, pos, p) && pos < |code| && code[pos].Data?
    ensures Compiling(code, out + if Merges(p, code[pos]) then [] else Flush(p), frames, pos + 1, AddData(p, code[pos]))
  {
    NotAtEnd(code, out, frames, pos, p);
    hide Compiling, Nest, Final, First, TM, Run;
    Advance(code, out, frames, pos, p, if Merges(p, code[pos]) then [] else Flush(p), pos + 1, AddData(p, code[pos]));
  }

  lemma {:induction false} StepRun(code: seq<Rec>, out: seq<Rec>, frames: seq<Opened>, pos: nat, p: Pending)
    requires Compiling(code, out, frames, pos, p) && pos < |code| && code[pos].Loop? && pos + code[pos].items < |code|
    requires var end := code[pos + code[pos].items];
             end.EndLoop? && code[pos].contiguous && code[pos].extent == end.size && code[pos].loops * end.size >= 0
    ensures var end := code[pos + code[pos].items];
            Compiling(code, out + if Continues(p, end.first) then [] else Flush(p), frames, pos + code[pos].items + 1,
                      AddRun(p, end.first, code[pos].loops * end.size))
  {
    hide *;
    AtLoop(code, out, frames, pos, p);
    var n, end := code[pos].items, code[pos + code[pos].items];
    var q := AddRun(p, end.first, code[pos].loops * end.size);
    RunUnfold(code[pos..Top(frames).hi], p, Apart);
    FlushSize(p);
    FlushSize(q);
    Advance(code, out, frames, pos, p, if Continues(p, end.first) then [] else Flush(p), pos + n + 1, q);
  }

  lemma {:induction false} StepGapped(code: seq<Rec>, out: seq<Rec>, frames: seq<Opened>, pos: nat, p: Pending)
    requires Compiling(code, out, frames, pos, p) && pos < |code| && code[pos].Loop? && pos + code[pos].items < |code|
    requires var end := code[pos + code[pos].items];
             end.EndLoop? && code[pos].contiguous && code[pos].extent != end.size && code[pos].loops >= 1
    ensures Compiling(code,
                      out + GappedLoop(p, code[pos], code[pos + code[pos].items], code[pos + code[pos].items].first),
                      frames, pos + code[pos].items + 1, NoRun)
  {
    hide Compiling, Nest, Final, First, TM, Run, WF, Opt;
    AtLoop(code, out, frames, pos, p);
    var n, end := code[pos].items, code[pos + code[pos].items];
    GappedUnfold(code[pos..Top(frames).hi], p);
    Advance(code, out, frames, pos, p, GappedLoop(p, code[pos], end, end.first), pos + n + 1, NoRun);
  }

  lemma {:induction false} StepStrided(code: seq<Rec>, out: seq<Rec>, frames: seq<Opened>, pos: nat, p: Pending)
    requires Compiling(code, out, frames, pos, p) && pos + 1 < |code|
    requires code[pos].Loop? && !code[pos].contiguous && code[pos].items == 2 && code[pos + 1].Data?
    requires Strided(code[pos], code[pos + 1])
    ensures var d := code[pos + 1];
            Compiling(code, out + (Flush(p) + [Data(d.typ, code[pos].loops, d.disp, code[pos].extent, false)]), frames,
                      pos + 3, NoRun)
  {
    AtLoop(code, out, frames, pos, p);
    hide Compiling, Nest, Final, First, TM, Run, WF;
    var d := code[pos + 1];
    Advance(code, out, frames, pos, p, Flush(p) + [Data(d.typ, code[pos].loops, d.disp, code[pos].extent, false)],
            pos + 3, NoRun);
  }

  lemma {:induction false} StepCopies(code: seq<Rec>, out: seq<Rec>, frames: seq<Opened>, pos: nat, p: Pending)
    requires Compiling(code, out, frames, pos, p) && pos + 1 < |code|
    requires code[pos].Loop? && !code[pos].contiguous && code[pos].items == 2 && code[pos + 1].Data?
    requires code[pos].loops < 3
    requires !Strided(code[pos], code[pos + 1])
    ensures Compiling(code, out + (Flush(p) + Copies(code[pos + 1], code[pos].loops, code[pos].extent)), frames,
                      pos + 3, NoRun)
  {
    AtLoop(code, out, frames, pos, p);
    CopiesSize(code[pos + 1], code[pos].loops, code[pos].extent);
    hide Compiling, Nest, Final, First, TM, Run, WF, Copies;
    Advance(code, out, frames, pos, p, Flush(p) + Copies(code[pos + 1], code[pos].loops, code[pos].extent), pos + 3,
            NoRun);
  }

  lemma {:induction false} CopiesSize(elem: Rec, n: nat, extent: int)
    requires elem.Data?
    ensures |Copies(elem, n, extent)| == n
    decreases n
  {
    if n > 0 { CopiesSize(elem.(disp := elem.disp + extent), n - 1, extent); }
  }

  /** Opening a loop: its record is emitted as it is, and its body is compiled next. */
  lemma {:induction false} StepOpen(code: seq<Rec>, out: seq<Rec>, frames: seq<Opened>, pos: nat, p: Pending)
    requires Compiling(code, out, frames, pos, p) && pos + 1 < |code| && code[pos].Loop? && !code[pos].contiguous
    requires code[pos].items == 2 && code[pos + 1].Data? ==> !Strided(code[pos], code[pos + 1]) && code[pos].loops >= 3
    ensures var start := |out + (Flush(p) + [code[pos]])|;
            Compiling(code, out + (Flush(p) + [code[pos]]), frames + [Opened(start, pos + 1, pos + code[pos].items)],
                      pos + 1, NoRun)
  {
    hide First, TM, Run, WF, Opt, Wrap, Flush, Nest, Final;
    AtLoop(code, out, frames, pos, p);
    var n, f := code[pos].items, Top(frames);
    var hi := f.hi;
    var all := out + (Flush(p) + [code[pos]]);
    NestedUnfold(code[pos..hi], p);
    OpeningNest(code, out, frames, pos, p);
    OpeningFinal(code, out, frames, pos, p);
    OpeningSlices(out, Flush(p), code[pos], f.start);
    FlushSize(NoRun);
  }

  lemma {:induction false} OpeningSlices(out: seq<Rec>, flush: seq<Rec>, loop: Rec, start: nat)
    requires start <= |out|
    ensures var all := out + (flush + [loop]);
            all[..|all|] == all && all[|all|..] == [] && all[..start] == out[..start]
            && all[start..|all| - 1] == out[start..] + flush
    ensures forall x: seq<Rec> :: [] + x == x
  {}

  /** The loops with the one that is opened. */
  lemma {:induction false} OpeningNest(code: seq<Rec>, out: seq<Rec>, frames: seq<Opened>, pos: nat, p: Pending)
    requires Compiling(code, out, frames, pos, p) && pos + 1 < |code| && code[pos].Loop?
    ensures var all := out + (Flush(p) + [code[pos]]);
            Nest(code, all, frames + [Opened(|all|, pos + 1, pos + code[pos].items)], pos + 1)
  {
    hide First, TM, Run, WF, Opt, Wrap, Flush, Final;
    AtLoop(code, out, frames, pos, p);
    var n, f := code[pos].items, Top(frames);
    var all := out + (Flush(p) + [code[pos]]);
    var frames' := frames + [Opened(|all|, pos + 1, pos + n)];
    assert Outer(frames') == frames && Top(frames') == Opened(|all|, pos + 1, pos + n);
    OpeningSlices(out, Flush(p), code[pos], f.start);
    NestAt(code, out[..f.start], frames, pos, pos + n + 1, []);
    hide Nest;
    NestOpened(code, all, frames, pos, n, f);
  }

  lemma {:induction false} NestOpened(code: seq<Rec>, all: seq<Rec>, frames: seq<Opened>, pos: nat, n: nat, f: Opened)
    requires |frames| >= 1 && Top(frames) == f && f.start < |all| && pos + n < |code|
    requires all[|all| - 1] == code[pos] && code[pos].Loop? && code[pos + n].EndLoop? && 1 <= n
    requires WF(code[pos + 1..pos + n])
    requires Nest(code, all[..f.start], frames, pos + n + 1)
    ensures Nest(code, all, frames + [Opened(|all|, pos + 1, pos + n)], pos + 1)
  {
    hide WF, TM, First, Run;
    var frames' := frames + [Opened(|all|, pos + 1, pos + n)];
    assert Outer(frames') == frames && Top(frames') == Opened(|all|, pos + 1, pos + n);
  }

  /** What they make of the body that is opened. */
  lemma {:induction false} OpeningFinal(code: seq<Rec>, out: seq<Rec>, frames: seq<Opened>, pos: nat, p: Pending)
    requires Compiling(code, out, frames, pos, p) && pos + 1 < |code| && code[pos].Loop? && !code[pos].contiguous
    requires code[pos].items == 2 && code[pos + 1].Data? ==> !Strided(code[pos], code[pos + 1]) && code[pos].loops >= 3
    ensures |frames| >= 1 && pos + code[pos].items < |code| && WF(code[pos + 1..pos + code[pos].items])
    ensures var all := out + (Flush(p) + [code[pos]]);
            var frames' := frames + [Opened(|all|, pos + 1, pos + code[pos].items)];
            Nest(code, all, frames', pos + 1)
            && Final(code, all, frames', pos + 1, Opt(code[pos + 1..pos + code[pos].items], NoRun))
              == Opt(Body(code), NoRun)
  {
    hide First, TM, Run, WF, Opt, Wrap, Flush, Nest;
    AtLoop(code, out, frames, pos, p);
    OpeningNest(code, out, frames, pos, p);
    var n, f := code[pos].items, Top(frames);
    var hi := f.hi;
    var all := out + (Flush(p) + [code[pos]]);
    var inner := Opt(code[pos + 1..pos + n], NoRun);
    NestedUnfold(code[pos..hi], p);
    var pre := out[..f.start];
    var frames' := frames + [Opened(|all|, pos + 1, pos + n)];
    assert Outer(frames') == frames && Top(frames') == Opened(|all|, pos + 1, pos + n);
    OpeningSlices(out, Flush(p), code[pos], f.start);
    NestAt(code, pre, frames, pos, pos + n + 1, out[f.start..] + Opt(code[pos..hi], p));
    var w := Wrap(code[pos], inner, code[pos + n]);
    FourParts(out[f.start..], Flush(p), w, Opt(code[pos + n + 1..hi], NoRun));
  }

  lemma {:induction false} FourParts(a: seq<Rec>, b: seq<Rec>, c: seq<Rec>, d: seq<Rec>)
    ensures a + (b + c + d) == a + b + c + d
  {}

  /** A LOOP record with its distance to END_LOOP filled in. */
  function Completed(r: Rec, items: nat): Rec
    requires r.Loop?
  {
    Loop(r.loops, items, r.extent, r.contiguous)
  }

  /** What is known when the body of an inner loop is finished. */
  lemma {:induction false} ClosingShape(code: seq<Rec>, out: seq<Rec>, frames: seq<Opened>, pos: nat, p: Pending)
    requires Compiling(code, out, frames, pos, p) && pos < |code| && code[pos].EndLoop? && |frames| >= 2
    ensures var f, g := Top(frames), Top(Outer(frames));
            && pos == f.hi && g.start < f.start <= |out| && 1 <= f.lo <= |code| && out[f.start - 1] == code[f.lo - 1]
            && code[f.lo - 1].Loop?
            && pos + 1 <= g.hi < |code| && WF(code[pos + 1..g.hi]) && |out| + |Flush(p)| <= pos
            && WF(Body(code)) && Nest(code, out[..g.start], Outer(frames), pos + 1)
  {
    hide First, TM, Run, WF, Opt, Wrap, Flush, Final;
    var f, g := Top(frames), Top(Outer(frames));
    AtEnd(code, out, frames, pos, p);
    assert out[..f.start][..g.start] == out[..g.start];
    TopOf(code, out[..g.start], Outer(frames), pos + 1);
  }

  /** The loop `f` with its finished body is part of the body `g` around it, and the result is right. */
  ghost predicate Taken(code: seq<Rec>, out: seq<Rec>, frames: seq<Opened>, pos: nat, p: Pending, f: Opened,
                        g: Opened) {
    && |frames| >= 2 && pos < |code| && code[pos].EndLoop? && g.start < f.start <= |out| && 1 <= f.lo <= |code|
    && code[f.lo - 1].Loop?
    && pos + 1 <= g.hi < |code| && WF(code[pos + 1..g.hi]) && WF(Body(code))
    && Nest(code, out[..g.start], Outer(frames), pos + 1)
    && Final(code, out[..g.start], Outer(frames), pos + 1,
             out[..f.start][g.start..f.start - 1] + Wrap(code[f.lo - 1], out[f.start..] + Flush(p), code[pos])
             + Opt(code[pos + 1..g.hi], NoRun)) == Opt(Body(code), NoRun)
  }

  /** The loop around the finished body takes it in. */
  lemma {:induction false} Closing(code: seq<Rec>, out: seq<Rec>, frames: seq<Opened>, pos: nat, p: Pending)
    requires Compiling(code, out, frames, pos, p) && pos < |code| && code[pos].EndLoop? && |frames| >= 2
    ensures Taken(code, out, frames, pos, p, Top(frames), Top(Outer(frames)))
  {
    hide First, TM, Run, WF, Opt, Wrap, Flush;
    var f, g := Top(frames), Top(Outer(frames));
    ClosingShape(code, out, frames, pos, p);
    AtEnd(code, out, frames, pos, p);
    assert out[..f.start][..g.start] == out[..g.start];
  }

  /** Closing a loop: the pending run and the new END_LOOP are emitted, the LOOP record is completed. */
  lemma {:induction false} StepClose(code: seq<Rec>, out: seq<Rec>, frames: seq<Opened>, pos: nat, p: Pending)
    requires Compiling(code, out, frames, pos, p) && pos < |code| && code[pos].EndLoop? && |frames| >= 2
    ensures 1 <= Top(frames).start <= |out| && out[Top(frames).start - 1].Loop?
    ensures var start := Top(frames).start;
            var n := |out + Flush(p)| - start + 1;
            Compiling(code,
                      (out + (Flush(p) + [EndLoop(n, code[pos].size, code[pos].first)]))[start - 1 :=
                                                                                           Completed(out[start - 1],
                                                                                                     n)],
                      Outer(frames), pos + 1, NoRun)
  {
    hide First, TM, Run, WF, Opt, Wrap, Nest, Final, Completed;
    ClosingShape(code, out, frames, pos, p);
    var f, g := Top(frames), Top(Outer(frames));
    Closing(code, out, frames, pos, p);
    var n := |out[f.start..] + Flush(p)| + 1;
    var all := (out + (Flush(p) + [EndLoop(n, code[pos].size, code[pos].first)]))[f.start - 1 :=
                                                                                    Completed(out[f.start - 1], n)];
    CloseSlices(out, Flush(p), code[f.lo - 1], code[pos], f.start, g.start);
    FlushSize(NoRun);
  }

  lemma {:induction false} CloseSlices(out: seq<Rec>, flush: seq<Rec>, loop: Rec, end: Rec, start: nat, outer: nat)
    requires outer < start <= |out| && out[start - 1] == loop && loop.Loop? && end.EndLoop?
    ensures var n := |out + flush| - start + 1;
            var all := (out + (flush + [EndLoop(n, end.size, end.first)]))[start - 1 := Completed(loop, n)];
            && all[..outer] == out[..outer] == out[..start][..outer]
            && all[outer..] == out[..start][outer..start - 1] + Wrap(loop, out[start..] + flush, end)
  {}

  /** At an END_LOOP record the innermost body is finished. */
  lemma {:induction false} AtEnd(code: seq<Rec>, out: seq<Rec>, frames: seq<Opened>, pos: nat, p: Pending)
    requires Compiling(code, out, frames, pos, p) && pos < |code| && code[pos].EndLoop?
    ensures pos == Top(frames).hi && Opt(code[pos..Top(frames).hi], p) == Flush(p)
  {
    TopOf(code, out[..Top(frames).start], frames, pos);
    assert code[pos..Top(frames).hi] == [];
  }

  /** At the last END_LOOP the whole description is compiled. */
  lemma {:induction false} StepEnd(code: seq<Rec>, out: seq<Rec>, frames: seq<Opened>, pos: nat, p: Pending)
    requires Compiling(code, out, frames, pos, p) && pos < |code| && code[pos].EndLoop? && |frames| == 1
    ensures pos == |code| - 1
    ensures Compiled(code, out + (Flush(p) + [EndLoop(|out + Flush(p)| + 2, code[pos].size, code[pos].first)]))
  {
    AtEnd(code, out, frames, pos, p);
    hide First, TM, Run, WF, Opt;
    assert out[0..] == out;
  }

  lemma {:induction false} CompiledSize(code: seq<Rec>, out: seq<Rec>)
    requires Compiled(code, out)
    ensures 1 <= |out| <= |code|
  {
    hide WF, Opt;
  }

  /** The pending run may be emitted before a loop that is not contiguous. */
  lemma {:induction false} FlushFirst(code: seq<Rec>, out: seq<Rec>, frames: seq<Opened>, pos: nat, p: Pending)
    requires Compiling(code, out, frames, pos, p) && pos < |code| && code[pos].Loop? && !code[pos].contiguous
    ensures Compiling(code, out + Flush(p), frames, pos, NoRun)
  {
    AtLoop(code, out, frames, pos, p);
    FlushOpt(code[pos..Top(frames).hi], p);
    hide Nest, Final, First, TM, Run, WF, Opt;
    Advance(code, out, frames, pos, p, Flush(p), pos, NoRun);
  }

  lemma {:induction false} FlushOpt(c: seq<Rec>, p: Pending)
    requires WF(c) && c != [] && c[0].Loop? && !c[0].contiguous
    ensures Opt(c, p) == Flush(p) + Opt(c, NoRun)
  {
    LoopHead(c);
    assert Flush(NoRun) == [];
    var items := c[0].items;
    var rest := Opt(c[items + 1..], NoRun);
    hide TM, First, Run, WF, Flush;
    if items == 2 && c[1].Data? && Strided(c[0], c[1]) {
      Attach(Flush(p), [Data(c[1].typ, c[0].loops, c[1].disp, c[0].extent, false)], rest);
    } else if items == 2 && c[1].Data? && c[0].loops < 3 {
      Attach(Flush(p), Copies(c[1], c[0].loops, c[0].extent), rest);
    } else {
      NestedUnfold(c, p);
      NestedUnfold(c, NoRun);
      Attach(Flush(p), Wrap(c[0], Opt(c[1..items], NoRun), c[items]), rest);
    }
  }

  lemma {:induction false} Attach(a: seq<Rec>, b: seq<Rec>, c: seq<Rec>)
    ensures a + b + c == a + ([] + b + c)
  {}

  lemma {:induction false} GappedIs(out: seq<Rec>, p: Pending, loop: Rec, end: Rec, first: int)
    requires loop.Loop? && end.EndLoop? && loop.loops >= 1
    ensures out + GappedLoop(p, loop, end, first)
         == out + Joined(p, end, first)
            + [Loop(Repetitions(p, loop, first), 2, loop.extent, loop.contiguous),
               Data(DT_BYTE, end.size, first, 1, true),
               EndLoop(2, end.size, end.first)]
  {
    hide Joined, Repetitions;
  }

  lemma {:induction false} AddsOne(out: seq<Rec>, r: Rec)
    ensures out + ([] + [r]) == out + [r]
  {}

  lemma {:induction false} StartsMore(frames: seq<Opened>, f: Opened)
    requires |frames| >= 1
    ensures Starts(frames + [f]) == Starts(frames) + [f.start]
  {}

  lemma {:induction false} StackTop(frames: seq<Opened>)
    requires |frames| >= 1
    ensures |Starts(frames)| == |frames|
    ensures Starts(frames)[|frames| - 1] == (if |frames| == 1 then -1 else Top(frames).start)
    ensures |frames| >= 2 ==> Starts(frames)[..|frames| - 1] == Starts(Outer(frames))
  {}

  // ----- how high the stack gets -----

  /** The bodies that are being compiled, as `Nesting.Reach` wants them. */
  ghost function Bodies(frames: seq<Opened>): (b: seq<(int, int)>)
    ensures |b| == |frames|
    ensures forall k :: 0 <= k < |frames| ==> b[k] == (frames[k].lo, frames[k].hi)
  {
    seq(|frames|, k requires 0 <= k < |frames| => (frames[k].lo, frames[k].hi))
  }

  /** The stack has been `deepest` entries high; together with what is still to come that is one entry
      more than the loops of the description that the compiler opens are nested. */
  ghost predicate Measured(code: seq<Rec>, frames: seq<Opened>, pos: nat, deepest: nat)
    requires |code| >= 1
  {
    && |frames| <= deepest
    && N.Higher(deepest, N.Reach(N.Compiler, code, Bodies(frames), pos)) == 1 + N.Depth(N.Compiler, Body(code))
  }

  lemma {:induction false} MeasuredBegin(code: seq<Rec>)
    requires |code| >= 1
    ensures Measured(code, [Opened(0, 0, |code| - 1)], 0, 1)
  {
    N.ReachAll(N.Compiler, code);
    assert Bodies([Opened(0, 0, |code| - 1)]) == [(0, |code| - 1)];
    hide N.Depth, N.Reach;
  }

  /** Data records and loops that are rewritten on the spot do not touch the stack. */
  lemma {:induction false} MeasuredPast(code: seq<Rec>, frames: seq<Opened>, pos: nat, next: nat, deepest: nat)
    requires |code| >= 1 && Measured(code, frames, pos, deepest) && |frames| > 0
    requires pos <= next <= Top(frames).hi <= |code|
    requires N.Depth(N.Compiler, code[next..Top(frames).hi]) == N.Depth(N.Compiler, code[pos..Top(frames).hi])
    ensures Measured(code, frames, next, deepest)
  {
    hide N.Depth, N.Reach, N.Higher;
    assert Bodies(frames)[|frames| - 1].1 == Top(frames).hi;
    N.ReachPast(N.Compiler, code, Bodies(frames), pos, next);
  }

  lemma {:induction false} DataRun(code: seq<Rec>, pos: nat, next: nat, hi: nat)
    requires pos <= next <= hi <= |code| && forall k :: pos <= k < next ==> code[k].Data?
    ensures N.Depth(N.Compiler, code[next..hi]) == N.Depth(N.Compiler, code[pos..hi])
    decreases next - pos
  {
    hide N.Depth;
    if pos < next {
      N.DepthAt(N.Compiler, code, pos, hi);
      DataRun(code, pos + 1, next, hi);
    }
  }

  lemma {:induction false} LoopPast(code: seq<Rec>, pos: nat, hi: nat)
    requires pos < hi <= |code| && code[pos].Loop? && 2 <= code[pos].items < hi - pos && code[pos..hi] != []
    requires N.Treats(N.Compiler, code[pos..hi]) == N.Past
    ensures N.Depth(N.Compiler, code[pos + code[pos].items + 1..hi]) == N.Depth(N.Compiler, code[pos..hi])
  {
    N.DepthAt(N.Compiler, code, pos, hi);
    hide N.Depth;
  }

  /** What the compiler does with the loop at `pos`. */
  lemma {:induction false} LoopTreated(code: seq<Rec>, out: seq<Rec>, frames: seq<Opened>, pos: nat, p: Pending)
    requires Compiling(code, out, frames, pos, p) && pos < |code| && code[pos].Loop?
    ensures |frames| > 0
    ensures var hi, n := Top(frames).hi, code[pos].items;
            && 2 <= n && pos + n < hi < |code| && code[pos..hi] != []
            && (N.Treats(N.Compiler, code[pos..hi]) == N.Past <==>
                  code[pos].contiguous
                  || (n == 2 && code[pos + 1].Data? && (Strided(code[pos], code[pos + 1]) || code[pos].loops < 3)))
            && (N.Treats(N.Compiler, code[pos..hi]) != N.Past ==> N.Treats(N.Compiler, code[pos..hi]) == N.Into)
  {
    AtLoop(code, out, frames, pos, p);
    hide WF, Compiling, First, TM, Run;
  }

  /** A loop that needs no entry is passed. */
  lemma {:induction false} MeasuredLoop(code: seq<Rec>, out: seq<Rec>, frames: seq<Opened>, pos: nat, p: Pending,
                                        deepest: nat)
    requires Compiling(code, out, frames, pos, p) && pos < |code| && code[pos].Loop? && |code| >= 1
    requires code[pos].contiguous
             || (code[pos].items == 2 && |code| > pos + 1 && code[pos + 1].Data?
                 && (Strided(code[pos], code[pos + 1]) || code[pos].loops < 3))
    requires Measured(code, frames, pos, deepest)
    ensures Measured(code, frames, pos + code[pos].items + 1, deepest)
  {
    hide *;
    LoopTreated(code, out, frames, pos, p);
    LoopPast(code, pos, Top(frames).hi);
    MeasuredPast(code, frames, pos, pos + code[pos].items + 1, deepest);
  }

  /** Opening a loop. */
  lemma {:induction false} MeasuredInto(code: seq<Rec>, frames: seq<Opened>, pos: nat, start: nat, deepest: nat)
    requires |code| >= 1 && Measured(code, frames, pos, deepest) && |frames| > 0 && pos < Top(frames).hi <= |code|
    requires code[pos].Loop? && 2 <= code[pos].items < Top(frames).hi - pos && code[pos..Top(frames).hi] != []
    requires N.Treats(N.Compiler, code[pos..Top(frames).hi]) == N.Into
    ensures Measured(code, frames + [Opened(start, pos + 1, pos + code[pos].items)], pos + 1,
                     N.Higher(deepest, |frames| + 1))
  {
    hide N.Depth, N.Treats;
    var more := frames + [Opened(start, pos + 1, pos + code[pos].items)];
    assert Bodies(more) == Bodies(frames) + [(pos + 1, pos + code[pos].items)];
    assert Bodies(frames)[|frames| - 1].1 == Top(frames).hi;
    N.ReachInto(N.Compiler, code, Bodies(frames), pos);
    AtLeast(N.Compiler, code, Bodies(more), pos + 1);
    hide N.Reach;
  }

  lemma {:induction false} AtLeast(u: N.User, code: seq<Rec>, bodies: seq<(int, int)>, pos: int)
    ensures N.Reach(u, code, bodies, pos) >= |bodies|
  {
    hide N.Depth;
  }

  /** Closing one. */
  lemma {:induction false} MeasuredEnd(code: seq<Rec>, frames: seq<Opened>, deepest: nat)
    requires |code| >= 1 && |frames| > 0 && Measured(code, frames, Top(frames).hi, deepest) && Top(frames).hi <= |code|
    ensures Measured(code, Outer(frames), Top(frames).hi + 1, deepest)
  {
    hide N.Depth;
    assert Bodies(frames)[..|frames| - 1] == Bodies(Outer(frames));
    assert Bodies(frames)[|frames| - 1].1 == Top(frames).hi;
    N.ReachEnd(N.Compiler, code, Bodies(frames));
    hide N.Reach;
  }

  /** When all bodies are closed, the height of the stack is known. */
  lemma {:induction false} MeasuredAll(code: seq<Rec>, pos: nat, deepest: nat)
    requires |code| >= 1 && Measured(code, [], pos, deepest)
    ensures deepest == 1 + N.Depth(N.Compiler, Body(code))
  {
    hide N.Depth;
  }

  // ----- the compiler -----

  /** The output positions that the library keeps on its stack; the outermost entry is -1. */
  ghost function Starts(frames: seq<Opened>): (s: seq<int>)
    ensures |s| == |frames|
  {
    seq(|frames|, k requires 0 <= k < |frames| => if k == 0 then -1 else frames[k].start)
  }

  /** GET_FIRST_NON_LOOP: the displacement of the first data record. */
  method GetFirstNonLoop(code: seq<Rec>, pos: nat, ghost hi: nat) returns (disp: int)
    requires pos < hi <= |code| && WF(code[pos..hi])
    ensures disp == First(code[pos..hi])
  {
    var i := pos;
    ghost var end := hi;
    hide WF, First, TM, Run;
    HeadOf(code, i, end, hi);
    while code[i].Loop?
      invariant pos <= i < end <= hi && WF(code[i..end]) && !code[i].EndLoop?
      invariant First(code[pos..hi]) == First(code[i..hi])
      decreases hi - i
    {
      HeadOf(code, i, end, hi);
      end := i + code[i].items;
      i := i + 1;
      HeadOf(code, i, end, hi);
    }
    HeadOf(code, i, end, hi);
    disp := code[i].disp;
  }

  /** The first record of a stretch, and of the body if it is a loop. */
  lemma {:induction false} HeadOf(code: seq<Rec>, i: nat, end: nat, hi: nat)
    requires i < end <= hi <= |code| && WF(code[i..end])
    ensures !code[i].EndLoop?
    ensures code[i].Data? ==> First(code[i..hi]) == code[i].disp
    ensures code[i].Loop? ==>
              && 2 <= code[i].items < end - i && WF(code[i + 1..i + code[i].items])
              && First(code[i..hi]) == First(code[i + 1..hi])
  {
    Rest(code, i, end, 1);
    Rest(code, i, hi, 1);
    if code[i].Loop? && code[i].items <= end - i { Rest(code, i, end, code[i].items); }
    assert code[i..end][0] == code[i] && code[i..hi][0] == code[i];
    hide TM, Run;
  }

  /** Everything the pass knows between two records. */
  ghost predicate State(code: seq<Rec>, out: seq<Rec>, stack: seq<int>, frames: seq<Opened>, pos: nat, p: Pending) {
    && |stack| == |frames|
    && if |frames| == 0 then Compiled(code, out) else stack == Starts(frames) && Compiling(code, out, frames, pos, p)
  }

  /** One run of the compiler; its fields are the variables of the loop. */
  class Pass {
    const code: seq<Rec>
    const desc: array<Rec>
    var nbElems: nat
    var pos: nat
    var stack: seq<int>
    var lastType: Basic
    var lastLength: nat
    var lastDisp: int
    var lastExtent: int
    ghost var frames: seq<Opened>
    ghost var deepest: nat      // how many entries the stack has held

    ghost predicate Valid()
      reads this, desc
    {
      && |code| >= 1 && desc.Length == 2 * (|code| - 1) + 1 && nbElems <= desc.Length && pos <= |code|
      && State(code, desc[..nbElems], stack, frames, pos, Last())
    }

    function Last(): Pending
      reads `lastType, `lastLength, `lastDisp, `lastExtent
    {
      AsPending(lastType, lastLength, lastDisp, lastExtent)
    }

    /** The pass is about to read a record, and there is room for what it may emit. */
    ghost predicate Reading()
      reads this, desc
    {
      && pos < |code| && nbElems + |Flush(Last())| <= pos && |frames| > 0 && desc.Length == 2 * (|code| - 1) + 1
      && stack == Starts(frames) && Compiling(code, desc[..nbElems], frames, pos, Last())
    }

    constructor (code: seq<Rec>)
      requires Committed(code)
      ensures Valid() && fresh(desc) && this.code == code && |stack| == 1
      ensures Measured(code, frames, pos, deepest)
    {
      this.code := code;
      desc := new Rec[2 * (|code| - 1) + 1];
      nbElems, pos, stack, deepest := 0, 0, [-1], 1;
      lastType, lastLength, lastDisp, lastExtent := DT_BYTE, 0, 0, 1;
      frames := [Opened(0, 0, |code| - 1)];
      new;
      Begin(code);
      MeasuredBegin(code);
      hide WF, Compiling, TM, Run, Measured;
      assert desc[..0] == [];
    }

    method Emit(r: Rec)
      requires nbElems < desc.Length
      modifies this`nbElems, desc
      ensures nbElems == old(nbElems) + 1 && desc[..nbElems] == old(desc[..nbElems]) + [r]
    {
      desc[nbElems] := r;
      nbElems := nbElems + 1;
    }

    /** The pending run is emitted, if there is one. */
    method EmitRun()
      requires nbElems + |Flush(Last())| <= desc.Length
      modifies this`nbElems, this`lastLength, this`lastDisp, desc
      ensures nbElems == old(nbElems + |Flush(Last())|) && lastLength == 0
      ensures desc[..nbElems] == old(desc[..nbElems] + Flush(Last()))
    {
      if lastLength != 0 {
        Emit(Data(lastType, lastLength, lastDisp, lastExtent, true));
        lastDisp := lastDisp + lastLength;
        lastLength := 0;
      }
    }

    /** The copies of a small loop's record. */
    method EmitCopies(elem: Rec, n: nat, extent: int)
      requires nbElems + n <= desc.Length && elem.Data?
      modifies this`nbElems, desc
      ensures nbElems == old(nbElems) + n && desc[..nbElems] == old(desc[..nbElems]) + Copies(elem, n, extent)
    {
      var disp := elem.disp;
      for i := 0 to n
        invariant nbElems == old(nbElems) + i
        invariant desc[..nbElems] + Copies(elem.(disp := disp), n - i, extent) == old(desc[..nbElems])
                     + Copies(elem, n, extent)
      {
        ghost var before := desc[..nbElems];
        Emit(Data(elem.typ, elem.count, disp, elem.extent, elem.contiguous));
        disp := disp + extent;
        assert before + [elem.(disp := disp - extent)] + Copies(elem.(disp := disp), n - i - 1, extent)
            == before + ([elem.(disp := disp - extent)] + Copies(elem.(disp := disp), n - i - 1, extent));
      }
    }

    /** A run of data records is merged into the pending run as far as it continues it. */
    method TakeData()
      requires Reading() && code[pos].Data?
      modifies this`nbElems, this`pos, this`lastType, this`lastLength, this`lastDisp, this`lastExtent, desc
      ensures Reading() && pos > old(pos) && forall k :: old(pos) <= k < pos ==> code[k].Data?
    {
      hide *;
      ReadingIs();
      while code[pos].Data?
        invariant pos < |code| && Reading() && pos >= old(pos) && (pos == old(pos) ==> code[pos].Data?)
        invariant forall k :: old(pos) <= k < pos ==> code[k].Data?
        decreases |code| - pos
      {
        TakeOne();
        ReadingIs();
      }
    }

    method TakeOne()
      requires Reading() && code[pos].Data?
      modifies this`nbElems, this`pos, this`lastType, this`lastLength, this`lastDisp, this`lastExtent, desc
      ensures Reading() && pos == old(pos) + 1
    {
      hide *;
      ReadingIs();
      ghost var p, out := Last(), desc[..nbElems];
      StepData(code, out, frames, pos, p);
      DataAt(code, out, frames, pos, p);
      Merge(code[pos]);
      assert desc[..nbElems] == out + if Merges(p, code[pos]) then [] else Flush(p);
      pos := pos + 1;
      MayRead(code, desc[..nbElems], frames, pos, Last());
      ReadingIs();
    }

    /** A data record is merged into the pending run, or replaces it. */
    method Merge(r: Rec)
      requires r.Data? && r.typ.size >= 1 && r.count >= 1 && nbElems + |Flush(Last())| <= desc.Length
      modifies this`nbElems, this`lastType, this`lastLength, this`lastDisp, this`lastExtent, desc
      ensures nbElems <= desc.Length && Last() == AddData(old(Last()), r)
      ensures desc[..nbElems] == old(desc[..nbElems]) + if Merges(old(Last()), r) then [] else Flush(old(Last()))
    {
      ghost var p, out := Last(), desc[..nbElems];
      Positive(r.count, r.typ.size);
      var continuity := lastDisp + lastLength * lastType.size == r.disp;
      if r.contiguous && continuity && r.extent == r.typ.size {
        if r.typ == lastType {
          lastLength, lastExtent := lastLength + r.count, r.extent;
        } else if lastLength == 0 {
          lastType, lastLength, lastExtent := r.typ, r.count, r.extent;
        } else {
          lastLength := lastLength * lastType.size + r.count * r.typ.size;
          lastType, lastExtent := DT_BYTE, 1;
        }
      } else {
        if lastLength != 0 {
          Emit(Data(lastType, lastLength, lastDisp, lastExtent, true));
        }
        lastDisp, lastLength, lastExtent, lastType := r.disp, r.count, r.extent, r.typ;
      }
    }

    /** A contiguous loop without gaps joins the pending run. */
    method TakeRun(first: int)
      requires Reading() && code[pos].Loop? && pos + code[pos].items < |code|
      requires var end := code[pos + code[pos].items];
               end.EndLoop? && end.first == first && code[pos].contiguous && code[pos].extent == end.size
      modifies this`nbElems, this`pos, this`lastType, this`lastLength, this`lastDisp, this`lastExtent, desc
      ensures Reading() && pos == old(pos + code[pos].items + 1)
    {
      hide Compiling, AddRun, Flush, Continues, AsPending;
      ghost var out := desc[..nbElems];
      var loop, end := code[pos], code[pos + code[pos].items];
      LoopAt(code, out, frames, pos, Last());
      Positive(loop.loops, end.size);
      StepRun(code, out, frames, pos, Last());
      JoinRun(first, loop.loops * end.size);
      pos := pos + loop.items + 1;
      MayRead(code, desc[..nbElems], frames, pos, Last());
    }

    /** A run of bytes joins the pending run or replaces it. */
    method JoinRun(first: int, bytes: nat)
      requires bytes >= 1 && nbElems + |Flush(Last())| <= desc.Length
      modifies this`nbElems, this`lastType, this`lastLength, this`lastDisp, this`lastExtent, desc
      ensures nbElems <= desc.Length && Last() == AddRun(old(Last()), first, bytes)
      ensures desc[..nbElems] == old(desc[..nbElems]) + if Continues(old(Last()), first) then [] else Flush(old(Last()))
    {
      var continuity := lastDisp + lastLength * lastType.size == first;
      if !continuity {
        if lastLength != 0 {
          Emit(Data(lastType, lastLength, lastDisp, lastExtent, true));
          lastLength := 0;
        }
        lastDisp := first;
      }
      lastLength := lastLength * lastType.size + bytes;
      lastType, lastExtent := DT_BYTE, 1;
    }

    /** The three records of a loop around one run of bytes. */
    method EmitByteLoop(counter: nat, loop: Rec, end: Rec, first: int)
      requires nbElems + 3 <= desc.Length && loop.Loop? && end.EndLoop?
      modifies this`nbElems, desc
      ensures nbElems == old(nbElems) + 3
      ensures desc[..nbElems] == old(desc[..nbElems])
            + [Loop(counter, 2, loop.extent, loop.contiguous), Data(DT_BYTE, end.size, first, 1, true),
               EndLoop(2, end.size, end.first)]
    {
      Emit(Loop(counter, 2, loop.extent, loop.contiguous));
      Emit(Data(DT_BYTE, end.size, first, 1, true));
      Emit(EndLoop(2, end.size, end.first));
    }

    /** A contiguous loop with gaps becomes a loop around one run of bytes. */
    method TakeGapped(first: int)
      requires Reading() && code[pos].Loop? && pos + code[pos].items < |code|
      requires var end := code[pos + code[pos].items];
               end.EndLoop? && end.first == first && code[pos].contiguous && code[pos].extent != end.size
      modifies this`nbElems, this`pos, this`lastType, this`lastLength, this`lastDisp, this`lastExtent, desc
      ensures Reading() && pos == old(pos + code[pos].items + 1)
    {
      hide *;
      ReadingIs();
      ghost var p, out := Last(), desc[..nbElems];
      var loop, end := code[pos], code[pos + code[pos].items];
      LoopAt(code, out, frames, pos, p);
      StepGapped(code, out, frames, pos, p);
      var counter := JoinFirst(loop, end, first);
      NothingLast();
      EmitByteLoop(counter, loop, end, first);
      GappedIs(out, p, loop, end, first);
      assert desc[..nbElems] == out + GappedLoop(p, loop, end, first);
      pos := pos + loop.items + 1;
      NothingLast();
      MayRead(code, desc[..nbElems], frames, pos, Last());
      ReadingIs();
    }

    /** The pending run is emitted; if the loop continues it, with the loop's first repetition. */
    method JoinFirst(loop: Rec, end: Rec, first: int) returns (counter: nat)
      requires nbElems + |Flush(Last())| <= desc.Length && loop.Loop? && end.EndLoop? && loop.loops >= 1
      requires end.size >= 1
      modifies this`nbElems, this`lastType, this`lastLength, this`lastDisp, this`lastExtent, desc
      ensures nbElems == old(nbElems + |Flush(Last())|) && lastLength == 0
      ensures counter == Repetitions(old(Last()), loop, first)
      ensures desc[..nbElems] == old(desc[..nbElems]) + Joined(old(Last()), end, first)
    {
      var continuity := lastDisp + lastLength * lastType.size == first;
      counter := loop.loops;
      if lastLength != 0 {
        if continuity {
          lastLength := lastLength * lastType.size + end.size;
          lastType, lastExtent := DT_BYTE, 1;
          counter := counter - 1;
        }
        EmitRun();
        lastType := DT_LOOP;
      }
    }

    /** A small loop around one basic element becomes a strided record. */
    method TakeStrided()
      requires Reading() && lastLength == 0 && pos + 2 < |code| && code[pos].Loop? && !code[pos].contiguous
      requires code[pos].items == 2 && code[pos + 1].Data? && Strided(code[pos], code[pos + 1])
      modifies this`nbElems, this`pos, desc
      ensures Reading() && pos == old(pos + code[pos].items + 1)
    {
      hide Compiling;
      var loop, elem := code[pos], code[pos + 1];
      StepStrided(code, desc[..nbElems], frames, pos, Last());
      LoopAt(code, desc[..nbElems], frames, pos, Last());
      Emit(Data(elem.typ, loop.loops, elem.disp, loop.extent, false));
      assert [] + [Data(elem.typ, loop.loops, elem.disp, loop.extent, false)]
               == [Data(elem.typ, loop.loops, elem.disp, loop.extent, false)];
      pos := pos + loop.items + 1;
    }

    /** A small loop with at most two repetitions is unrolled. */
    method TakeCopies()
      requires Reading() && lastLength == 0 && pos + 2 < |code| && code[pos].Loop? && !code[pos].contiguous
      requires code[pos].items == 2 && code[pos + 1].Data? && !Strided(code[pos], code[pos + 1]) && code[pos].loops < 3
      modifies this`nbElems, this`pos, desc
      ensures Reading() && pos == old(pos + code[pos].items + 1)
    {
      hide Compiling, Copies;
      var loop, elem := code[pos], code[pos + 1];
      StepCopies(code, desc[..nbElems], frames, pos, Last());
      LoopAt(code, desc[..nbElems], frames, pos, Last());
      EmitCopies(elem, loop.loops, loop.extent);
      assert [] + Copies(elem, loop.loops, loop.extent) == Copies(elem, loop.loops, loop.extent);
      pos := pos + loop.items + 1;
    }

    /** Any other loop is opened. */
    lemma {:induction false} ReadingIs()
      ensures Reading() <==>
                && pos < |code| && nbElems + |Flush(Last())| <= pos && |frames| > 0
                && desc.Length == 2 * (|code| - 1) + 1
                && stack == Starts(frames) && Compiling(code, desc[..nbElems], frames, pos, Last())
    {
      hide Compiling, Last, Flush;
    }

    method Open()
      requires Reading() && lastLength == 0 && pos + 2 < |code| && code[pos].Loop? && !code[pos].contiguous
      requires code[pos].items == 2 && code[pos + 1].Data? ==>
                 !Strided(code[pos], code[pos + 1]) && code[pos].loops >= 3
      modifies this`nbElems, this`pos, this`stack, this`frames, this`deepest, desc
      ensures Reading() && pos == old(pos) + 1 && deepest == N.Higher(old(deepest), |stack|)
      ensures old(pos + code[pos].items) < |code| && |frames| == old(|frames|) + 1
      ensures frames == old(frames) + [Opened(nbElems, pos, old(pos + code[pos].items))]
    {
      hide *;
      ReadingIs();
      NothingLast();
      ghost var out := desc[..nbElems];
      var loop := code[pos];
      LoopAt(code, out, frames, pos, Last());
      StepOpen(code, out, frames, pos, Last());
      Emit(loop);
      AddsOne(out, loop);
      StartsMore(frames, Opened(nbElems, pos + 1, pos + loop.items));
      frames := frames + [Opened(nbElems, pos + 1, pos + loop.items)];
      stack := stack + [nbElems];
      deepest := N.Higher(deepest, |stack|);
      pos := pos + 1;
      NothingLast();
      ReadingIs();
    }

    lemma {:induction false} NothingLast()
      requires lastLength == 0
      ensures Last() == NoRun && Flush(Last()) == [] && |Flush(NoRun)| == 0
    {}

    /** A loop that is not contiguous. */
    method TakeLoop()
      requires Reading() && code[pos].Loop? && !code[pos].contiguous
      modifies this, desc
      ensures Reading() && pos > old(pos)
      ensures old(Measured(code, frames, pos, deepest)) ==> Measured(code, frames, pos, deepest)
    {
      hide *;
      ReadingIs();
      ghost var p, out, fs, at, most := Last(), desc[..nbElems], frames, pos, deepest;
      LoopAt(code, out, fs, at, p);
      LoopTreated(code, out, fs, at, p);
      LastIs();
      var loop, elem := code[pos], code[pos + 1];
      if lastLength != 0 {
        FlushFirst(code, out, fs, at, p);
        EmitRun();
        lastType := DT_LOOP;
      }
      NothingLast();
      ReadingIs();
      if loop.items == 2 && elem.count == 1 && elem.extent == elem.typ.size {
        StridedIs(loop, elem);
        TakeStrided();
        if Measured(code, fs, at, most) { MeasuredLoop(code, out, fs, at, p, most); }
      } else if loop.items == 2 && loop.loops < 3 {
        StridedIs(loop, elem);
        TakeCopies();
        if Measured(code, fs, at, most) { MeasuredLoop(code, out, fs, at, p, most); }
      } else {
        StridedIs(loop, elem);
        Open();
        ReadingIs();
        if Measured(code, fs, at, most) { MeasuredInto(code, fs, at, nbElems, most); }
      }
    }

    lemma {:induction false} LastIs()
      ensures lastLength == 0 ==> Last() == NoRun && Flush(Last()) == []
      ensures lastLength != 0 ==> Last().Pend? && |Flush(Last())| == 1
    {}

    /** The LOOP record at `at` gets its number of records. */
    method Complete(at: nat, n: nat)
      requires at < nbElems <= desc.Length && desc[at].Loop?
      modifies desc
      ensures desc[..nbElems] == old(desc[..nbElems][at := Completed(desc[at], n)])
    {
      var loop := desc[at];
      desc[at] := Loop(loop.loops, n, loop.extent, loop.contiguous);
    }

    /** An END_LOOP: it is emitted with the new distance, which is also written to the LOOP record. */
    method TakeEnd()
      requires Reading() && code[pos].EndLoop?
      modifies this, desc
      ensures Valid() && pos == old(pos) + 1
      ensures old(Measured(code, frames, pos, deepest)) ==> Measured(code, frames, pos, deepest)
    {
      hide Compiling, Compiled, Completed, Starts, Flush, Measured, N.Treats, N.Depth, N.Reach, Opt, WF, Wrap;
      ghost var p, out, fs := Last(), desc[..nbElems], frames;
      StackTop(fs);
      EndAt(code, out, fs, pos, p);
      if Measured(code, fs, pos, deepest) { MeasuredEnd(code, fs, deepest); }
      if |fs| == 1 {
        StepEnd(code, out, fs, pos, p);
      } else {
        StepClose(code, out, fs, pos, p);
      }
      EmitRun();
      assert desc[..nbElems] == out + Flush(p);
      var index := stack[|stack| - 1];
      var n := nbElems - index + 1;
      Emit(EndLoop(n, code[pos].size, code[pos].first));
      assert desc[..nbElems] == out + (Flush(p) + [EndLoop(n, code[pos].size, code[pos].first)]);
      stack := stack[..|stack| - 1];
      if |stack| > 0 {
        Complete(index - 1, n);
      }
      frames := Outer(frames);
      pos := pos + 1;
    }
  }

  lemma {:induction false} StridedIs(loop: Rec, elem: Rec)
    requires loop.Loop?
    ensures elem.Data? ==> (Strided(loop, elem) <==> elem.count == 1 && elem.extent == elem.typ.size)
  {}

  /** An END_LOOP is the end of the innermost body. */
  lemma {:induction false} EndAt(code: seq<Rec>, out: seq<Rec>, frames: seq<Opened>, pos: nat, p: Pending)
    requires Compiling(code, out, frames, pos, p) && pos < |code| && code[pos].EndLoop?
    ensures |frames| > 0 && pos == Top(frames).hi
  {
    TopOf(code, out[..Top(frames).start], frames, pos);
    hide Nest, Final, Opt, TM;
  }

  /** `ompi_ddt_optimize_short`; `deepest` is the number of stack entries that it uses. */
  method OptimizeShort(code: seq<Rec>) returns (desc: array<Rec>, used: nat, ghost deepest: nat)
    requires Committed(code)
    ensures fresh(desc) && desc.Length == 2 * (|code| - 1) + 1
    ensures used < |code| && used < desc.Length && Compiled(code, desc[..used + 1])
    ensures deepest == 1 + N.Depth(N.Compiler, Body(code))
  {
    hide Compiling, WF, Compiled, Measured, N.Depth, N.Treats, Opt, First, Flush;
    var pass := new Pass(code);
    desc := pass.desc;
    while |pass.stack| > 0
      invariant pass.Valid() && pass.code == code && pass.desc == desc
      invariant Measured(code, pass.frames, pass.pos, pass.deepest)
      invariant fresh(pass) && fresh(desc)
      decreases |code| - pass.pos
    {
      MayRead(code, desc[..pass.nbElems], pass.frames, pass.pos, pass.Last());
      ghost var at, out, p := pass.pos, desc[..pass.nbElems], pass.Last();
      match code[pass.pos]
      case EndLoop(_, _, _) =>
        pass.TakeEnd();
      case Loop(_, _, _, _) =>
        LoopAt(code, desc[..pass.nbElems], pass.frames, pass.pos, pass.Last());
        var loop := code[pass.pos];
        var end := code[pass.pos + loop.items];
        var first := GetFirstNonLoop(code, pass.pos, Top(pass.frames).hi);
        if !loop.contiguous {
          pass.TakeLoop();
        } else {
          MeasuredLoop(code, out, pass.frames, at, p, pass.deepest);
          if loop.extent == end.size {
            pass.TakeRun(first);
          } else {
            pass.TakeGapped(first);
          }
        }
      case Data(_, _, _, _, _) =>
        pass.TakeData();
        MeasuredRun(code, desc[..pass.nbElems], pass.frames, at, pass.pos, pass.Last(), pass.deepest);
    }
    CompiledSize(code, desc[..pass.nbElems]);
    MeasuredAll(code, pass.pos, pass.deepest);
    used, deepest := pass.nbElems - 1, pass.deepest;
  }

  lemma {:induction false} MeasuredRun(code: seq<Rec>, out: seq<Rec>, frames: seq<Opened>, pos: nat, next: nat,
                                       p: Pending, deepest: nat)
    requires Compiling(code, out, frames, next, p) && pos <= next && |code| >= 1 && next < |code|
    requires forall k :: pos <= k < next ==> code[k].Data?
    requires Measured(code, frames, pos, deepest)
    ensures Measured(code, frames, next, deepest)
  {
    TopOf(code, out[..Top(frames).start], frames, next);
    hide Compiling, Measured;
    DataRun(code, pos, next, Top(frames).hi);
    MeasuredPast(code, frames, pos, next, deepest);
  }
}
