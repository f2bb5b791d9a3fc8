/** The convertor: the resumable machine that packs, unpacks and seeks. */
module Convertors {
  import opened Typemap
  import opened Memory
  import opened ConvertorState
  import opened Canonical
  import opened SplitPoint
  import opened Progress
  import opened ReadExtent

  lemma {:induction false} ElemsBounds(m: int, base: int, size: nat, n: nat, i: nat, disp: int, extent: int)
    requires InBounds(m, base, Elems(size, n, disp, extent)) && i < n && size > 0
    ensures InBounds(m, base, Elems(size, i, disp, extent)) && InBounds(m, base, Run(disp + i * extent, size))
    ensures 0 <= base + disp + i * extent && base + disp + i * extent + size <= m
    ensures InBounds(m, base, Elems(size, i + 1, disp, extent))
    ensures Elems(size, i + 1, disp, extent) == Elems(size, i, disp, extent) + Run(disp + i * extent, size)
  {
    ElemsSplit(size, i, n - i, disp, extent);
    ElemsSplit(size, i, 1, disp, extent);
    ElemsSplit(size, i + 1, n - i - 1, disp, extent);
    var d := disp + i * extent;
    assert Elems(size, 1, d, extent) == Run(d, size) + [] == Run(d, size);
    var all := Elems(size, n, disp, extent);
    assert Elems(size, i, disp, extent) == all[..|Elems(size, i, disp, extent)|];
    assert Elems(size, i + 1, disp, extent) == all[..|Elems(size, i + 1, disp, extent)|];
    assert Run(d, size) == Elems(size, i + 1, disp, extent)[|Elems(size, i, disp, extent)|..];
    RunBounds(m, base, d, size);
  }

  lemma {:induction false} FirstElems(m: int, base: int, size: nat, n: nat, i: nat, disp: int, extent: int)
    requires InBounds(m, base, Elems(size, n, disp, extent)) && i <= n
    ensures InBounds(m, base, Elems(size, i, disp, extent))
  {
    ElemsSplit(size, i, n - i, disp, extent);
    assert Elems(size, i, disp, extent) == Elems(size, n, disp, extent)[..|Elems(size, i, disp, extent)|];
  }

  lemma {:induction false} NoBlocks(m: seq<byte>, base: int, size: nat, disp: int, extent: int)
    ensures Elems(size, 0, disp, extent) == [] && InBounds(|m|, base, []) && Gather(m, base, []) == []
  {}

  lemma {:induction false} OneRun(m: int, base: int, size: nat, n: nat, disp: int)
    requires InBounds(m, base, Elems(size, n, disp, size)) && n >= 1 && size >= 1
    ensures 0 <= n * size && Elems(size, n, disp, size) == Run(disp, n * size) && InBounds(m, base, Run(disp, n * size))
    ensures 0 <= base + disp && base + disp + n * size <= m
  {
    ElemsRun(size, n, disp);
    MulMono(1, n, size);
    RunBounds(m, base, disp, n * size);
  }

  /** How many of `cnt` blocks of `size` bytes fit in `space` bytes. */
  ghost function Fitting(cnt: nat, size: nat, space: nat): int
    requires size >= 1
  {
    if cnt * size > space then space / size else cnt
  }

  lemma {:induction false} FittingBounds(cnt: nat, size: nat, space: nat)
    requires size >= 1
    ensures var k := Fitting(cnt, size, space);
            && 0 <= k <= cnt && 0 <= k * size <= space
            && (k < cnt ==> space < k * size + size)
  {
    MulMono(0, cnt, size);
    if cnt * size > space {
      var k := space / size;
      assert k * size <= space < k * size + size;
      if k >= cnt { MulMono(cnt, k, size); }
    }
  }

  lemma {:induction false} NothingYet(m: seq<byte>, base: int, whole: seq<int>, b: nat)
    requires b <= |whole|
    ensures whole[b..b] == [] && InBounds(|m|, base, whole[b..b]) && Gather(m, base, whole[b..b]) == []
  {}

  lemma {:induction false} GatherMore(m: seq<byte>, base: int, whole: seq<int>, a: nat, b: nat, c: nat)
    requires a <= b <= c <= |whole| && InBounds(|m|, base, whole[a..b]) && InBounds(|m|, base, whole[b..c])
    ensures InBounds(|m|, base, whole[a..c])
    ensures Gather(m, base, whole[a..c]) == Gather(m, base, whole[a..b]) + Gather(m, base, whole[b..c])
  {
    assert whole[a..c] == whole[a..b] + whole[b..c];
    GatherAppend(m, base, whole[a..b], whole[b..c]);
  }

  /** The packed bytes of an iovec: the first `lens[i]` bytes of every buffer. */
  ghost function Concat(iov: seq<array<byte>>, lens: seq<nat>): seq<byte>
    reads iov
    requires |lens| <= |iov| && forall i :: 0 <= i < |lens| ==> lens[i] <= iov[i].Length
  {
    if lens == [] then []
    else
      var n := |lens| - 1;
      Concat(iov[..n], lens[..n]) + iov[n][..lens[n]]
  }

  lemma {:induction false} ConcatSnoc(iov: seq<array<byte>>, lens: seq<nat>, i: nat, off: nat)
    requires |lens| == i < |iov| && (forall k :: 0 <= k < i ==> lens[k] <= iov[k].Length) && off <= iov[i].Length
    ensures Concat(iov[..i + 1], lens + [off]) == Concat(iov[..i], lens) + iov[i][..off]
  {
    assert iov[..i + 1][..i] == iov[..i] && (lens + [off])[..i] == lens;
  }

  function Least(a: int, b: int): int {
    if a < b then a else b
  }

  class Convertor {
    const desc: seq<Rec>      // the description in use, closed by a fake END_LOOP
    const receives: bool      // whether it is used to unpack
    const code: seq<Rec>      // the description as the functions in use read it
    const extent: int         // ub - lb of the datatype
    const size: nat           // bytes of one datatype
    const total: nat          // how many datatypes the message holds
    const mem: array<byte>    // user memory
    const base: int           // where displacement 0 lies in user memory
    const stack: array<Frame>
    var stackPos: int
    var bConverted: nat
    var partialLength: nat
    var completed: bool

    ghost function Whole(): seq<int>
      requires |code| > 0
    {
      WholeTM(code, total, extent)
    }

    /** What never changes: a well-formed description, memory for the whole typemap and a stack
        with room for the deepest loop nest, the fake loop and the saved position. */
    ghost predicate Setup() {
      && code == (if receives then Read(desc) else desc) && Committed(code) && size == |TM(Body(code), 0)|
      && InBounds(mem.Length, base, Whole())
      && (forall pos :: |Enclosing(code, pos)| + 2 <= stack.Length)
    }

    ghost function Frames(): seq<Frame>
      reads `stackPos, stack
      requires 0 <= stackPos < stack.Length
    {
      stack[..stackPos + 1]
    }

    /** A run is at record `pos` and the first `b` bytes of the message are done. */
    ghost predicate Running(pos: int, cnt: nat, src: int, b: nat)
      reads `stackPos, stack
    {
      && Setup() && 0 <= stackPos < stack.Length
      && Proper(code, extent, total, Frames(), pos, cnt, src, b)
    }

    /** The whole message is done: only the fake outermost loop is on the stack, at its END_LOOP. */
    ghost predicate Finished(pos: int, src: int)
      reads `stackPos, stack
    {
      && stackPos == 0 && stack.Length >= 2 && 1 <= |code| && pos == |code| - 1 && src == stack[0].disp
    }

    // ----- the control steps shared by pack, unpack and position -----

    /** Control steps lead away from the end of a body, or out of loops, or deeper into the description. */
    ghost function Ending(pos: int): nat {
      if 0 <= pos < |code| && code[pos].EndLoop? then 1 else 0
    }

    ghost function Steps(pos: int): (n: int)
      reads `stackPos, stack
      ensures n >= 0
    {
      if 0 <= stackPos < stack.Length && 0 <= pos < |code| && !code[pos].EndLoop? && Framed(code, Top(Frames()))
        && pos <= Hi(code, Top(Frames()))
      then Hi(code, Top(Frames())) - pos
      else if stackPos >= 0 then stackPos
      else 0
    }

    method PushStack(f: Frame)
      requires 0 <= stackPos && stackPos + 1 < stack.Length
      modifies stack, `stackPos
      ensures stackPos == old(stackPos) + 1
      ensures Frames() == old(Frames()) + [f]
    {
      stackPos := stackPos + 1;
      stack[stackPos] := f;
    }

    /** The end of a loop body: leave the loop, start its next repetition, or finish. */
    method CloseLoop(pos: int, cnt: nat, ghost src: int, ghost b: nat)
      returns (done: bool, pos': int, cnt': nat, src': int)
      requires Running(pos, cnt, src, b) && 0 <= pos < |code| && code[pos].EndLoop?
      modifies stack, `stackPos
      ensures done ==> b == |Whole()| && Finished(pos', src')
      ensures !done ==> Running(pos', cnt', src', b) && 0 <= pos' < |code| && cnt' == Counter(code[pos'])
      ensures !done ==> stackPos < old(stackPos) || (stackPos == old(stackPos) && !code[pos'].EndLoop?)
    {
      hide Proper, WholeTM, Enclosing, Committed, InBounds;
      ghost var fs := Frames();
      Place(code, extent, total, fs, pos, cnt, src, b);
      assert stack[stackPos] == Top(fs);
      stack[stackPos] := stack[stackPos].(count := stack[stackPos].count - 1);
      if stack[stackPos].count == 0 {
        Leave(code, extent, total, fs, pos, cnt, src, b);
        if stackPos == 0 {
          assert |Enclosing(code, pos)| + 2 <= stack.Length;
          OnlyOuter(fs, pos, cnt, src, b);
          return true, pos, cnt, stack[stackPos].disp;
        }
        stackPos := stackPos - 1;
        assert Frames() == Pop(fs);
        pos' := pos + 1;
      } else {
        Repeat(code, extent, total, fs, pos, cnt, src, b);
        pos' := stack[stackPos].index + 1;
        var e := if stack[stackPos].index == -1 then extent else code[stack[stackPos].index].extent;
        stack[stackPos] := stack[stackPos].(disp := stack[stackPos].disp + e);
        assert Frames() == Pop(fs) + [Frame(Top(fs).index, Top(fs).count - 1, Top(fs).disp + e)];
      }
      done, src', cnt' := false, stack[stackPos].disp, Counter(code[pos']);
    }

    lemma {:induction false} OnlyOuter(fs: seq<Frame>, pos: int, cnt: nat, src: int, b: nat)
      requires Proper(code, extent, total, fs, pos, cnt, src, b) && 0 <= pos < |code| && code[pos].EndLoop? && |fs| == 1
      ensures pos == |code| - 1
    {
      hide WF, TM, Iter, After, WholeTM, Cur, RemAt;
      AtEnd(code, extent, total, fs, pos, cnt, src);
    }

    /** Entering a loop, some repetitions of which may have been moved in one go already. */
    method OpenLoop(pos: int, cnt: nat, localDisp: int, ghost src: int, ghost b: nat)
      returns (pos': int, cnt': nat, src': int)
      requires Setup() && 0 <= stackPos < stack.Length && At(code, extent, total, Frames(), pos, cnt, src, b)
      requires 0 <= pos < |code| && code[pos].Loop? && src == stack[stackPos].disp + localDisp
      modifies stack, `stackPos
      ensures Running(pos', cnt', src', b) && 0 <= pos' < |code| && cnt' == Counter(code[pos'])
      ensures !code[pos'].EndLoop? && Framed(code, Top(Frames())) && old(Framed(code, Top(Frames())))
      ensures Hi(code, Top(Frames())) - pos' < old(Hi(code, Top(Frames()))) - pos
    {
      hide Proper, At, WholeTM, Enclosing, Committed, InBounds;
      ghost var fs := Frames();
      Enter(code, extent, total, fs, pos, cnt, src, b);
      Place(code, extent, total, fs + [Frame(pos, cnt, src)], pos + 1, Counter(code[pos + 1]), src, b);
      assert |Enclosing(code, pos + 1)| + 2 <= stack.Length;
      PushStack(Frame(pos, cnt, stack[stackPos].disp + localDisp));
      pos', cnt', src' := pos + 1, Counter(code[pos + 1]), stack[stackPos].disp;
    }

    /** The elements that a data record has left lie in user memory. */
    lemma {:induction false} DataInMemory(pos: int, cnt: nat, src: int, b: nat)
      requires Running(pos, cnt, src, b) && 0 <= pos < |code| && code[pos].Data?
      ensures InBounds(mem.Length, base, Elems(code[pos].typ.size, cnt, src + code[pos].disp, code[pos].extent))
    {
      hide Proper, WholeTM, Enclosing, Committed, Elems;
      MoveData(code, extent, total, Frames(), pos, cnt, src, b, cnt);
    }

    /** So do the repetitions that a contiguous loop has left. */
    lemma {:induction false} LoopInMemory(pos: int, cnt: nat, src: int, b: nat)
      requires Running(pos, cnt, src, b) && 0 <= pos < |code| && code[pos].Loop? && code[pos].contiguous
      ensures pos + code[pos].items < |code| && code[pos + code[pos].items].EndLoop?
      ensures InBounds(mem.Length, base, Elems(code[pos + code[pos].items].size, cnt,
                                               src + code[pos + code[pos].items].first, code[pos].extent))
    {
      hide Proper, WholeTM, Enclosing, Committed, Elems;
      AllLoops(code, extent, total, Frames(), pos, cnt, src, b);
    }

    // ----- packing -----

    /** memcpy from user memory to the packed buffer. */
    method CopyOut(dest: array<byte>, off: nat, start: int, n: nat)
      requires dest != mem && off + n <= dest.Length && 0 <= base + start && base + start + n <= mem.Length
      requires InBounds(mem.Length, base, Run(start, n))
      modifies dest
      ensures dest[..off + n] == old(dest[..off]) + Gather(mem[..], base, Run(start, n))
    {
      forall i | 0 <= i < n {
        dest[off + i] := mem[base + start + i];
      }
    }

    /** One memcpy for each of `n` blocks that lie `stride` bytes apart in user memory. */
    method CopyOutBlocks(dest: array<byte>, off: nat, start: int, size: nat, n: nat, stride: int)
      requires dest != mem && size >= 1 && 0 <= n * size && off + n * size <= dest.Length
      requires InBounds(mem.Length, base, Elems(size, n, start, stride))
      modifies dest
      ensures dest[..off + n * size] == old(dest[..off]) + Gather(mem[..], base, Elems(size, n, start, stride))
    {
      hide Gather, Elems, InBounds, Run;
      ghost var m := mem[..];
      ghost var before := dest[..off];
      var i, at, from := 0, off, start;
      NoBlocks(m, base, size, start, stride);
      assert dest[..at] == before + [];
      while i < n
        invariant 0 <= i <= n && at == off + i * size && from == start + i * stride
        invariant mem[..] == m && at <= dest.Length
        invariant InBounds(mem.Length, base, Elems(size, i, start, stride))
        invariant dest[..at] == before + Gather(m, base, Elems(size, i, start, stride))
      {
        ElemsBounds(mem.Length, base, size, n, i, start, stride);
        GatherAppend(m, base, Elems(size, i, start, stride), Run(from, size));
        MulMono(i + 1, n, size);
        CopyOut(dest, at, from, size);
        i, at, from := i + 1, at + size, from + stride;
      }
    }

    /** Moves as many of the `cnt` elements of a data record as fit in `space` bytes. */
    method PackPredefined(r: Rec, cnt: nat, src: int, dest: array<byte>, off: nat, space: nat)
      returns (cnt': nat, src': int, off': nat, space': nat)
      requires r.Data? && r.typ.size >= 1 && cnt >= 1 && dest != mem && off + space <= dest.Length
      requires InBounds(mem.Length, base, Elems(r.typ.size, cnt, src + r.disp, r.extent))
      modifies dest
      ensures Fitting(cnt, r.typ.size, space) == cnt - cnt' && cnt' <= cnt
      ensures src' == src + (cnt - cnt') * r.extent
      ensures off' == off + (cnt - cnt') * r.typ.size <= dest.Length
      ensures space' == space - (cnt - cnt') * r.typ.size
      ensures InBounds(mem.Length, base, Elems(r.typ.size, cnt - cnt', src + r.disp, r.extent))
      ensures dest[..off'] == old(dest[..off])
                 + Gather(mem[..], base, Elems(r.typ.size, cnt - cnt', src + r.disp, r.extent))
    {
      hide Gather, Elems, InBounds, Run;
      var size := r.typ.size;
      var n := cnt;
      FittingBounds(cnt, size, space);
      if cnt * size > space {
        n := space / size;
        if n == 0 {
          FirstElems(mem.Length, base, size, cnt, 0, src + r.disp, r.extent);
          NoBlocks(mem[..], base, size, src + r.disp, r.extent);
          assert dest[..off] == dest[..off] + [];
          return cnt, src, off, space;
        }
      }
      FirstElems(mem.Length, base, size, cnt, n, src + r.disp, r.extent);
      if size == r.extent {
        OneRun(mem.Length, base, size, n, src + r.disp);
        CopyOut(dest, off, src + r.disp, n * size);
      } else {
        CopyOutBlocks(dest, off, src + r.disp, size, n, r.extent);
      }
      cnt', src', off', space' := cnt - n, src + n * r.extent, off + n * size, space - n * size;
    }

    /** Moves as many of the `cnt` repetitions of a contiguous loop as fit in `space` bytes. */
    method PackContiguousLoop(r: Rec, end: Rec, cnt: nat, src: int, dest: array<byte>, off: nat, space: nat)
      returns (cnt': nat, src': int, off': nat, space': nat)
      requires r.Loop? && end.EndLoop? && end.size >= 1 && dest != mem && off + space <= dest.Length
      requires InBounds(mem.Length, base, Elems(end.size, cnt, src + end.first, r.extent))
      modifies dest
      ensures Fitting(cnt, end.size, space) == cnt - cnt' && cnt' <= cnt
      ensures src' == src + (cnt - cnt') * r.extent
      ensures off' == off + (cnt - cnt') * end.size <= dest.Length
      ensures space' == space - (cnt - cnt') * end.size
      ensures InBounds(mem.Length, base, Elems(end.size, cnt - cnt', src + end.first, r.extent))
      ensures dest[..off'] == old(dest[..off])
                 + Gather(mem[..], base, Elems(end.size, cnt - cnt', src + end.first, r.extent))
    {
      hide Gather, Elems, InBounds, Run;
      var size := end.size;
      var n := cnt;
      FittingBounds(cnt, size, space);
      if cnt * size > space {
        n := space / size;
      }
      FirstElems(mem.Length, base, size, cnt, n, src + end.first, r.extent);
      CopyOutBlocks(dest, off, src + end.first, size, n, r.extent);
      cnt', src', off', space' := cnt - n, src + n * r.extent, off + n * size, space - n * size;
    }

    /** `b` is the last offset up to `limit` at which no basic element is split. */
    ghost predicate Greatest(b: nat, limit: int)
      requires Committed(code)
    {
      && MissingAt(code, b) == 0
      && forall n :: b < n <= limit && n < |Whole()| ==> MissingAt(code, n) != 0
    }

    lemma {:induction false} StopGreatest(pos: int, cnt: nat, src: int, b: nat, limit: int)
      requires Running(pos, cnt, src, b) && 0 <= pos < |code| && code[pos].Data?
      requires limit < b + code[pos].typ.size
      ensures Greatest(b, limit)
    {
      hide WholeTM, Enclosing, Committed, InBounds, MissingAt;
      Place(code, extent, total, Frames(), pos, cnt, src, b);
      StopAt(code, extent, total, Frames(), pos, cnt, src, b, 0);
      forall n | b < n <= limit && n < |Whole()| ensures MissingAt(code, n) != 0 {
        StopAt(code, extent, total, Frames(), pos, cnt, src, b, n - b);
      }
    }

    /** A packed buffer holds the message bytes from `b0` on, and the run goes on at `pos`. */
    ghost predicate Packing(dest: array<byte>, off: nat, pos: int, cnt: nat, src: int, b0: nat)
      reads `stackPos, stack, dest, mem
    {
      && dest != mem && Filled(dest, off, b0)
      && Running(pos, cnt, src, b0 + off) && 0 <= pos < |code| && Framed(code, Top(Frames()))
    }

    ghost predicate Filled(dest: array<byte>, off: nat, b0: nat)
      reads dest, mem
    {
      && |code| > 0 && off <= dest.Length && b0 + off <= |Whole()|
      && InBounds(mem.Length, base, Whole()[b0..b0 + off])
      && dest[..off] == Gather(mem[..], base, Whole()[b0..b0 + off])
    }

    /** One visit to a data record; `stop` if the next element does not fit any more. */
    method PackData(dest: array<byte>, off0: nat, pos0: int, cnt0: nat, src0: int, ghost b0: nat)
      returns (stop: bool, off: nat, pos: int, cnt: nat, src: int)
      requires Packing(dest, off0, pos0, cnt0, src0, b0) && code[pos0].Data?
      modifies dest
      ensures Packing(dest, off, pos, cnt, src, b0)
      ensures stop ==> pos == pos0 && dest.Length < off + code[pos].typ.size
      ensures !stop ==> off > off0
    {
      hide Proper, At, WholeTM, Enclosing, Committed, InBounds, Gather, Elems, Run;
      ghost var fs, b, whole := Frames(), b0 + off0, Whole();
      Place(code, extent, total, fs, pos0, cnt0, src0, b);
      DataInMemory(pos0, cnt0, src0, b);
      ghost var k := Fitting(cnt0, code[pos0].typ.size, dest.Length - off0);
      FittingBounds(cnt0, code[pos0].typ.size, dest.Length - off0);
      MoveData(code, extent, total, fs, pos0, cnt0, src0, b, k);
      var space;
      pos := pos0;
      cnt, src, off, space := PackPredefined(code[pos], cnt0, src0, dest, off0, dest.Length - off0);
      GatherMore(mem[..], base, whole, b0, b, b0 + off);
      if cnt != 0 {
        return true, off, pos, cnt, src;
      }
      MulMono(1, cnt0, code[pos].typ.size);
      src, pos := stack[stackPos].disp, pos + 1;
      stop, cnt := false, Counter(code[pos]);
      Place(code, extent, total, fs, pos, cnt, src, b0 + off);
    }

    /** What moving `k` whole repetitions of a contiguous loop leads to. */
    lemma {:induction false} Repetitions(pos: int, cnt: nat, src: int, b: nat, k: nat)
      requires Running(pos, cnt, src, b) && 0 <= pos < |code| && code[pos].Loop? && code[pos].contiguous && k <= cnt
      ensures pos + code[pos].items + 1 < |code| && code[pos + code[pos].items].EndLoop?
      ensures var end, whole := code[pos + code[pos].items], Whole();
              && end.size >= 1 && k * end.size >= 0 && b + k * end.size <= |whole|
              && Elems(end.size, k, src + end.first, code[pos].extent) == whole[b..b + k * end.size]
              && (if k < cnt then
                    At(code, extent, total, Frames(), pos, cnt - k, src + k * code[pos].extent, b + k * end.size)
                  else k * end.size >= 1 && PastLoop(pos + code[pos].items + 1, b + k * end.size))
    {
      hide Proper, At, WholeTM, Enclosing, Committed, InBounds, Elems;
      ghost var fs := Frames();
      Place(code, extent, total, fs, pos, cnt, src, b);
      AtHere(code, extent, total, fs, pos, cnt, src, b);
      if k < cnt {
        SomeLoops(code, extent, total, fs, pos, cnt, src, b, k);
      } else {
        AllLoops(code, extent, total, fs, pos, cnt, src, b);
        MulMono(1, cnt, code[pos + code[pos].items].size);
      }
    }

    /** As many repetitions of a contiguous loop as fit. */
    method PackRepetitions(dest: array<byte>, off0: nat, pos: int, cnt0: nat, src0: int, ghost b0: nat)
      returns (off: nat, cnt: nat, src: int)
      requires Packing(dest, off0, pos, cnt0, src0, b0) && code[pos].Loop? && code[pos].contiguous
      modifies dest
      ensures off >= off0 && Filled(dest, off, b0)
      ensures cnt > 0 ==> At(code, extent, total, Frames(), pos, cnt, src, b0 + off)
      ensures cnt == 0 ==> off > off0 && pos + code[pos].items + 1 < |code|
                           && PastLoop(pos + code[pos].items + 1, b0 + off)
    {
      hide Proper, At, WholeTM, Enclosing, Committed, InBounds, Gather, Elems, Run, PastLoop, Fitting;
      ghost var b, whole := b0 + off0, Whole();
      Repetitions(pos, cnt0, src0, b, 0);
      var end := code[pos + code[pos].items];
      LoopInMemory(pos, cnt0, src0, b);
      ghost var k := Fitting(cnt0, end.size, dest.Length - off0);
      FittingBounds(cnt0, end.size, dest.Length - off0);
      Repetitions(pos, cnt0, src0, b, k);
      hide Running;
      var space;
      cnt, src, off, space := PackContiguousLoop(code[pos], end, cnt0, src0, dest, off0, dest.Length - off0);
      GatherMore(mem[..], base, whole, b0, b, b0 + off);
    }

    /** The run goes on at `next`, a record of the innermost body that is not begun. */
    ghost predicate PastLoop(next: int, b: nat)
      reads `stackPos, stack
    {
      0 <= stackPos < stack.Length && 0 <= next < |code| && Running(next, Counter(code[next]), stack[stackPos].disp, b)
    }

    /** One visit to a loop: move whole repetitions if its body is contiguous, enter it if some are left. */
    method PackLoop(dest: array<byte>, off0: nat, pos0: int, cnt0: nat, src0: int, ghost b0: nat)
      returns (off: nat, pos: int, cnt: nat, src: int)
      requires Packing(dest, off0, pos0, cnt0, src0, b0) && code[pos0].Loop?
      modifies dest, stack, `stackPos
      ensures Packing(dest, off, pos, cnt, src, b0)
      ensures off > off0 || (off == off0 && !code[pos].EndLoop?
                             && Hi(code, Top(Frames())) - pos < old(Hi(code, Top(Frames()))) - pos0)
    {
      hide Proper, At, WholeTM, Enclosing, Committed, InBounds, Gather, Elems, Run, Filled;
      ghost var fs := Frames();
      Place(code, extent, total, fs, pos0, cnt0, src0, b0 + off0);
      off, pos, cnt, src := off0, pos0, cnt0, src0;
      if code[pos].contiguous {
        off, cnt, src := PackRepetitions(dest, off, pos, cnt, src, b0);
        if cnt == 0 {
          pos := pos + code[pos].items + 1;
          src, cnt := stack[stackPos].disp, Counter(code[pos]);
          Place(code, extent, total, fs, pos, cnt, src, b0 + off);
          return;
        }
      } else {
        ProperAt(code, extent, total, fs, pos, cnt, src, b0 + off);
      }
      pos, cnt, src := OpenLoop(pos, cnt, src - src0, src, b0 + off);
    }

    /** One step of the loop over the records. */
    method PackStep(dest: array<byte>, off0: nat, pos0: int, cnt0: nat, src0: int, ghost b0: nat)
      returns (stop: bool, done: bool, off: nat, pos: int, cnt: nat, src: int)
      requires Packing(dest, off0, pos0, cnt0, src0, b0)
      modifies dest, stack, `stackPos
      ensures |code| > 0 && b0 + off0 <= |Whole()| && (done ==> stop)
      ensures done ==> Filled(dest, off, b0) && b0 + off == |Whole()| && Finished(pos, src)
      ensures !done ==> Packing(dest, off, pos, cnt, src, b0)
      ensures stop && !done ==> 0 <= pos < |code| && code[pos].Data? && dest.Length < off + code[pos].typ.size
                                && Committed(code) && Greatest(b0 + off, b0 + dest.Length)
      ensures !stop ==> off > off0 || (off == off0 && (Ending(pos) < Ending(pos0)
                                                       || (Ending(pos) == Ending(pos0)
                                                           && Steps(pos) < old(Steps(pos0)))))
    {
      hide Proper, At, WholeTM, Enclosing, Committed, InBounds, Gather, Elems, Run, Filled, Greatest;
      Place(code, extent, total, Frames(), pos0, cnt0, src0, b0 + off0);
      stop, done, off := false, false, off0;
      if code[pos0].Data? {
        stop, off, pos, cnt, src := PackData(dest, off0, pos0, cnt0, src0, b0);
        if stop { StopGreatest(pos, cnt, src, b0 + off, b0 + dest.Length); }
      } else if code[pos0].EndLoop? {
        done, pos, cnt, src := CloseLoop(pos0, cnt0, src0, b0 + off0);
        stop := done;
        if !done { Place(code, extent, total, Frames(), pos, cnt, src, b0 + off0); }
      } else {
        off, pos, cnt, src := PackLoop(dest, off0, pos0, cnt0, src0, b0);
        Place(code, extent, total, Frames(), pos, cnt, src, b0 + off);
      }
    }

    lemma {:induction false} StartPacking(dest: array<byte>, pos: int, cnt: nat, src: int, b0: nat)
      requires dest != mem && Running(pos, cnt, src, b0) && 0 <= pos < |code|
      ensures |code| > 0 && Packing(dest, 0, pos, cnt, src, b0)
    {
      hide Proper, At, WholeTM, Enclosing, Committed, InBounds, Gather, Elems, Run;
      Place(code, extent, total, Frames(), pos, cnt, src, b0);
      NothingYet(mem[..], base, Whole(), b0);
      assert dest[..0] == [];
    }

    lemma {:induction false} PackingFills(dest: array<byte>, off: nat, pos: int, cnt: nat, src: int, b0: nat)
      requires Packing(dest, off, pos, cnt, src, b0)
      ensures Filled(dest, off, b0)
    {
      hide Filled, Running;
    }

    /** Fills one packed buffer: the body of the loop over the iovec entries. */
    method PackIovec(dest: array<byte>, pos0: int, cnt0: nat, src0: int, ghost b0: nat)
      returns (off: nat, done: bool, pos: int, cnt: nat, src: int)
      requires dest != mem && Running(pos0, cnt0, src0, b0) && 0 <= pos0 < |code|
      modifies stack, `stackPos, dest
      ensures Filled(dest, off, b0)
      ensures done ==> b0 + off == |Whole()| && Finished(pos, src)
      ensures !done ==>
                Packing(dest, off, pos, cnt, src, b0) && code[pos].Data? && dest.Length < off + code[pos].typ.size
      ensures !done ==> Greatest(b0 + off, b0 + dest.Length)
    {
      hide *;
      StartPacking(dest, pos0, cnt0, src0, b0);
      off, done, pos, cnt, src := 0, false, pos0, cnt0, src0;
      var stop := false;
      while !stop
        invariant done ==> stop && Filled(dest, off, b0) && b0 + off == |Whole()| && Finished(pos, src)
        invariant !done ==> Packing(dest, off, pos, cnt, src, b0)
        invariant stop && !done ==> 0 <= pos < |code| && code[pos].Data? && dest.Length < off + code[pos].typ.size
                                    && Committed(code) && Greatest(b0 + off, b0 + dest.Length)
        decreases if stop then 0 else 1, |Whole()| - b0 - off, Ending(pos), Steps(pos)
      {
        stop, done, off, pos, cnt, src := PackStep(dest, off, pos, cnt, src, b0);
      }
      if !done { PackingFills(dest, off, pos, cnt, src, b0); }
    }

    // ----- suspending and resuming -----

    /** Between two calls the top of the stack holds the position; `b` bytes are done, the last
        `p` of them belong to a split element. */
    ghost predicate Saved(b: nat, p: nat)
      reads `stackPos, stack
    {
      && Setup() && 1 <= stackPos < stack.Length && p <= b
      && var top := stack[stackPos];
      && 0 <= top.index < |code| && !code[top.index].EndLoop?
      && Proper(code, extent, total, stack[..stackPos], top.index, top.count, stack[stackPos - 1].disp + top.disp,
                b - p)
      && (p > 0 ==> code[top.index].Data? && p < code[top.index].typ.size)
    }

    /** The same, except that the position lies `off` bytes behind where it belongs. */
    ghost predicate SavedOff(b: nat, p: nat, off: int)
      reads `stackPos, stack
    {
      && Setup() && 1 <= stackPos < stack.Length && p <= b
      && var top := stack[stackPos];
      && 0 <= top.index < |code| && !code[top.index].EndLoop?
      && Proper(code, extent, total, stack[..stackPos], top.index, top.count, stack[stackPos - 1].disp + top.disp - off,
                b - p)
      && (p > 0 ==> code[top.index].Data? && p < code[top.index].typ.size)
    }

    /** The invariant that every call keeps. */
    ghost predicate Valid()
      reads this, stack
    {
      && Setup() && bConverted <= |Whole()|
      && (completed ==> bConverted == |Whole()|)
      && (!completed ==> Saved(bConverted, partialLength) && bConverted < |Whole()|)
    }

    /** Takes the saved position off the stack. */
    method Resume(ghost b: nat, ghost p: nat) returns (pos: int, cnt: nat, src: int)
      requires Saved(b, p)
      modifies `stackPos
      ensures p <= b && Running(pos, cnt, src, b - p) && 0 <= pos < |code| && !code[pos].EndLoop?
      ensures p > 0 ==> code[pos].Data? && p < code[pos].typ.size
    {
      hide Proper, Setup;
      pos, cnt, src := stack[stackPos].index, stack[stackPos].count, stack[stackPos].disp;
      stackPos := stackPos - 1;
      src := src + stack[stackPos].disp;
    }

    /** Puts the position on the stack. */
    method Suspend(pos: int, cnt: nat, src: int, ghost b: nat, ghost p: nat, ghost off: int := 0)
      requires p <= b && Running(pos, cnt, src - off, b - p) && 0 <= pos < |code| && !code[pos].EndLoop?
      requires p > 0 ==> code[pos].Data? && p < code[pos].typ.size
      modifies stack, `stackPos
      ensures SavedOff(b, p, off) && (off == 0 ==> Saved(b, p)) && (AtData() <==> code[pos].Data?)
      ensures 0 <= stackPos < stack.Length && stack[stackPos].index == pos && stack[stackPos].count == cnt
    {
      hide Proper, WholeTM, Enclosing, Committed, InBounds;
      ghost var fs := Frames();
      Place(code, extent, total, fs, pos, cnt, src - off, b - p);
      assert |Enclosing(code, pos)| + 2 <= stack.Length;
      assert stack[stackPos] == Top(fs);
      PushStack(Frame(pos, cnt, src - stack[stackPos].disp));
      assert stack[..stackPos] == fs;
    }

    /** A convertor at the start of a message. */
    constructor (desc: seq<Rec>, receives: bool, extent: int, size: nat, total: nat, mem: array<byte>, base: int,
                 stackSize: nat)
      requires Committed(desc) && size == |TM(Body(desc), 0)|
      requires InBounds(mem.Length, base, WholeTM(if receives then Read(desc) else desc, total, extent))
      requires forall pos :: |Enclosing(desc, pos)| + 2 <= stackSize
      ensures Valid() && bConverted == 0 && partialLength == 0 && fresh(stack)
      ensures this.desc == desc && this.receives == receives && this.extent == extent && this.total == total
      ensures this.mem == mem && this.base == base
      ensures completed <==> total == 0
    {
      hide *;
      this.desc, this.receives, this.code := desc, receives, if receives then Read(desc) else desc;
      this.extent, this.size, this.total, this.mem, this.base := extent, size, total, mem, base;
      bConverted, partialLength, completed, stackPos := 0, 0, total == 0, 1;
      stack := new Frame[stackSize](_ => Frame(-1, 0, 0));
      new;
      NewSetup();
      if total > 0 {
        CreateStackAtBegining();
      }
      NewValid();
    }

    lemma {:induction false} NewSetup()
      requires Committed(desc) && size == |TM(Body(desc), 0)| && code == if receives then Read(desc) else desc
      requires InBounds(mem.Length, base, WholeTM(if receives then Read(desc) else desc, total, extent))
      requires forall pos :: |Enclosing(desc, pos)| + 2 <= stack.Length
      ensures Setup()
    {
      ReadCommitted(desc);
      ReadEncloses(desc);
      hide Committed, Enclosing, WholeTM, InBounds, TM, Read;
    }

    lemma {:induction false} NewValid()
      requires Setup() && bConverted == 0 && partialLength == 0 && (completed <==> total == 0)
      requires total > 0 ==> Saved(0, 0)
      ensures Valid()
    {
      if total > 0 { StartNonEmpty(code, extent, total); }
      hide Saved, Committed, TM, InBounds, Enclosing;
    }

    /** Rewinds to the start of the message. */
    method CreateStackAtBegining()
      requires Setup() && total >= 1
      modifies this`stackPos, this`partialLength, this`bConverted, stack
      ensures Saved(0, 0) && bConverted == 0 && partialLength == 0
    {
      hide Proper, WholeTM, Enclosing, InBounds;
      Start(code, extent, total);
      assert |Enclosing(code, 0)| + 2 <= stack.Length;
      stackPos, partialLength, bConverted := 1, 0, 0;
      stack[0] := Frame(-1, total, 0);
      stack[1] := Frame(0, Counter(code[0]), 0);
      assert stack[..1] == [Frame(-1, total, 0)];
    }

    // ----- the public operations -----

    /** The first buffers of an iovec hold the message bytes from `start` to `end`. */
    ghost predicate Packed(iov: seq<array<byte>>, lens: seq<nat>, start: int, end: int)
      reads iov, mem
    {
      && |code| > 0 && |lens| <= |iov| && (forall k :: 0 <= k < |lens| ==> lens[k] <= iov[k].Length)
      && 0 <= start <= end <= |Whole()| && InBounds(mem.Length, base, Whole()[start..end])
      && Concat(iov[..|lens|], lens) == Gather(mem[..], base, Whole()[start..end])
    }

    lemma {:induction false} PackedLength(iov: seq<array<byte>>, lens: seq<nat>, start: int, end: int)
      requires Packed(iov, lens, start, end)
      ensures |lens| <= |iov| && 0 <= start <= end <= |Whole()|
    {
      hide Concat, InBounds, Gather, WholeTM;
    }

    /** How far packing got.  The bytes of a split element are packed with the whole element. */
    ghost function PackedTo(): int
      reads `bConverted, `partialLength
    {
      bConverted - partialLength
    }

    method PackNext(iov: seq<array<byte>>, lens0: seq<nat>, pos0: int, cnt0: nat, src0: int, ghost start: nat)
      returns (lens: seq<nat>, done: bool, pos: int, cnt: nat, src: int)
      requires mem !in iov && forall i, j :: 0 <= i < j < |iov| ==> iov[i] != iov[j]
      requires Packed(iov, lens0, start, PackedTo()) && |lens0| < |iov| && PackedTo() >= 0
      requires Running(pos0, cnt0, src0, PackedTo()) && 0 <= pos0 < |code|
      modifies this`stackPos, this`bConverted, stack, iov[|lens0|]
      ensures bConverted >= old(bConverted) && Packed(iov, lens, start, PackedTo()) && |lens| == |lens0| + 1
      ensures done ==> PackedTo() == |Whole()| && Finished(pos, src)
      ensures !done ==> Running(pos, cnt, src, PackedTo()) && 0 <= pos < |code| && code[pos].Data? && Committed(code)
                        && Cut(iov, lens, pos)
    {
      hide Proper, WholeTM, Enclosing, Committed, InBounds, Gather, Greatest, Filled, Packed, Running, Concat, Packing;
      ghost var b, i := PackedTo(), |lens0|;
      PackedFacts(iov, lens0, start, b);
      ghost var packed := Concat(iov[..i], lens0);
      var off;
      off, done, pos, cnt, src := PackIovec(iov[|lens0|], pos0, cnt0, src0, b);
      PackedMore(iov, lens0, off, start, b, packed);
      lens, bConverted := lens0 + [off], bConverted + off;
      if !done { PackingFacts(iov[|lens0|], off, pos, cnt, src, b); }
    }

    lemma {:induction false} PackedFacts(iov: seq<array<byte>>, lens: seq<nat>, start: int, b: int)
      requires Packed(iov, lens, start, b)
      ensures |code| > 0 && |lens| <= |iov| && (forall k :: 0 <= k < |lens| ==> lens[k] <= iov[k].Length)
      ensures 0 <= start <= b <= |Whole()| && InBounds(mem.Length, base, Whole()[start..b])
      ensures Concat(iov[..|lens|], lens) == Gather(mem[..], base, Whole()[start..b])
    {
      hide WholeTM, InBounds, Gather, Concat;
    }

    lemma {:induction false} PackingFacts(dest: array<byte>, off: nat, pos: int, cnt: nat, src: int, b: nat)
      requires Packing(dest, off, pos, cnt, src, b)
      ensures Running(pos, cnt, src, b + off) && 0 <= pos < |code| && Committed(code)
    {
      hide WholeTM, Proper, Enclosing, InBounds, Filled;
    }

    /** One more buffer, filled with the bytes from `b` on. */
    lemma {:induction false} PackedMore(iov: seq<array<byte>>, lens: seq<nat>, off: nat, start: int, b: nat,
                                        packed: seq<byte>)
      requires |lens| < |iov| && (forall k :: 0 <= k < |lens| ==> lens[k] <= iov[k].Length)
      requires Filled(iov[|lens|], off, b)
      requires |code| > 0 && 0 <= start <= b <= |Whole()| && InBounds(mem.Length, base, Whole()[start..b])
      requires Concat(iov[..|lens|], lens) == packed == Gather(mem[..], base, Whole()[start..b])
      ensures Packed(iov, lens + [off], start, b + off) && off <= iov[|lens|].Length
    {
      hide WholeTM, InBounds, Gather, Concat;
      ConcatSnoc(iov, lens, |lens|, off);
      GatherMore(mem[..], base, Whole(), start, b, b + off);
    }

    /** Packs from a resumed position until the buffers or the message are used up. */
    method PackAll(iov: seq<array<byte>>, pos0: int, cnt0: nat, src0: int)
      returns (lens: seq<nat>, done: bool, pos: int, cnt: nat, src: int)
      requires mem !in iov && forall i, j :: 0 <= i < j < |iov| ==> iov[i] != iov[j]
      requires PackedTo() >= 0 && Running(pos0, cnt0, src0, PackedTo()) && 0 <= pos0 < |code| && !code[pos0].EndLoop?
      modifies this`stackPos, this`bConverted, stack, iov
      ensures bConverted >= old(bConverted) && Packed(iov, lens, old(PackedTo()), PackedTo())
      ensures done ==> PackedTo() == |Whole()| && Finished(pos, src)
      ensures !done ==>
                Running(pos, cnt, src, PackedTo()) && 0 <= pos < |code| && !code[pos].EndLoop? && |lens| == |iov|
      ensures !done && |iov| > 0 ==> code[pos].Data? && Committed(code) && Cut(iov, lens, pos)
    {
      Place(code, extent, total, Frames(), pos0, cnt0, src0, PackedTo());
      hide Proper, WholeTM, Enclosing, InBounds, Gather, Greatest;
      lens, done, pos, cnt, src := [], false, pos0, cnt0, src0;
      ghost var start := PackedTo();
      NothingYet(mem[..], base, Whole(), start);
      assert Packed(iov, lens, start, start);
      hide Packed, Committed, Running;
      while |lens| < |iov|
        invariant bConverted >= old(bConverted) && Packed(iov, lens, start, PackedTo()) && |lens| <= |iov|
        invariant Running(pos, cnt, src, PackedTo()) && 0 <= pos < |code| && !code[pos].EndLoop?
        invariant |lens| > 0 ==> code[pos].Data? && Committed(code) && Cut(iov, lens, pos)
      {
        lens, done, pos, cnt, src := PackNext(iov, lens, pos, cnt, src, start);
        if done {
          return;
        }
        PackedLength(iov, lens, start, PackedTo());
      }
    }

    /** The last buffer could not have taken the next basic element. */
    ghost predicate Cut(iov: seq<array<byte>>, lens: seq<nat>, pos: int)
      reads `bConverted, `partialLength
      requires Committed(code) && 0 <= pos < |code| && code[pos].Data?
    {
      && 0 < |lens| <= |iov| && iov[|lens| - 1].Length < lens[|lens| - 1] + code[pos].typ.size && PackedTo() >= 0
      && Greatest(PackedTo(), PackedTo() - lens[|lens| - 1] + iov[|lens| - 1].Length)
    }

    /** Packs into the buffers of an iovec, in order, and can be called again for the rest.  After a seek
        into an element packing starts at the beginning of that element: the bytes that were skipped in
        it are packed, but counted as if they had been packed before.  So the count is too high from then
        on: the state is that of the bytes that were really packed, it passes for one inside the element
        where it stopped if that is large enough, and at the end of the message the convertor does not
        notice that it is done, unless it stopped as many bytes before the end. */
    method Pack(iov: seq<array<byte>>) returns (lens: seq<nat>, status: bool)
      requires Valid() && !receives
      requires mem !in iov && forall i, j :: 0 <= i < j < |iov| ==> iov[i] != iov[j]
      modifies this`stackPos, this`bConverted, this`completed, stack, iov
      ensures Setup() && status == completed && (completed <==> bConverted == |Whole()|)
      ensures partialLength == old(partialLength)
      ensures bConverted >= old(bConverted)
      ensures var skipped := if old(completed) then 0 else partialLength;
              Packed(iov, lens, old(bConverted) - skipped, bConverted - skipped)
      ensures old(completed) || partialLength == 0 ==>
                Valid() && (!completed ==>
                              |lens| == |iov| && (|iov| > 0 ==> AtData() && Cut(iov, lens, stack[stackPos].index)))
      ensures completed ==> Valid()
      ensures !completed && PackedTo() < |Whole()| ==> PackedTo() >= 0 && Saved(PackedTo(), 0)
      ensures !completed && PackedTo() < |Whole()| ==>
                (Valid() <==> partialLength == 0 || (AtData() && partialLength < code[stack[stackPos].index].typ.size))
      ensures !completed && PackedTo() == |Whole()| ==>
                partialLength > 0 && !Valid() && stackPos == 1 && stack.Length >= 2 && stack[1].index == |code| - 1
    {
      hide Proper, WholeTM, Running, Saved, Setup, Packed, Cut, InBounds, Committed, WF;
      if completed {
        NothingPacked(iov);
        return [], true;
      }
      var pos, cnt, src := Resume(bConverted, partialLength);
      var done;
      lens, done, pos, cnt, src := PackAll(iov, pos, cnt, src);
      WholeLength();
      if !done { RunningBounds(pos, cnt, src, PackedTo()); }
      if bConverted == total * size {
        completed := true;
      } else if done {
        PushStack(Frame(pos, cnt, src - stack[stackPos].disp));
      } else {
        Suspend(pos, cnt, src, PackedTo(), 0);
        PassesFor(PackedTo(), partialLength);
      }
      status := completed;
    }

    /** A state that was saved without counting the bytes of a split element, and its count afterwards. */
    lemma {:induction false} PassesFor(b: nat, p: nat)
      requires Saved(b, 0) && |code| > 0 && b < |Whole()|
      ensures Saved(b + p, p) && b + p < |Whole()| <==> p == 0 || (AtData() && p < code[stack[stackPos].index].typ.size)
    {
      hide WholeTM, Enclosing, InBounds, TM, Proper;
      var top, fs := stack[stackPos], stack[..stackPos];
      if code[top.index].Data? && p < code[top.index].typ.size {
        StopAt(code, extent, total, fs, top.index, top.count, stack[stackPos - 1].disp + top.disp, b, p);
      }
    }

    lemma {:induction false} NothingPacked(iov: seq<array<byte>>)
      requires Setup() && bConverted <= |Whole()|
      ensures Packed(iov, [], bConverted, bConverted)
    {
      NothingYet(mem[..], base, Whole(), bConverted);
    }

    lemma {:induction false} RunningBounds(pos: int, cnt: nat, src: int, b: nat)
      requires Running(pos, cnt, src, b) && 0 <= pos < |code| && !code[pos].EndLoop?
      ensures |code| > 0 && b < |Whole()|
    {
      hide Proper, WholeTM;
      Place(code, extent, total, Frames(), pos, cnt, src, b);
    }

    ghost predicate AtData()
      reads `stackPos, stack
    {
      0 <= stackPos < stack.Length && 0 <= stack[stackPos].index < |code| && code[stack[stackPos].index].Data?
    }

    // ----- unpacking -----

    /** memcpy from the packed data to user memory. */
    method CopyIn(data: seq<byte>, from: nat, start: int, n: nat)
      requires from + n <= |data| && InBounds(mem.Length, base, Run(start, n))
      requires 0 <= base + start && base + start + n <= mem.Length
      modifies mem
      ensures mem[..] == Scatter(old(mem[..]), base, Run(start, n), data[from..from + n])
    {
      ghost var m := mem[..];
      forall i | 0 <= i < n {
        mem[base + start + i] := data[from + i];
      }
      ScatterRun(m, base, start, data[from..from + n]);
      assert mem[..] == m[..base + start] + data[from..from + n] + m[base + start + n..];
    }

    /** One memcpy for each of `n` blocks that lie `stride` bytes apart in user memory. */
    method CopyInBlocks(data: seq<byte>, from: nat, start: int, size: nat, n: nat, stride: int)
      requires size >= 1 && 0 <= n * size && from + n * size <= |data|
      requires InBounds(mem.Length, base, Elems(size, n, start, stride))
      modifies mem
      ensures |Elems(size, n, start, stride)| == n * size
      ensures mem[..] == Scatter(old(mem[..]), base, Elems(size, n, start, stride), data[from..from + n * size])
    {
      hide *;
      ghost var m := mem[..];
      var i, at, to := 0, from, start;
      NoBlocksIn(m, data, from, start, size, stride);
      while i < n
        invariant 0 <= i <= n && at == from + i * size && to == start + i * stride
        invariant BlocksIn(m, mem[..], data, from, at, start, size, i, stride)
        invariant |m| == mem.Length
      {
        NextBlock(m, mem[..], data, from, at, start, size, n, i, stride);
        ghost var before := mem[..];
        CopyIn(data, at, to, size);
        BlockDone(m, before, mem[..], data, from, at, start, size, n, i, stride);
        i, at, to := i + 1, at + size, to + stride;
      }
      AllBlocks(m, mem[..], data, from, at, start, size, n, stride);
    }

    /** The first `i` blocks are written. */
    ghost predicate BlocksIn(m: seq<byte>, now: seq<byte>, data: seq<byte>, from: nat, at: int, start: int, size: nat,
                             i: nat, stride: int) {
      && from <= at <= |data| && |Elems(size, i, start, stride)| == at - from
      && InBounds(|m|, base, Elems(size, i, start, stride))
      && now == Scatter(m, base, Elems(size, i, start, stride), data[from..at])
    }

    lemma {:induction false} NoBlocksIn(m: seq<byte>, data: seq<byte>, from: nat, start: int, size: nat, stride: int)
      requires from <= |data|
      ensures BlocksIn(m, m, data, from, from, start, size, 0, stride)
    {
      NoBlocks(m, base, size, start, stride);
      ScatterNothing(m, base);
      assert data[from..from] == [];
    }

    lemma {:induction false} NextBlock(m: seq<byte>, now: seq<byte>, data: seq<byte>, from: nat, at: int, start: int,
                                       size: nat, n: nat, i: nat, stride: int)
      requires size >= 1 && i < n && 0 <= n * size && from + n * size <= |data| && at == from + i * size
      requires InBounds(|m|, base, Elems(size, n, start, stride))
      requires BlocksIn(m, now, data, from, at, start, size, i, stride)
      ensures from <= at && at + size <= |data| && InBounds(|m|, base, Run(start + i * stride, size))
      ensures 0 <= base + start + i * stride && base + start + i * stride + size <= |m|
      ensures from + (i + 1) * size == at + size
    {
      hide Scatter, Elems, InBounds, Run;
      ElemsBounds(|m|, base, size, n, i, start, stride);
      MulMono(i + 1, n, size);
    }

    lemma {:induction false} BlockDone(m: seq<byte>, now: seq<byte>, next: seq<byte>, data: seq<byte>, from: nat,
                                       at: int, start: int,
                                       size: nat, n: nat, i: nat, stride: int)
      requires size >= 1 && i < n && from <= at && at + size <= |data|
      requires InBounds(|m|, base, Elems(size, n, start, stride))
      requires BlocksIn(m, now, data, from, at, start, size, i, stride) && |now| == |m|
      requires InBounds(|m|, base, Run(start + i * stride, size))
      requires |Run(start + i * stride, size)| == size ==>
                 next == Scatter(now, base, Run(start + i * stride, size), data[at..at + size])
      ensures BlocksIn(m, next, data, from, at + size, start, size, i + 1, stride)
    {
      hide Scatter, Elems, InBounds, Run;
      var to := start + i * stride;
      ElemsBounds(|m|, base, size, n, i, start, stride);
      RunLength(to, size);
      ScatterAppend(m, base, Elems(size, i, start, stride), Run(to, size), data[from..at], data[at..at + size]);
      assert data[from..at] + data[at..at + size] == data[from..at + size];
    }

    lemma {:induction false} AllBlocks(m: seq<byte>, now: seq<byte>, data: seq<byte>, from: nat, at: int, start: int,
                                       size: nat, n: nat, stride: int)
      requires BlocksIn(m, now, data, from, at, start, size, n, stride) && at == from + n * size
      ensures |Elems(size, n, start, stride)| == n * size && from <= at <= |data|
      ensures InBounds(|m|, base, Elems(size, n, start, stride))
      ensures now == Scatter(m, base, Elems(size, n, start, stride), data[from..at])
    {}

    /** Moves as many of the `cnt` elements of a data record as the packed data holds. */
    method UnpackPredefined(r: Rec, cnt: nat, src: int, data: seq<byte>, from: nat)
      returns (cnt': nat, src': int, from': nat)
      requires r.Data? && r.typ.size >= 1 && cnt >= 1 && from <= |data|
      requires InBounds(mem.Length, base, Elems(r.typ.size, cnt, src + r.disp, ReadRec(r).extent))
      modifies mem
      ensures Fitting(cnt, r.typ.size, |data| - from) == cnt - cnt' && cnt' <= cnt
      ensures src' == src + (cnt - cnt') * ReadRec(r).extent
      ensures from' == from + (cnt - cnt') * r.typ.size <= |data|
      ensures InBounds(mem.Length, base, Elems(r.typ.size, cnt - cnt', src + r.disp, ReadRec(r).extent))
      ensures |Elems(r.typ.size, cnt - cnt', src + r.disp, ReadRec(r).extent)| == from' - from
      ensures mem[..]
                == Scatter(old(mem[..]), base, Elems(r.typ.size, cnt - cnt', src + r.disp, ReadRec(r).extent),
                           data[from..from'])
    {
      hide Scatter, Elems, InBounds, Run;
      var size, space := r.typ.size, |data| - from;
      ghost var stride := ReadRec(r).extent;
      var n := cnt;
      FittingBounds(cnt, size, space);
      if cnt * size > space {
        n := space / size;
        if n == 0 {
          FirstElems(mem.Length, base, size, cnt, 0, src + r.disp, stride);
          NoBlocks(mem[..], base, size, src + r.disp, stride);
          ScatterNothing(mem[..], base);
          assert data[from..from] == [];
          return cnt, src, from;
        }
      }
      FirstElems(mem.Length, base, size, cnt, n, src + r.disp, stride);
      ElemsLength(size, n, src + r.disp, stride);
      if size == r.extent % WRAP {
        OneRun(mem.Length, base, size, n, src + r.disp);
        CopyIn(data, from, src + r.disp, n * size);
        src' := src + n * size;
      } else {
        CopyInBlocks(data, from, src + r.disp, size, n, r.extent);
        src' := src + n * r.extent;
      }
      cnt', from' := cnt - n, from + n * size;
    }

    /** Moves as many of the `cnt` repetitions of a contiguous loop as the packed data holds. */
    method UnpackContiguousLoop(r: Rec, end: Rec, cnt: nat, src: int, data: seq<byte>, from: nat)
      returns (cnt': nat, src': int, from': nat)
      requires r.Loop? && end.EndLoop? && end.size >= 1 && from <= |data|
      requires InBounds(mem.Length, base, Elems(end.size, cnt, src + end.first, r.extent))
      modifies mem
      ensures Fitting(cnt, end.size, |data| - from) == cnt - cnt' && cnt' <= cnt
      ensures src' == src + (cnt - cnt') * r.extent
      ensures from' == from + (cnt - cnt') * end.size <= |data|
      ensures InBounds(mem.Length, base, Elems(end.size, cnt - cnt', src + end.first, r.extent))
      ensures |Elems(end.size, cnt - cnt', src + end.first, r.extent)| == from' - from
      ensures mem[..]
                == Scatter(old(mem[..]), base, Elems(end.size, cnt - cnt', src + end.first, r.extent),
                           data[from..from'])
    {
      hide Scatter, Elems, InBounds, Run;
      var size, space := end.size, |data| - from;
      var n := cnt;
      FittingBounds(cnt, size, space);
      if cnt * size > space {
        n := space / size;
      }
      FirstElems(mem.Length, base, size, cnt, n, src + end.first, r.extent);
      CopyInBlocks(data, from, src + end.first, size, n, r.extent);
      cnt', src', from' := cnt - n, src + n * r.extent, from + n * size;
    }

    /** Writes bytes [start, end) of one element.  The element is unpacked whole, its missing bytes
        filled with a value that does not occur in `partial`; wherever that value turns up in user
        memory the old content is put back. */
    method UnpackPartial(r: Rec, partial: seq<byte>, start: nat, end: nat, src: int) returns (src': int)
      requires r.Data? && 1 <= r.typ.size <= 16
      requires start < end <= r.typ.size && |partial| == end - start
      requires 0 <= base + src + r.disp && base + src + r.disp + r.typ.size <= mem.Length
      modifies mem
      ensures src' == src + ReadRec(r).extent
      ensures InBounds(mem.Length, base, Run(src + r.disp + start, end - start))
      ensures mem[..] == Scatter(old(mem[..]), base, Run(src + r.disp + start, end - start), partial)
    {
      hide Scatter, Elems, Run, Blend, Patch;
      var at, size := base + src + r.disp, r.typ.size;
      ghost var m := mem[..];
      var unused, filled := FillTemporary(partial, start, end, size);
      var saved := mem[at..at + size];
      assert saved == m[at..at + size];
      BlendExact(filled, saved, unused, partial, start, end);
      src' := UnpackOne(r, filled, src);
      PatchPatch(m, at, filled, Blend(filled, saved, unused));
      assert mem[at..at + size] == mem[..][at..at + size];
      PutBack(at, saved, unused);
      PatchPiece(m, base, src + r.disp, saved, partial, start, end);
    }

    /** A whole element: the bytes that arrived, and an unused value everywhere else. */
    method FillTemporary(partial: seq<byte>, start: nat, end: nat, size: nat) returns (unused: byte, filled: seq<byte>)
      requires start <= end <= size <= 16 && |partial| == end - start
      ensures |filled| == size && unused !in partial
      ensures forall k :: 0 <= k < size ==> filled[k] == if start <= k < end then partial[k - start] else unused
    {
      unused := FindUnusedByte(partial);
      var temporary := new byte[16](_ => 0);
      forall i | 0 <= i < size {
        temporary[i] := unused;
      }
      forall i | 0 <= i < end - start {
        temporary[start + i] := partial[i];
      }
      filled := temporary[..size];
    }

    /** Unpacks exactly one element. */
    method UnpackOne(r: Rec, data: seq<byte>, src: int) returns (src': int)
      requires r.Data? && 1 <= r.typ.size == |data|
      requires 0 <= base + src + r.disp && base + src + r.disp + r.typ.size <= mem.Length
      modifies mem
      ensures src' == src + ReadRec(r).extent
      ensures mem[..] == Patch(old(mem[..]), base + src + r.disp, data)
    {
      hide Scatter, Elems, Run;
      ghost var m := mem[..];
      var size := r.typ.size;
      OneElem(mem.Length, base, size, src + r.disp, ReadRec(r).extent);
      FittingBounds(1, size, size);
      var cnt, from;
      cnt, src', from := UnpackPredefined(r, 1, src, data, 0);
      assert data[0..from] == data && 1 - cnt == 1;
      ScatterRun(m, base, src + r.disp, data);
    }

    /** Wherever `unused` turns up in the element at `at`, its saved byte is put back. */
    method PutBack(at: int, saved: seq<byte>, unused: byte)
      requires 0 <= at && at + |saved| <= mem.Length
      modifies mem
      ensures mem[..] == Patch(old(mem[..]), at, Blend(old(mem[at..at + |saved|]), saved, unused))
    {
      ghost var m, filled := mem[..], mem[at..at + |saved|];
      ghost var want := Blend(filled, saved, unused);
      hide Patch;
      var i := 0;
      while i < |saved|
        invariant 0 <= i <= |saved|
        invariant forall k :: 0 <= k < i ==> mem[at + k] == want[k]
        invariant forall k :: i <= k < |saved| ==> mem[at + k] == filled[k]
        invariant forall k :: 0 <= k < mem.Length && !(at <= k < at + |saved|) ==> mem[k] == old(mem[k])
      {
        if unused == mem[at + i] {
          mem[at + i] := saved[i];
        }
        i := i + 1;
      }
      IsPatch(m, mem[..], at, want);
    }

    /** A byte that does not occur in `partial`.  The search starts at 0x7F and counts down; as a
        signed char it must not become negative, and it does not: sixteen bytes cannot hold
        seventeen values. */
    method FindUnusedByte(partial: seq<byte>) returns (unused: byte)
      requires |partial| <= 16
      ensures unused !in partial && 0x6F <= unused <= 0x7F
    {
      unused := 0x7F;
      var i := 0;
      while i < |partial|
        invariant 0 <= i <= |partial| && 0x6F <= unused <= 0x7F
        invariant unused !in partial[..i]
        invariant forall v: byte :: unused < v <= 0x7F ==> v in partial
        decreases unused, |partial| - i
      {
        if unused == partial[i] {
          if unused == 0x6F {
            Pigeonhole(partial, 0x6F, 0x7F);
          }
          unused := unused - 1;
          i := 0;
        } else {
          i := i + 1;
        }
      }
    }

    /** User memory holds the message bytes from `b0` on; the run goes on at `pos`. */
    ghost predicate Unpacking(packed: seq<byte>, off: nat, pos: int, cnt: nat, src: int, b0: nat, m0: seq<byte>)
      reads `stackPos, stack, mem
    {
      && Written(packed, off, b0, m0)
      && Running(pos, cnt, src, b0 + off) && 0 <= pos < |code| && Framed(code, Top(Frames()))
    }

    ghost predicate Written(packed: seq<byte>, off: nat, b0: nat, m0: seq<byte>)
      reads mem
    {
      && |code| > 0 && off <= |packed| && b0 + off <= |Whole()| && |m0| == mem.Length
      && InBounds(|m0|, base, Whole()[b0..b0 + off])
      && mem[..] == Scatter(m0, base, Whole()[b0..b0 + off], packed[..off])
    }

    /** A data record as it is in the description and as it is read. */
    lemma {:induction false} AsRead(pos: int)
      requires Setup() && receives && 0 <= pos < |code| && code[pos].Data?
      ensures pos < |desc| && desc[pos].Data? && ReadRec(desc[pos]) == code[pos]
      ensures desc[pos].typ == code[pos].typ && desc[pos].disp == code[pos].disp
    {
      hide Committed, WholeTM, Enclosing, InBounds, TM;
    }

    /** What unpacking asks of a convertor: it was made for it, and elements have at most 16 bytes. */
    ghost predicate Splittable() {
      receives && Short(code)
    }

    /** The next `k` bytes have been written to the displacements `addrs`. */
    lemma {:induction false} MoreWritten(packed: seq<byte>, off0: nat, off: nat, b0: nat, m0: seq<byte>, m: seq<byte>)
      requires |code| > 0 && off0 <= off <= |packed| && b0 + off <= |Whole()| && |m0| == |m| == mem.Length
      requires InBounds(|m0|, base, Whole()[b0..b0 + off0]) && InBounds(|m0|, base, Whole()[b0 + off0..b0 + off])
      requires m == Scatter(m0, base, Whole()[b0..b0 + off0], packed[..off0])
      requires mem[..] == Scatter(m, base, Whole()[b0 + off0..b0 + off], packed[off0..off])
      ensures Written(packed, off, b0, m0)
    {
      hide WholeTM, Scatter;
      ScatterAppend(m0, base, Whole()[b0..b0 + off0], Whole()[b0 + off0..b0 + off], packed[..off0], packed[off0..off]);
      assert Whole()[b0..b0 + off0] + Whole()[b0 + off0..b0 + off] == Whole()[b0..b0 + off];
      assert packed[..off0] + packed[off0..off] == packed[..off];
    }

    method UnpackData(packed: seq<byte>, off0: nat, pos0: int, cnt0: nat, src0: int, ghost b0: nat, ghost m0: seq<byte>)
      returns (stop: bool, off: nat, pos: int, cnt: nat, src: int)
      requires Unpacking(packed, off0, pos0, cnt0, src0, b0, m0) && code[pos0].Data? && Splittable()
      modifies mem
      ensures Unpacking(packed, off, pos, cnt, src, b0, m0)
      ensures stop ==> pos == pos0 && |packed| < off + code[pos].typ.size
      ensures !stop ==> off > off0
    {
      hide Proper, At, WholeTM, Enclosing, Committed, InBounds, Scatter, Elems, Run;
      ghost var fs, b, whole, m := Frames(), b0 + off0, Whole(), mem[..];
      Place(code, extent, total, fs, pos0, cnt0, src0, b);
      DataInMemory(pos0, cnt0, src0, b);
      FittingBounds(cnt0, code[pos0].typ.size, |packed| - off0);
      MoveData(code, extent, total, fs, pos0, cnt0, src0, b, Fitting(cnt0, code[pos0].typ.size, |packed| - off0));
      pos := pos0;
      AsRead(pos);
      cnt, src, off := UnpackPredefined(desc[pos], cnt0, src0, packed, off0);
      MoreWritten(packed, off0, off, b0, m0, m);
      hide Written;
      if cnt != 0 {
        return true, off, pos, cnt, src;
      }
      MulMono(1, cnt0, code[pos].typ.size);
      src, pos := stack[stackPos].disp, pos + 1;
      stop, cnt := false, Counter(code[pos]);
      Place(code, extent, total, fs, pos, cnt, src, b0 + off);
    }

    method UnpackRepetitions(packed: seq<byte>, off0: nat, pos: int, cnt0: nat, src0: int, ghost b0: nat,
                             ghost m0: seq<byte>)
      returns (off: nat, cnt: nat, src: int)
      requires Unpacking(packed, off0, pos, cnt0, src0, b0, m0) && code[pos].Loop? && code[pos].contiguous
      modifies mem
      ensures off >= off0 && Written(packed, off, b0, m0)
      ensures cnt > 0 ==> At(code, extent, total, Frames(), pos, cnt, src, b0 + off)
      ensures cnt == 0 ==> off > off0 && pos + code[pos].items + 1 < |code|
                           && PastLoop(pos + code[pos].items + 1, b0 + off)
    {
      hide Proper, At, WholeTM, Enclosing, Committed, InBounds, Scatter, Elems, Run, PastLoop, Fitting;
      ghost var b, m := b0 + off0, mem[..];
      Repetitions(pos, cnt0, src0, b, 0);
      var end := code[pos + code[pos].items];
      LoopInMemory(pos, cnt0, src0, b);
      ghost var k := Fitting(cnt0, end.size, |packed| - off0);
      FittingBounds(cnt0, end.size, |packed| - off0);
      Repetitions(pos, cnt0, src0, b, k);
      hide Running;
      cnt, src, off := UnpackContiguousLoop(code[pos], end, cnt0, src0, packed, off0);
      MoreWritten(packed, off0, off, b0, m0, m);
      hide Written;
    }

    method UnpackLoop(packed: seq<byte>, off0: nat, pos0: int, cnt0: nat, src0: int, ghost b0: nat, ghost m0: seq<byte>)
      returns (off: nat, pos: int, cnt: nat, src: int)
      requires Unpacking(packed, off0, pos0, cnt0, src0, b0, m0) && code[pos0].Loop?
      modifies mem, stack, `stackPos
      ensures Unpacking(packed, off, pos, cnt, src, b0, m0)
      ensures off > off0 || (off == off0 && !code[pos].EndLoop?
                             && Hi(code, Top(Frames())) - pos < old(Hi(code, Top(Frames()))) - pos0)
    {
      hide Proper, At, WholeTM, Enclosing, Committed, InBounds, Scatter, Elems, Run, Written;
      ghost var fs := Frames();
      Place(code, extent, total, fs, pos0, cnt0, src0, b0 + off0);
      off, pos, cnt, src := off0, pos0, cnt0, src0;
      if code[pos].contiguous {
        off, cnt, src := UnpackRepetitions(packed, off, pos, cnt, src, b0, m0);
        if cnt == 0 {
          pos := pos + code[pos].items + 1;
          src, cnt := stack[stackPos].disp, Counter(code[pos]);
          Place(code, extent, total, fs, pos, cnt, src, b0 + off);
          return;
        }
      } else {
        ProperAt(code, extent, total, fs, pos, cnt, src, b0 + off);
      }
      pos, cnt, src := OpenLoop(pos, cnt, src - src0, src, b0 + off);
    }

    /** The next element, at the place where the message puts it. */
    lemma {:induction false} NextElement(pos: int, cnt: nat, src: int, b: nat, i: nat, j: nat)
      requires Running(pos, cnt, src, b) && 0 <= pos < |code| && code[pos].Data? && i <= j <= code[pos].typ.size
      ensures cnt >= 1 && code[pos].typ.size >= 1 && b + code[pos].typ.size <= |Whole()|
      ensures Whole()[b + i..b + j] == Run(src + code[pos].disp + i, j - i)
      ensures InBounds(mem.Length, base, Whole()[b + i..b + j])
      ensures 0 <= base + src + code[pos].disp && base + src + code[pos].disp + code[pos].typ.size <= mem.Length
    {
      hide Proper, WholeTM, Enclosing, Committed, InBounds, Run;
      Place(code, extent, total, Frames(), pos, cnt, src, b);
      MoveData(code, extent, total, Frames(), pos, cnt, src, b, 1);
      var r, whole := code[pos], Whole();
      SingleElem(r.typ.size, src + r.disp, r.extent);
      BoundsSlice(mem.Length, base, whole, b, b + r.typ.size);
      BoundsSlice(mem.Length, base, whole, b + i, b + j);
      RunBounds(mem.Length, base, src + r.disp, r.typ.size);
      SliceSlice(whole, b, b + r.typ.size, i, j);
      RunPiece(src + r.disp, r.typ.size, i, j);
    }

    /** The missing bytes of an element that the previous fragment split. */
    method FinishSplit(packed: seq<byte>, pos0: int, cnt0: nat, src0: int, ghost b0: nat)
      returns (off: nat, pos: int, cnt: nat, src: int)
      requires 0 < partialLength <= b0 && Running(pos0, cnt0, src0, b0 - partialLength) && Splittable()
      requires 0 <= pos0 < |code| && code[pos0].Data? && partialLength < code[pos0].typ.size <= |packed| + partialLength
      modifies mem, `partialLength
      ensures partialLength == 0 && Unpacking(packed, off, pos, cnt, src, b0, old(mem[..]))
    {
      hide Proper, At, WholeTM, Enclosing, Committed, InBounds, Scatter, Elems, Run;
      var size := code[pos0].typ.size;
      ghost var b, p := b0 - partialLength, partialLength;
      NextElement(pos0, cnt0, src0, b, p, size);
      MoveData(code, extent, total, Frames(), pos0, cnt0, src0, b, 1);
      off := size - partialLength;
      AsRead(pos0);
      src := UnpackPartial(desc[pos0], packed[..off], partialLength, size, src0);
      SplitWritten(packed, off, b0, old(mem[..]));
      cnt, pos, partialLength := cnt0 - 1, pos0, 0;
      if cnt == 0 {
        src, pos := stack[stackPos].disp, pos + 1;
        cnt := Counter(code[pos]);
      }
      Place(code, extent, total, Frames(), pos, cnt, src, b + size);
    }

    lemma {:induction false} SplitWritten(packed: seq<byte>, off: nat, b0: nat, m0: seq<byte>)
      requires |code| > 0 && off <= |packed| && b0 + off <= |Whole()| && |m0| == mem.Length
      requires InBounds(|m0|, base, Whole()[b0..b0 + off])
      requires mem[..] == Scatter(m0, base, Whole()[b0..b0 + off], packed[..off])
      ensures Written(packed, off, b0, m0)
    {}

    /** The first bytes of an element that the fragment does not hold completely. */
    method StartSplit(packed: seq<byte>, off: nat, pos: int, cnt: nat, src: int, ghost b0: nat, ghost m0: seq<byte>)
      requires Unpacking(packed, off, pos, cnt, src, b0, m0) && code[pos].Data? && Splittable()
      requires off < |packed| < off + code[pos].typ.size
      modifies mem, `partialLength
      ensures partialLength == |packed| - off && Written(packed, |packed|, b0, m0)
    {
      hide Proper, At, WholeTM, Enclosing, Committed, InBounds, Scatter, Elems, Run;
      ghost var m := mem[..];
      var left := |packed| - off;
      NextElement(pos, cnt, src, b0 + off, 0, left);
      AsRead(pos);
      var temp := UnpackPartial(desc[pos], packed[off..], 0, left, src);
      assert packed[off..] == packed[off..|packed|];
      MoreWritten(packed, off, |packed|, b0, m0, m);
      partialLength := left;
    }

    /** One step of the loop over the records. */
    method UnpackStep(packed: seq<byte>, off0: nat, pos0: int, cnt0: nat, src0: int, ghost b0: nat, ghost m0: seq<byte>)
      returns (stop: bool, done: bool, off: nat, pos: int, cnt: nat, src: int)
      requires Unpacking(packed, off0, pos0, cnt0, src0, b0, m0) && partialLength == 0 && Splittable()
      modifies stack, `stackPos, mem, `partialLength
      ensures |code| > 0 && b0 + off0 <= |Whole()| && (done ==> stop)
      ensures stop ==> Written(packed, off, b0, m0)
      ensures done ==> b0 + off == |Whole()| && partialLength == 0
      ensures stop && !done ==> Stopped(packed, off, pos, cnt, src, b0)
      ensures !stop ==> Unpacking(packed, off, pos, cnt, src, b0, m0) && partialLength == 0
      ensures !stop ==> off > off0 || (off == off0 && (Ending(pos) < Ending(pos0)
                                                       || (Ending(pos) == Ending(pos0)
                                                           && Steps(pos) < old(Steps(pos0)))))
    {
      hide Proper, At, WholeTM, Enclosing, Committed, InBounds, Scatter, Elems, Run, Written, Splittable;
      Place(code, extent, total, Frames(), pos0, cnt0, src0, b0 + off0);
      stop, done, off := false, false, off0;
      if code[pos0].Data? {
        stop, off, pos, cnt, src := UnpackData(packed, off0, pos0, cnt0, src0, b0, m0);
        Place(code, extent, total, Frames(), pos, cnt, src, b0 + off);
        if stop {
          WrittenBounds(packed, off, b0, m0);
          if off != |packed| {
            StartSplit(packed, off, pos, cnt, src, b0, m0);
            off := |packed|;
          }
        }
      } else if code[pos0].EndLoop? {
        done, pos, cnt, src := CloseLoop(pos0, cnt0, src0, b0 + off0);
        stop := done;
        if !done { Place(code, extent, total, Frames(), pos, cnt, src, b0 + off0); }
      } else {
        off, pos, cnt, src := UnpackLoop(packed, off0, pos0, cnt0, src0, b0, m0);
        Place(code, extent, total, Frames(), pos, cnt, src, b0 + off);
      }
    }

    /** The fragment is used up; its last bytes may belong to a split element. */
    ghost predicate Stopped(packed: seq<byte>, off: nat, pos: int, cnt: nat, src: int, b0: nat)
      reads `stackPos, stack, `partialLength
    {
      && off == |packed| && partialLength <= b0 + off && Running(pos, cnt, src, b0 + off - partialLength)
      && 0 <= pos < |code| && code[pos].Data? && partialLength < code[pos].typ.size
    }

    lemma {:induction false} StartUnpacking(packed: seq<byte>, pos: int, cnt: nat, src: int, b0: nat)
      requires Running(pos, cnt, src, b0) && 0 <= pos < |code|
      ensures |code| > 0 && Unpacking(packed, 0, pos, cnt, src, b0, mem[..])
    {
      hide Proper, At, WholeTM, Enclosing, Committed, InBounds, Scatter, Elems, Run;
      Place(code, extent, total, Frames(), pos, cnt, src, b0);
      NothingWritten(packed, b0);
    }

    lemma {:induction false} StoppedIs(packed: seq<byte>, off: nat, pos: int, cnt: nat, src: int, b0: nat)
      requires Stopped(packed, off, pos, cnt, src, b0)
      ensures off == |packed| && partialLength <= b0 + off && Running(pos, cnt, src, b0 + off - partialLength)
      ensures 0 <= pos < |code| && code[pos].Data? && partialLength < code[pos].typ.size
    {
      hide Running;
    }

    /** Unpacks one fragment: the body of the loop over the iovec entries. */
    method UnpackIovec(packed: seq<byte>, pos0: int, cnt0: nat, src0: int, ghost b0: nat)
      returns (off: nat, done: bool, pos: int, cnt: nat, src: int)
      requires partialLength <= b0 && Running(pos0, cnt0, src0, b0 - partialLength) && 0 <= pos0 < |code|
      requires Splittable()
      requires partialLength != 0 ==>
                 code[pos0].Data? && partialLength < code[pos0].typ.size <= |packed| + partialLength
      modifies stack, `stackPos, mem, `partialLength
      ensures Written(packed, off, b0, old(mem[..]))
      ensures done ==> b0 + off == |Whole()| && partialLength == 0
      ensures !done ==> off == |packed| && partialLength <= b0 + off && Running(pos, cnt, src, b0 + off - partialLength)
                        && 0 <= pos < |code| && code[pos].Data? && partialLength < code[pos].typ.size
    {
      hide *;
      ghost var m0 := mem[..];
      off, done, pos, cnt, src := 0, false, pos0, cnt0, src0;
      if partialLength != 0 {
        off, pos, cnt, src := FinishSplit(packed, pos, cnt, src, b0);
      } else {
        StartUnpacking(packed, pos, cnt, src, b0);
      }
      var stop := false;
      while !stop
        invariant done ==> stop && b0 + off == |Whole()| && partialLength == 0
        invariant stop ==> Written(packed, off, b0, m0)
        invariant stop && !done ==> Stopped(packed, off, pos, cnt, src, b0)
        invariant !stop ==> Unpacking(packed, off, pos, cnt, src, b0, m0) && partialLength == 0
        decreases if stop then 0 else 1, |Whole()| - b0 - off, Ending(pos), Steps(pos)
      {
        stop, done, off, pos, cnt, src := UnpackStep(packed, off, pos, cnt, src, b0, m0);
      }
      if !done { StoppedIs(packed, off, pos, cnt, src, b0); }
    }

    lemma {:induction false} NothingWritten(packed: seq<byte>, b0: nat)
      requires |code| > 0 && b0 <= |Whole()|
      ensures Written(packed, 0, b0, mem[..])
    {
      assert Whole()[b0..b0] == [] && packed[..0] == [];
      ScatterNothing(mem[..], base);
    }

    lemma {:induction false} WrittenBounds(packed: seq<byte>, off: nat, b0: nat, m0: seq<byte>)
      requires Written(packed, off, b0, m0)
      ensures off <= |packed| && b0 + off <= |Whole()|
    {}

    /** A fragment that follows a split element holds at least the bytes that element lacks. */
    ghost predicate Fragments(iov: seq<seq<byte>>, b: nat) {
      && Committed(code)
      && forall i {:trigger iov[i]} :: 0 <= i < |iov| && b + |FlatTo(iov, i)| < |Whole()| ==>
           MissingAt(code, b + |FlatTo(iov, i)|) <= |iov[i]|
    }

    lemma {:induction false} JoinWritten(a: seq<byte>, x: seq<byte>, off: nat, b0: nat, m0: seq<byte>, m: seq<byte>)
      requires |code| > 0 && b0 + |a| <= |Whole()| && |m0| == mem.Length == |m|
      requires InBounds(|m0|, base, Whole()[b0..b0 + |a|])
      requires m == Scatter(m0, base, Whole()[b0..b0 + |a|], a)
      requires Written(x, off, b0 + |a|, m)
      ensures Written(a + x, |a| + off, b0, m0)
    {
      hide WholeTM, Scatter;
      var c, d := b0 + |a|, b0 + |a| + off;
      ScatterAppend(m0, base, Whole()[b0..c], Whole()[c..d], a, x[..off]);
      assert Whole()[b0..c] + Whole()[c..d] == Whole()[b0..d];
      assert (a + x)[..|a| + off] == a + x[..off];
    }

    /** A split element lacks what the byte offset says. */
    lemma {:induction false} SplitLacks(pos: int, cnt: nat, src: int, b: nat, p: nat)
      requires p <= b && Running(pos, cnt, src, b - p) && 0 <= pos < |code| && code[pos].Data? && p < code[pos].typ.size
      ensures Committed(code) && b < |Whole()|
      ensures MissingAt(code, b) == if p == 0 then 0 else code[pos].typ.size - p
    {
      hide Proper, WholeTM, Enclosing, MissingAt;
      StopAt(code, extent, total, Frames(), pos, cnt, src, b - p, p);
    }

    /** A run stands between two fragments, `b` bytes into the message. */
    ghost predicate Midway(pos: int, cnt: nat, src: int, b: nat)
      reads `stackPos, `partialLength, stack
    {
      && partialLength <= b && Running(pos, cnt, src, b - partialLength) && 0 <= pos < |code| && !code[pos].EndLoop?
      && (partialLength != 0 ==> code[pos].Data? && partialLength < code[pos].typ.size)
    }

    /** After `i` fragments `n` bytes went to user memory and the run is finished or goes on. */
    ghost predicate Taking(iov: seq<seq<byte>>, i: nat, n: nat, done: bool, pos: int, cnt: nat, src: int, b0: nat,
                           m0: seq<byte>)
      reads `stackPos, `partialLength, stack, mem
      requires i <= |iov|
    {
      && Written(FlatTo(iov, i), n, b0, m0)
      && (done ==> b0 + n == |Whole()| && partialLength == 0)
      && (!done ==> n == |FlatTo(iov, i)| && Midway(pos, cnt, src, b0 + n) && (i > 0 ==> code[pos].Data?))
    }

    method UnpackNext(iov: seq<seq<byte>>, i: nat, n0: nat, pos0: int, cnt0: nat, src0: int, ghost b0: nat,
                      ghost m0: seq<byte>)
      returns (n: nat, done: bool, pos: int, cnt: nat, src: int)
      requires i < |iov| && Taking(iov, i, n0, false, pos0, cnt0, src0, b0, m0)
      requires Splittable() && Fragments(iov, b0)
      modifies stack, `stackPos, mem, `partialLength
      ensures Taking(iov, i + 1, n, done, pos, cnt, src, b0, m0)
    {
      hide Proper, WholeTM, Enclosing, InBounds, Scatter, MissingAt, Written, Taking, Midway, FlatTo;
      ghost var m := mem[..];
      TakingFacts(iov, i, n0, pos0, cnt0, src0, b0, m0);
      var off;
      off, done, pos, cnt, src := UnpackIovec(iov[i], pos0, cnt0, src0, b0 + n0);
      n := n0 + off;
      JoinWritten(FlatTo(iov, i), iov[i], off, b0, m0, m);
      TakingMore(iov, i, n0, off, done, pos, cnt, src, b0, m0);
    }

    lemma {:induction false} TakingFacts(iov: seq<seq<byte>>, i: nat, n: nat, pos: int, cnt: nat, src: int, b0: nat,
                                         m0: seq<byte>)
      requires i < |iov| && Taking(iov, i, n, false, pos, cnt, src, b0, m0) && Fragments(iov, b0)
      ensures |code| > 0 && n == |FlatTo(iov, i)| && b0 + n <= |Whole()| && |m0| == mem.Length
      ensures InBounds(|m0|, base, Whole()[b0..b0 + n])
      ensures mem[..] == Scatter(m0, base, Whole()[b0..b0 + n], FlatTo(iov, i))
      ensures partialLength <= b0 + n && Running(pos, cnt, src, b0 + n - partialLength) && 0 <= pos < |code|
      ensures partialLength != 0 ==> code[pos].Data? && partialLength < code[pos].typ.size <= |iov[i]| + partialLength
    {
      hide Proper, WholeTM, Enclosing, InBounds, Scatter, MissingAt, FlatTo;
      assert FlatTo(iov, i)[..n] == FlatTo(iov, i);
      if partialLength != 0 {
        SplitLacks(pos, cnt, src, b0 + n, partialLength);
      }
    }

    lemma {:induction false} TakingMore(iov: seq<seq<byte>>, i: nat, n0: nat, off: nat, done: bool, pos: int, cnt: nat,
                                        src: int, b0: nat, m0: seq<byte>)
      requires i < |iov| && n0 == |FlatTo(iov, i)| && Written(FlatTo(iov, i) + iov[i], n0 + off, b0, m0)
      requires done ==> b0 + n0 + off == |Whole()| && partialLength == 0
      requires !done ==>
                 off == |iov[i]| && partialLength <= b0 + n0 + off
                 && Running(pos, cnt, src, b0 + n0 + off - partialLength)
                         && 0 <= pos < |code| && code[pos].Data? && partialLength < code[pos].typ.size
      ensures Taking(iov, i + 1, n0 + off, done, pos, cnt, src, b0, m0)
    {
      hide Written, Running, WholeTM;
    }

    lemma {:induction false} StartTaking(iov: seq<seq<byte>>, pos: int, cnt: nat, src: int, b0: nat)
      requires Midway(pos, cnt, src, b0) && b0 <= |Whole()|
      ensures Taking(iov, 0, 0, false, pos, cnt, src, b0, mem[..])
    {
      hide WholeTM;
      NothingWritten([], b0);
    }

    /** Unpacks from a resumed position until the fragments or the message are used up. */
    method UnpackAll(iov: seq<seq<byte>>, pos0: int, cnt0: nat, src0: int, ghost b0: nat)
      returns (n: nat, done: bool, pos: int, cnt: nat, src: int)
      requires Midway(pos0, cnt0, src0, b0) && b0 <= |Whole()| && Splittable() && Fragments(iov, b0)
      modifies stack, `stackPos, mem, `partialLength
      ensures Written(Flat(iov), n, b0, old(mem[..]))
      ensures done ==> b0 + n == |Whole()| && partialLength == 0
      ensures !done ==> n == |Flat(iov)| && Midway(pos, cnt, src, b0 + n) && (|iov| > 0 ==> code[pos].Data?)
    {
      hide *;
      StartTaking(iov, pos0, cnt0, src0, b0);
      n, done, pos, cnt, src := 0, false, pos0, cnt0, src0;
      ghost var m0 := mem[..];
      var i := 0;
      while i < |iov| && !done
        invariant 0 <= i <= |iov| && Taking(iov, i, n, done, pos, cnt, src, b0, m0)
        decreases |iov| - i
      {
        n, done, pos, cnt, src := UnpackNext(iov, i, n, pos, cnt, src, b0, m0);
        i := i + 1;
      }
      TakingEnds(iov, i, n, done, pos, cnt, src, b0, m0);
    }

    lemma {:induction false} TakingEnds(iov: seq<seq<byte>>, i: nat, n: nat, done: bool, pos: int, cnt: nat, src: int,
                                        b0: nat, m0: seq<byte>)
      requires i <= |iov| && Taking(iov, i, n, done, pos, cnt, src, b0, m0) && (i == |iov| || done)
      ensures |code| > 0 && Written(Flat(iov), n, b0, m0)
      ensures done ==> b0 + n == |Whole()| && partialLength == 0
      ensures !done ==> n == |Flat(iov)| && Midway(pos, cnt, src, b0 + n) && (|iov| > 0 ==> code[pos].Data?)
    {
      hide Running, WholeTM, FlatTo, InBounds, Scatter;
      WrittenPrefix(iov, i, n, b0, m0);
    }

    lemma {:induction false} WrittenPrefix(iov: seq<seq<byte>>, i: nat, n: nat, b0: nat, m0: seq<byte>)
      requires i <= |iov| && Written(FlatTo(iov, i), n, b0, m0)
      ensures Written(Flat(iov), n, b0, m0)
    {
      FlatPrefix(iov, i);
      assert Flat(iov)[..n] == FlatTo(iov, i)[..n];
    }

    /** Unpacks a list of fragments, in order, and can be called again for the rest. */
    method Unpack(iov: seq<seq<byte>>) returns (maxData: nat, status: bool)
      requires Valid() && Splittable() && (!completed ==> Fragments(iov, bConverted))
      modifies this`stackPos, this`bConverted, this`completed, this`partialLength, stack, mem
      ensures Valid() && status == completed && bConverted == old(bConverted) + maxData
      ensures Written(Flat(iov), maxData, old(bConverted), old(mem[..]))
      ensures !completed ==> maxData == |Flat(iov)| && (|iov| > 0 ==> AtData())
      ensures completed && !old(completed) ==> partialLength == 0
    {
      hide Proper, WholeTM, Running, Saved, Setup, Written, Fragments, InBounds, Committed, WF, Splittable;
      if completed {
        NothingUnpacked(iov);
        return 0, true;
      }
      var pos, cnt, src := Resume(bConverted, partialLength);
      maxData, completed, pos, cnt, src := UnpackAll(iov, pos, cnt, src, bConverted);
      bConverted := bConverted + maxData;
      if completed {
        return maxData, true;
      }
      RunningBounds(pos, cnt, src, bConverted - partialLength);
      if partialLength != 0 {
        SplitLacks(pos, cnt, src, bConverted, partialLength);
      }
      Suspend(pos, cnt, src, bConverted, partialLength);
      status := false;
    }

    lemma {:induction false} NothingUnpacked(iov: seq<seq<byte>>)
      requires Setup() && bConverted <= |Whole()|
      ensures Written(Flat(iov), 0, bConverted, mem[..])
    {
      NothingWritten(Flat(iov), bConverted);
    }

    // ----- seeking -----

    /** Skips over whole datatypes: every entry but the saved position moves on. */
    method JumpAhead(n: nat, ghost b: nat, ghost p: nat)
      requires Saved(b, p) && p <= b && n * size < |Whole()| - (b - p)
      modifies stack
      ensures 0 <= n * size && Saved(b + n * size, p)
    {
      hide Proper, WholeTM, Enclosing, Committed, InBounds, TM;
      ghost var fs, top := stack[..stackPos], stack[stackPos];
      Skip(code, extent, total, fs, top.index, top.count, Top(fs).disp + top.disp, b - p, n, size);
      var i := 0;
      while i < stackPos
        invariant 0 <= i <= stackPos && stack[stackPos] == top
        invariant forall k :: 0 <= k < i ==> stack[k] == fs[k].(disp := fs[k].disp + n * extent)
        invariant forall k :: i <= k < stackPos ==> stack[k] == fs[k]
      {
        stack[i] := stack[i].(disp := stack[i].disp + n * extent);
        i := i + 1;
      }
      stack[0] := stack[0].(count := stack[0].count - n);
      assert stack[..stackPos] == Skipped(fs, n, extent);
    }

    /** A record as it is in the description and as it is read. */
    lemma {:induction false} DescAt(pos: int)
      requires Setup() && 0 <= pos < |code|
      ensures |desc| == |code|
      ensures code[pos].Data? ==>
                && desc[pos].Data? && desc[pos].typ == code[pos].typ && desc[pos].count == code[pos].count
                && desc[pos].disp == code[pos].disp
                && (desc[pos] == code[pos] <==> desc[pos].extent == code[pos].extent)
      ensures !code[pos].Data? ==> desc[pos] == code[pos]
      ensures !receives ==> desc[pos] == code[pos]
    {
      hide Committed, WholeTM, InBounds, TM, Enclosing;
    }

    /** How far the position is off after stepping over `k` elements of a record with its own extent instead of
        the one with which it is read. */
    ghost function Drift(pos: int, k: nat): int
      requires 0 <= pos < |code| && |desc| == |code|
    {
      if code[pos].Data? && desc[pos].Data? then k * (desc[pos].extent - code[pos].extent) else 0
    }

    /** The run is at record `pos`; `k` of its elements were skipped in this seek, `moved` bytes in all. */
    ghost predicate Seeking(pos: int, cnt: nat, src: int, b: nat, k: nat, moved: nat)
      reads `stackPos, stack
    {
      && Setup() && 0 <= pos < |code| && |desc| == |code| && Running(pos, cnt, src - Drift(pos, k), b)
      && (code[pos].Data? ==>
            cnt <= code[pos].count
            && k * code[pos].typ.size == Least((code[pos].count - cnt) * code[pos].typ.size, moved))
      && (!code[pos].Data? ==> k == 0)
    }

    lemma {:induction false} SeekingIs(pos: int, cnt: nat, src: int, b: nat, k: nat, moved: nat)
      requires Setup() && 0 <= pos < |code| && |desc| == |code| && Running(pos, cnt, src - Drift(pos, k), b)
      requires code[pos].Data? ==>
                 cnt <= code[pos].count
                 && k * code[pos].typ.size == Least((code[pos].count - cnt) * code[pos].typ.size, moved)
      requires !code[pos].Data? ==> k == 0
      ensures Seeking(pos, cnt, src, b, k, moved)
    {}

    /** At a record that is not begun nothing of it was skipped. */
    lemma {:induction false} SeekingFresh(pos: int, src: int, b: nat, moved: nat)
      requires 0 <= pos < |code| && Running(pos, Counter(code[pos]), src, b)
      ensures Seeking(pos, Counter(code[pos]), src, b, 0, moved)
    {
      DescAt(pos);
      hide Proper, Setup;
    }

    lemma {:induction false} SeekingStart(pos: int, cnt: nat, src: int, b: nat)
      requires 0 <= pos < |code| && Running(pos, cnt, src, b)
      ensures Seeking(pos, cnt, src, b, 0, 0)
    {
      hide *;
      RunningSetup(pos, cnt, src, b);
      DescAt(pos);
      if code[pos].Data? {
        RunningCount(pos, cnt, src, b);
        MulMono(0, code[pos].count - cnt, code[pos].typ.size);
        LeastNone((code[pos].count - cnt) * code[pos].typ.size);
      }
      NoDrift(pos);
      SeekingIs(pos, cnt, src, b, 0, 0);
    }

    lemma {:induction false} RunningSetup(pos: int, cnt: nat, src: int, b: nat)
      requires Running(pos, cnt, src, b)
      ensures Setup()
    {
      hide Setup, Proper;
    }

    lemma {:induction false} LeastNone(a: int)
      ensures a >= 0 ==> Least(a, 0) == 0
    {}

    lemma {:induction false} NoDrift(pos: int)
      requires 0 <= pos < |code| && |desc| == |code|
      ensures Drift(pos, 0) == 0
    {}

    lemma {:induction false} RunningCount(pos: int, cnt: nat, src: int, b: nat)
      requires Running(pos, cnt, src, b) && 0 <= pos < |code| && code[pos].Data?
      ensures 1 <= cnt <= code[pos].count && code[pos].typ.size >= 1
    {
      Place(code, extent, total, Frames(), pos, cnt, src, b);
      hide WholeTM, RemAt, FramesOK, Setup;
    }

    /** The elements of a record that a seek steps over, and the bytes. */
    lemma {:induction false} MoreSkipped(k0: nat, k: nat, done: nat, s: nat, moved: nat)
      requires s >= 1 && k0 * s == Least(done * s, moved)
      ensures 0 <= k * s && (k0 + k) * s == Least((done + k) * s, moved + k * s)
    {
      MulMono(0, k, s);
      assert (k0 + k) * s == k0 * s + k * s && (done + k) * s == done * s + k * s;
    }

    method PositionData(pos0: int, cnt0: nat, src0: int, space0: nat, ghost b: nat, ghost k0: nat, ghost moved: nat)
      returns (stop: bool, pos: int, cnt: nat, src: int, space: nat, ghost skipped: nat)
      requires Seeking(pos0, cnt0, src0, b, k0, moved) && code[pos0].Data?
      ensures space <= space0 && Seeking(pos, cnt, src, b + space0 - space, skipped, moved + space0 - space)
      ensures 0 <= stackPos < stack.Length && Framed(code, Top(Frames()))
      ensures stop ==> pos == pos0 && space < code[pos].typ.size
      ensures !stop ==> space < space0
    {
      hide Proper, At, WholeTM, Enclosing, Committed, InBounds, Elems;
      ghost var fs, here := Frames(), src0 - Drift(pos0, k0);
      Place(code, extent, total, fs, pos0, cnt0, here, b);
      DescAt(pos0);
      var r := desc[pos0];
      var k := cnt0;
      FittingBounds(cnt0, r.typ.size, space0);
      if cnt0 * r.typ.size > space0 {
        k := space0 / r.typ.size;
      }
      MoveData(code, extent, total, fs, pos0, cnt0, here, b, k);
      pos, cnt, src, space := pos0, cnt0 - k, src0 + k * r.extent, space0 - k * r.typ.size;
      if cnt != 0 {
        skipped := k0 + k;
        MoreSkipped(k0, k, code[pos].count - cnt0, r.typ.size, moved);
        MoreDrift(k0, k, r.extent, code[pos].extent);
        Place(code, extent, total, fs, pos, cnt, here + k * code[pos].extent, b + space0 - space);
        SeekingIs(pos, cnt, src, b + space0 - space, skipped, moved + space0 - space);
        return true, pos, cnt, src, space, skipped;
      }
      MulMono(1, cnt0, r.typ.size);
      src, pos := stack[stackPos].disp, pos + 1;
      stop, cnt, skipped := false, Counter(code[pos]), 0;
      Place(code, extent, total, fs, pos, cnt, src, b + space0 - space);
      SeekingFresh(pos, src, b + space0 - space, moved + space0 - space);
    }

    lemma {:induction false} MoreDrift(k0: nat, k: nat, e: int, c: int)
      ensures k * e - (k0 + k) * (e - c) == k * c - k0 * (e - c)
    {
      assert (k0 + k) * (e - c) == k0 * (e - c) + k * (e - c) && k * (e - c) == k * e - k * c;
    }

    method PositionLoop(pos0: int, cnt0: nat, src0: int, space0: nat, ghost b: nat)
      returns (pos: int, cnt: nat, src: int, space: nat)
      requires Running(pos0, cnt0, src0, b) && 0 <= pos0 < |code| && code[pos0].Loop? && Framed(code, Top(Frames()))
      modifies stack, `stackPos
      ensures space <= space0 && Running(pos, cnt, src, b + space0 - space) && 0 <= pos < |code|
      ensures Framed(code, Top(Frames()))
      ensures cnt == Counter(code[pos])
      ensures space < space0
              || (!code[pos].EndLoop? && Hi(code, Top(Frames())) - pos < old(Hi(code, Top(Frames()))) - pos0)
    {
      hide Proper, At, WholeTM, Enclosing, Committed, InBounds, Elems;
      ghost var fs := Frames();
      Place(code, extent, total, fs, pos0, cnt0, src0, b);
      pos, cnt, src, space := pos0, cnt0, src0, space0;
      if code[pos].contiguous {
        var end := code[pos + code[pos].items];
        var k := cnt;
        FittingBounds(cnt, end.size, space);
        if cnt * end.size > space {
          k := space / end.size;
        }
        if k < cnt {
          SomeLoops(code, extent, total, fs, pos, cnt, src, b, k);
        } else {
          AllLoops(code, extent, total, fs, pos, cnt, src, b);
        }
        cnt, src, space := cnt - k, src + k * code[pos].extent, space - k * end.size;
        if cnt == 0 {
          AtHere(code, extent, total, fs, pos0, cnt0, src0, b);
          MulMono(1, cnt0, end.size);
          pos := pos + code[pos].items + 1;
          src, cnt := stack[stackPos].disp, Counter(code[pos]);
          Place(code, extent, total, fs, pos, cnt, src, b + space0 - space);
          return;
        }
      } else {
        ProperAt(code, extent, total, fs, pos, cnt, src, b);
      }
      pos, cnt, src := OpenLoop(pos, cnt, src - src0, src, b + space0 - space);
    }

    /** Walks over `space0` bytes without copying anything; `skipped` elements of the last record. */
    method Walk(pos0: int, cnt0: nat, src0: int, space0: nat, ghost b0: nat)
      returns (pos: int, cnt: nat, src: int, ghost skipped: nat)
      requires Running(pos0, cnt0, src0, b0) && 0 <= pos0 < |code| && b0 + space0 < |Whole()|
      modifies stack, `stackPos, `partialLength
      ensures partialLength <= space0
      ensures Seeking(pos, cnt, src, b0 + space0 - partialLength, skipped, space0 - partialLength)
      ensures code[pos].Data? && partialLength < code[pos].typ.size
    {
      hide *;
      var space: nat := space0;
      pos, cnt, src, skipped := pos0, cnt0, src0, 0;
      SeekingStart(pos, cnt, src, b0);
      SeekingPlace(pos, cnt, src, b0, 0, 0);
      while true
        invariant space <= space0 && Seeking(pos, cnt, src, b0 + space0 - space, skipped, space0 - space)
        invariant 0 <= stackPos < stack.Length && 0 <= pos < |code| && |Frames()| > 0 && Framed(code, Top(Frames()))
        decreases space, if code[pos].EndLoop? then 1 else 0,
                  if code[pos].EndLoop? then stackPos else Hi(code, Top(Frames())) - pos
      {
        SeekingPlace(pos, cnt, src, b0 + space0 - space, skipped, space0 - space);
        if code[pos].Data? {
          var stop;
          stop, pos, cnt, src, space, skipped :=
            PositionData(pos, cnt, src, space, b0 + space0 - space, skipped, space0 - space);
          SeekingPlace(pos, cnt, src, b0 + space0 - space, skipped, space0 - space);
          if stop {
            partialLength := space;
            return;
          }
        } else if code[pos].EndLoop? {
          var done;
          done, pos, cnt, src := CloseLoop(pos, cnt, src, b0 + space0 - space);
          if done {
            assert false;
          }
          skipped := 0;
          SeekingFresh(pos, src, b0 + space0 - space, space0 - space);
        } else {
          pos, cnt, src, space := PositionLoop(pos, cnt, src, space, b0 + space0 - space);
          skipped := 0;
          SeekingFresh(pos, src, b0 + space0 - space, space0 - space);
        }
        SeekingPlace(pos, cnt, src, b0 + space0 - space, skipped, space0 - space);
      }
    }

    /** Where a seek is. */
    lemma {:induction false} SeekingPlace(pos: int, cnt: nat, src: int, b: nat, k: nat, moved: nat)
      requires Seeking(pos, cnt, src, b, k, moved)
      ensures 0 <= stackPos < stack.Length && 0 <= pos < |code| == |desc| && |Frames()| > 0
      ensures Framed(code, Top(Frames()))
      ensures pos <= Hi(code, Top(Frames())) && (code[pos].EndLoop? ==> pos == Hi(code, Top(Frames())))
      ensures Running(pos, cnt, src - Drift(pos, k), b) && (!code[pos].Data? ==> k == 0 && Drift(pos, k) == 0)
    {
      SeekingAt(pos, cnt, src, b, k, moved);
      hide Seeking, WholeTM, Proper, Committed, InBounds, Enclosing, Drift;
      Place(code, extent, total, Frames(), pos, cnt, src - Drift(pos, k), b);
    }

    lemma {:induction false} SeekingAt(pos: int, cnt: nat, src: int, b: nat, k: nat, moved: nat)
      requires Seeking(pos, cnt, src, b, k, moved)
      ensures 0 <= pos < |code| && |desc| == |code| && Running(pos, cnt, src - Drift(pos, k), b)
      ensures !code[pos].Data? ==> k == 0 && Drift(pos, k) == 0
    {
      hide Proper, Setup;
    }

    /** Seeks forward to byte `position`.  The bytes of a split element are not taken into account, and elements
        of a record are stepped over with its own extent also if unpacking reads it with another one: the stack
        ends up where it belongs exactly when no element was split before, and nothing of the record where the
        seek ends was stepped over with a wrong extent. */
    method Position(position: nat) returns (ghost skipped: nat)
      requires Valid() && !completed && bConverted < position < |Whole()|
      modifies this`stackPos, this`bConverted, this`partialLength, stack
      ensures bConverted == position && AtData() && Setup() && old(partialLength) <= position
      ensures Skips(skipped, InLast(position - old(bConverted)))
      ensures SavedOff(position - old(partialLength), partialLength, Drift(stack[stackPos].index, skipped))
      ensures Valid() <==> old(partialLength) == 0 && InStep(skipped)
    {
      hide *;
      ghost var p := partialLength;
      StartSeek();
      var space := position - bConverted;
      SizePositive();
      InLastIs(space);
      if space > size {
        var n := space / size;
        assert n * size <= space;
        assert space - n * size == space % size;
        JumpAhead(n, bConverted, p);
        bConverted := bConverted + n * size;
        space := position - bConverted;
      }
      var pos, cnt, src := Resume(bConverted, p);
      pos, cnt, src, skipped := Walk(pos, cnt, src, space, bConverted - p);
      bConverted := position;
      SeekingAt(pos, cnt, src, position - p - partialLength, skipped, space - partialLength);
      SkippedOf(pos, cnt, src, position - p - partialLength, skipped, space - partialLength);
      Suspend(pos, cnt, src, position - p, partialLength, Drift(pos, skipped));
      AfterSeek(pos, p, skipped);
      SkipsIs(skipped, space);
    }

    /** How many bytes a seek walks: whole datatypes are jumped over. */
    ghost function InLast(space: nat): nat {
      if space > size && size > 0 then space % size else space
    }

    lemma {:induction false} InLastIs(space: nat)
      requires size >= 1
      ensures InLast(space) == if space > size then space % size else space
    {}

    /** `k` elements of the record at the top of the stack were skipped by a seek that walked `walked` bytes: all
        that are done, or as many as these bytes hold. */
    ghost predicate Skips(k: nat, walked: nat)
      reads `stackPos, stack, `partialLength
    {
      && AtData() && partialLength <= walked
      && var top := stack[stackPos];
         && top.count <= code[top.index].count
         && k * code[top.index].typ.size
            == Least((code[top.index].count - top.count) * code[top.index].typ.size, walked - partialLength)
    }

    /** No elements were skipped, or they have the extent with which they are read. */
    ghost predicate InStep(k: nat)
      reads `stackPos, stack
    {
      AtData() && (k > 0 ==>
                     stack[stackPos].index < |desc| && desc[stack[stackPos].index] == code[stack[stackPos].index])
    }

    lemma {:induction false} SkippedOf(pos: int, cnt: nat, src: int, b: nat, k: nat, moved: nat)
      requires Seeking(pos, cnt, src, b, k, moved) && code[pos].Data?
      ensures cnt <= code[pos].count
      ensures k * code[pos].typ.size == Least((code[pos].count - cnt) * code[pos].typ.size, moved)
    {
      hide Proper, Setup, Running;
    }

    lemma {:induction false} SkipsIs(k: nat, walked: nat)
      requires AtData() && partialLength <= walked && stack[stackPos].count <= code[stack[stackPos].index].count
      requires var top, size := stack[stackPos], code[stack[stackPos].index].typ.size;
               k * size == Least((code[top.index].count - top.count) * size, walked - partialLength)
      ensures Skips(k, walked)
    {}

    lemma {:induction false} StartSeek()
      requires Valid() && !completed
      ensures Setup() && |code| > 0 && Saved(bConverted, partialLength) && partialLength <= bConverted < |Whole()|
    {
      hide WholeTM, Enclosing, InBounds, TM, Proper;
    }

    /** The state that a seek leaves belongs to one byte offset only. */
    lemma {:induction false} AfterSeek(pos: int, p: nat, k: nat)
      requires |code| > 0 && !completed && p <= bConverted < |Whole()| && 0 <= pos < |code| && code[pos].Data?
      requires |desc| == |code| && SavedOff(bConverted - p, partialLength, Drift(pos, k))
      requires 0 <= stackPos < stack.Length && stack[stackPos].index == pos
      ensures Setup() && AtData() && (Valid() <==> p == 0 && InStep(k))
    {
      hide *;
      OffSetup(bConverted - p, partialLength, Drift(pos, k));
      DescAt(pos);
      DriftIs(pos, k);
      DriftZero(k, desc[pos].extent - code[pos].extent);
      SavedOnce(bConverted - p, bConverted, partialLength, Drift(pos, k));
      ValidIs();
      InStepIs(pos, k);
    }

    lemma {:induction false} OffSetup(b: nat, p: nat, off: int)
      requires SavedOff(b, p, off)
      ensures Setup()
    {
      hide Setup, Proper;
    }

    lemma {:induction false} DriftIs(pos: int, k: nat)
      requires 0 <= pos < |code| && |desc| == |code| && code[pos].Data? && desc[pos].Data?
      ensures Drift(pos, k) == k * (desc[pos].extent - code[pos].extent)
    {}

    lemma {:induction false} ValidIs()
      requires |code| > 0 && Setup() && !completed && bConverted < |Whole()|
      ensures Valid() <==> Saved(bConverted, partialLength)
    {
      hide Setup, Saved, WholeTM;
    }

    lemma {:induction false} InStepIs(pos: int, k: nat)
      requires 0 <= stackPos < stack.Length && stack[stackPos].index == pos && 0 <= pos < |code| == |desc|
      requires code[pos].Data?
      ensures AtData() && (InStep(k) <==> k == 0 || desc[pos] == code[pos])
    {}

    lemma {:induction false} DriftZero(k: nat, d: int)
      ensures k * d == 0 <==> k == 0 || d == 0
    {}

    lemma {:induction false} SizePositive()
      requires Setup()
      ensures size >= 1
    {
      TMNonEmpty(Body(code), 0);
    }

    /** A saved state belongs to one byte offset only, and is not off. */
    lemma {:induction false} SavedOnce(b: nat, c: nat, p: nat, off: int)
      requires SavedOff(b, p, off)
      ensures Saved(c, p) <==> b == c && off == 0
    {
      hide OK, WholeTM, RemAt;
      if Saved(c, p) {
        var top, fs := stack[stackPos], stack[..stackPos];
        var src := stack[stackPos - 1].disp + top.disp;
        SamePlace(fs, top.index, top.count, src - off, src, b - p, c - p);
        assert |WholeTM(code, total, extent)[b - p..]| == |WholeTM(code, total, extent)[c - p..]|;
      }
    }

    /** The record, and how many of its elements are left, say where the next one lies. */
    lemma {:induction false} SamePlace(fs: seq<Frame>, pos: int, cnt: nat, a: int, b: int, x: nat, y: nat)
      requires Proper(code, extent, total, fs, pos, cnt, a, x) && Proper(code, extent, total, fs, pos, cnt, b, y)
      requires 0 <= pos < |code| && !code[pos].EndLoop?
      ensures a == b
    {
      AtEnd(code, extent, total, fs, pos, cnt, a);
      hide FramesOK, RemAt, WholeTM, TopOK;
    }

    /** The public seek. */
    method SetPosition(position: nat) returns (ghost skipped: nat)
      requires Valid()
      modifies this`stackPos, this`bConverted, this`partialLength, this`completed, stack
      ensures Setup() && bConverted == if position < |Whole()| then position else |Whole()|
      ensures completed <==> |Whole()| <= position
      ensures var moves := 0 < position < |Whole()| && position != old(bConverted);
              && (moves ==> AtData() && Skips(skipped, InLast(if position < old(bConverted) then position
                                                              else position - old(bConverted))))
              && (Valid() <==>
                    && (old(completed) || old(partialLength) == 0 || position <= old(bConverted)
                        || |Whole()| <= position)
                    && (moves ==> InStep(skipped)))
    {
      hide WholeTM, Proper, WF, TM, Enclosing, SavedOff, Saved, Committed;
      WholeLength();
      skipped := 0;
      if total * size <= position {
        completed, bConverted := true, total * size;
        return;
      }
      if position == bConverted {
        return;
      }
      completed := false;
      TotalPositive();
      if position == 0 || position < bConverted {
        CreateStackAtBegining();
        if position == 0 {
          return;
        }
      }
      skipped := Position(position);
    }

    lemma {:induction false} WholeLength()
      requires Setup()
      ensures |Whole()| == total * size
    {
      IterLength(Body(code), 0, extent, total);
    }

    lemma {:induction false} TotalPositive()
      requires Setup() && |Whole()| > 0
      ensures total >= 1
    {}
  }

  /** Two convertors for the same message that stopped at the same byte are in the same state. */
  lemma {:induction false} SameOffsetSameState(c: Convertor, d: Convertor, b: nat)
    requires c.code == d.code && c.extent == d.extent && c.total == d.total
    requires c.Saved(b, c.partialLength) && d.Saved(b, d.partialLength) && c.AtData() && d.AtData()
    ensures c.partialLength == d.partialLength
    ensures c.stack[..c.stackPos + 1] == d.stack[..d.stackPos + 1]
  {
    hide WF, TM, WholeTM, Enclosing, InBounds, Proper;
    var ct, dt := c.stack[c.stackPos], d.stack[d.stackPos];
    var cf, df := c.stack[..c.stackPos], d.stack[..d.stackPos];
    SameSaved(c.code, c.extent, c.total, cf, ct, c.partialLength, df, dt, d.partialLength, b);
    assert c.stack[..c.stackPos + 1] == cf + [ct] && d.stack[..d.stackPos + 1] == df + [dt];
  }

  lemma {:induction false} SameSaved(code: seq<Rec>, extent: int, total: nat, fs: seq<Frame>, f: Frame, p: nat,
                                     gs: seq<Frame>, g: Frame, q: nat, b: nat)
    requires |fs| >= 1 && |gs| >= 1 && p <= b && q <= b
    requires Proper(code, extent, total, fs, f.index, f.count, Top(fs).disp + f.disp, b - p)
    requires Proper(code, extent, total, gs, g.index, g.count, Top(gs).disp + g.disp, b - q)
    requires 0 <= f.index < |code| && code[f.index].Data? && (p > 0 ==> p < code[f.index].typ.size)
    requires 0 <= g.index < |code| && code[g.index].Data? && (q > 0 ==> q < code[g.index].typ.size)
    ensures fs == gs && f == g && p == q
  {
    hide WF, TM, WholeTM, OK, RemAt;
    var cs, ds := Top(fs).disp + f.disp, Top(gs).disp + g.disp;
    Place(code, extent, total, fs, f.index, f.count, cs, b - p);
    Place(code, extent, total, gs, g.index, g.count, ds, b - q);
    StopAt(code, extent, total, fs, f.index, f.count, cs, b - p, p);
    StopAt(code, extent, total, gs, g.index, g.count, ds, b - q, q);
    CanonicalState(code, extent, total, fs, f.index, f.count, cs, p, gs, g.index, g.count, ds, q);
  }

  lemma {:induction false} ReadEncloses(desc: seq<Rec>)
    ensures forall pos :: Enclosing(Read(desc), pos) == Enclosing(desc, pos)
  {
    forall pos ensures Enclosing(Read(desc), pos) == Enclosing(desc, pos) {
      assert forall i :: 0 <= i < |desc| ==>
               Read(desc)[i].Loop? == desc[i].Loop? && (desc[i].Loop? ==> Read(desc)[i] == desc[i]);
    }
  }

  /** The bytes of the first `i` fragments. */
  ghost function FlatTo(iov: seq<seq<byte>>, i: nat): seq<byte>
    requires i <= |iov|
  {
    if i == 0 then [] else FlatTo(iov, i - 1) + iov[i - 1]
  }

  /** The bytes of a list of fragments. */
  ghost function Flat(iov: seq<seq<byte>>): seq<byte> {
    FlatTo(iov, |iov|)
  }

  lemma {:induction false} FlatPrefix(iov: seq<seq<byte>>, i: nat)
    requires i <= |iov|
    ensures |FlatTo(iov, i)| <= |Flat(iov)| && FlatTo(iov, i) == Flat(iov)[..|FlatTo(iov, i)|]
    decreases |iov| - i
  {
    if i < |iov| {
      FlatPrefix(iov, i + 1);
    }
  }

  /** Memory with `data` written at `at`. */
  ghost function Patch(m: seq<byte>, at: int, data: seq<byte>): seq<byte>
    requires 0 <= at && at + |data| <= |m|
  {
    m[..at] + data + m[at + |data|..]
  }

  lemma {:induction false} IsPatch(m: seq<byte>, now: seq<byte>, at: int, data: seq<byte>)
    requires 0 <= at && at + |data| <= |m| == |now|
    requires forall k :: 0 <= k < |data| ==> now[at + k] == data[k]
    requires forall k :: 0 <= k < |m| && !(at <= k < at + |data|) ==> now[k] == m[k]
    ensures now == Patch(m, at, data)
  {
    var p := Patch(m, at, data);
    forall k | 0 <= k < |m| ensures now[k] == p[k] {
      if at <= k < at + |data| { assert now[at + (k - at)] == data[k - at]; }
    }
  }

  /** `saved` wherever `filled` holds `unused`. */
  ghost function Blend(filled: seq<byte>, saved: seq<byte>, unused: byte): (r: seq<byte>)
    requires |filled| == |saved|
    ensures |r| == |saved|
  {
    seq(|saved|, k requires 0 <= k < |saved| => if filled[k] == unused then saved[k] else filled[k])
  }

  lemma {:induction false} BlendExact(filled: seq<byte>, saved: seq<byte>, unused: byte, partial: seq<byte>, start: nat,
                                      end: nat)
    requires |filled| == |saved| && start <= end <= |saved| && |partial| == end - start && unused !in partial
    requires forall k :: 0 <= k < |saved| ==> filled[k] == if start <= k < end then partial[k - start] else unused
    ensures Blend(filled, saved, unused) == saved[..start] + partial + saved[end..]
  {
    forall k | start <= k < end ensures filled[k] != unused {
      assert partial[k - start] in partial;
    }
  }

  lemma {:induction false} PatchPatch(m: seq<byte>, at: int, a: seq<byte>, b: seq<byte>)
    requires 0 <= at && at + |a| <= |m| && |a| == |b|
    ensures |Patch(m, at, a)| == |m|
    ensures Patch(Patch(m, at, a), at, b) == Patch(m, at, b)
    ensures Patch(m, at, a)[at..at + |a|] == a
  {}

  lemma {:induction false} PatchPiece(m: seq<byte>, base: int, disp: int, saved: seq<byte>, partial: seq<byte>,
                                      start: nat, end: nat)
    requires 0 <= base + disp && base + disp + |saved| <= |m| && saved == m[base + disp..base + disp + |saved|]
    requires start <= end <= |saved| && |partial| == end - start
    ensures InBounds(|m|, base, Run(disp + start, end - start))
    ensures |Run(disp + start, end - start)| == |partial|
    ensures Patch(m, base + disp, saved[..start] + partial + saved[end..])
         == Scatter(m, base, Run(disp + start, end - start), partial)
  {
    hide Scatter;
    PatchMiddle(m, base + disp, saved, partial, start, end);
    RunLength(disp + start, end - start);
    ScatterRun(m, base, disp + start, partial);
  }

  lemma {:induction false} PatchMiddle(m: seq<byte>, at: int, saved: seq<byte>, partial: seq<byte>, start: nat,
                                       end: nat)
    requires 0 <= at && at + |saved| <= |m| && saved == m[at..at + |saved|] && start <= end <= |saved|
    requires |partial| == end - start
    ensures Patch(m, at, saved[..start] + partial + saved[end..]) == m[..at + start] + partial + m[at + end..]
  {
    var a, b, c, d := m[..at], saved[..start], saved[end..], m[at + |saved|..];
    assert a + b == m[..at + start] && c + d == m[at + end..];
    FiveParts(a, b, partial, c, d);
  }

  lemma {:induction false} FiveParts(a: seq<byte>, b: seq<byte>, x: seq<byte>, c: seq<byte>, d: seq<byte>)
    ensures a + (b + x + c) + d == (a + b) + x + (c + d)
  {}

  /** `n` positions hold at most `n` different values. */
  lemma {:induction false} Pigeonhole(s: seq<byte>, lo: byte, hi: byte)
    requires lo <= hi && forall v: byte :: lo <= v <= hi ==> v in s
    ensures |s| >= hi as int - lo as int + 1
    decreases hi
  {
    assert hi in s;
    var k :| 0 <= k < |s| && s[k] == hi;
    if lo < hi {
      var t := s[..k] + s[k + 1..];
      forall v: byte | lo <= v <= hi - 1 ensures v in t {
        assert v in s;
        var j :| 0 <= j < |s| && s[j] == v;
        assert t[if j < k then j else j - 1] == v;
      }
      Pigeonhole(t, lo, hi - 1);
    }
  }

  lemma {:induction false} ScatterNothing(m: seq<byte>, base: int)
    ensures InBounds(|m|, base, []) && Scatter(m, base, [], []) == m
  {}

  lemma {:induction false} RunLength(start: int, n: nat)
    ensures |Run(start, n)| == n
  {}

  lemma {:induction false} SingleElem(size: nat, disp: int, extent: int)
    ensures Elems(size, 1, disp, extent) == Run(disp, size)
  {
    assert Elems(size, 1, disp, extent) == Run(disp, size) + [];
  }

  lemma {:induction false} RunPiece(start: int, n: nat, i: nat, j: nat)
    requires i <= j <= n
    ensures |Run(start, n)| == n && Run(start, n)[i..j] == Run(start + i, j - i)
  {}

  lemma {:induction false} OneElem(m: int, base: int, size: nat, disp: int, extent: int)
    requires size >= 1 && 0 <= base + disp && base + disp + size <= m
    ensures Elems(size, 1, disp, extent) == Run(disp, size) && InBounds(m, base, Run(disp, size))
  {
    assert Elems(size, 1, disp, extent) == Run(disp, size) + [];
  }

  // ----- a seek after a split element -----

  const INT4: Basic := Basic(0x0B, 4)
  const ONE_INT: seq<Rec> := [Data(INT4, 1, 0, 4, true), EndLoop(1, 4, 0)]

  lemma {:induction false} OneInt()
    ensures Committed(ONE_INT) && |TM(Body(ONE_INT), 0)| == 4 && WholeTM(ONE_INT, 1, 4) == Run(0, 4)
    ensures MissingAt(ONE_INT, 1) == 3
    ensures forall pos :: Enclosing(ONE_INT, pos) == {}
  {
    var c := [ONE_INT[0]];
    assert Body(ONE_INT) == c && c[1..] == [] && WF([]) && TM([], 0) == [];
    OneElem(4, 0, 4, 0, 4);
    assert TM(c, 0) == Run(0, 4) + [];
    assert Iter(c, 0, 4, 1) == TM(c, 0) + Iter(c, 4, 4, 0);
  }

  /** A seek into an int and another one further into it. */
  method SplitSeek() returns (c: Convertor)
    ensures !c.Valid() && c.bConverted == 2
  {
    hide *;
    OneInt();
    RunFits();
    var mem := new byte[4](_ => 0);
    NoneEnclosed();
    c := new Convertor(ONE_INT, false, 4, 4, 1, mem, 0, 3);
    IntFacts(c);
    var skipped := c.SetPosition(1);
    AlwaysInStep(c, skipped);
    SplitThere(c);
    skipped := c.SetPosition(2);
  }

  /** A convertor that packs reads every record with its own extent. */
  lemma {:induction false} AlwaysInStep(c: Convertor, k: nat)
    requires c.code == c.desc && c.AtData()
    ensures c.InStep(k)
  {}

  lemma {:induction false} NoneEnclosed()
    requires forall pos :: Enclosing(ONE_INT, pos) == {}
    ensures forall pos :: |Enclosing(ONE_INT, pos)| + 2 <= 3
  {
    hide Enclosing;
  }

  lemma {:induction false} IntFacts(c: Convertor)
    requires c.Valid() && c.desc == ONE_INT && c.extent == 4 && c.total == 1 && !c.receives
    ensures c.code == c.desc && |c.code| > 0 && Committed(c.code) && |c.Whole()| == 4 && MissingAt(c.code, 1) == 3
  {
    OneInt();
    hide TM, WF, MissingAt, WholeTM, InBounds, Enclosing, Body;
    RunFits();
  }

  lemma {:induction false} RunFits()
    ensures InBounds(4, 0, Run(0, 4)) && |Run(0, 4)| == 4
  {}

  /** At a byte inside an element some bytes of it are done. */
  lemma {:induction false} SplitThere(c: Convertor)
    requires c.Valid() && !c.completed && c.AtData() && Committed(c.code) && MissingAt(c.code, c.bConverted) != 0
    ensures c.partialLength != 0
  {
    hide WF, TM, WholeTM, Proper, MissingAt, InBounds, Enclosing, Committed;
    if c.partialLength == 0 {
      var f, top := c.stack[..c.stackPos], c.stack[c.stackPos];
      Place(c.code, c.extent, c.total, f, top.index, top.count, c.stack[c.stackPos - 1].disp + top.disp, c.bConverted);
      StopAt(c.code, c.extent, c.total, f, top.index, top.count, c.stack[c.stackPos - 1].disp + top.disp, c.bConverted,
             0);
    }
  }

  // ----- a seek over elements that are read with another extent -----

  const FAR_INTS: seq<Rec> := [Data(INT4, 2, 0, WRAP + 4, true), EndLoop(1, 8, 0)]
  const NEAR_INTS: seq<Rec> := [Data(INT4, 2, 0, 4, true), EndLoop(1, 8, 0)]

  lemma {:induction false} TwoInts()
    ensures Read(FAR_INTS) == NEAR_INTS && Committed(FAR_INTS) && Committed(NEAR_INTS)
    ensures |TM(Body(FAR_INTS), 0)| == 8 && |TM(Body(NEAR_INTS), 0)| == 8 && WholeTM(NEAR_INTS, 1, 8) == Run(0, 8)
    ensures forall pos :: |Enclosing(FAR_INTS, pos)| + 2 <= 3
  {
    var c, d := [FAR_INTS[0]], [NEAR_INTS[0]];
    assert Read(FAR_INTS)[0] == NEAR_INTS[0] && Read(FAR_INTS)[1] == NEAR_INTS[1];
    assert Body(FAR_INTS) == c && Body(NEAR_INTS) == d && c[1..] == [] && d[1..] == [] && WF([]) && TM([], 0) == [];
    ElemsLength(4, 2, 0, WRAP + 4);
    ElemsLength(4, 2, 0, 4);
    ElemsRun(4, 2, 0);
    assert Iter(d, 0, 8, 1) == TM(d, 0) + Iter(d, 8, 8, 0);
    forall pos ensures |Enclosing(FAR_INTS, pos)| + 2 <= 3 {
      assert Enclosing(FAR_INTS, pos) == {};
    }
  }

  /** Two ints that unpacking takes for adjacent ones: after a seek to the second of them its bytes would be written
      where the description has it. */
  method DriftSeek() returns (c: Convertor)
    ensures c.Setup() && !c.Valid() && c.bConverted == 4 && c.AtData() && c.SavedOff(4, 0, WRAP)
  {
    hide WF, TM, WholeTM, Enclosing, InBounds, Read, Run, Committed, Convertor.Valid, Convertor.Setup,
         Convertor.SavedOff, Convertor.Skips, Convertor.InStep, Convertor.Drift, Convertor.InLast;
    TwoInts();
    EightFits();
    var mem := new byte[8](_ => 0);
    c := new Convertor(FAR_INTS, true, 8, 8, 1, mem, 0, 3);
    FarFacts(c);
    var skipped := c.Position(4);
    HalfWay(c, c.Drift(c.stack[c.stackPos].index, skipped));
    OneSkipped(c, skipped);
  }

  lemma {:induction false} EightFits()
    ensures InBounds(8, 0, Run(0, 8)) && |Run(0, 8)| == 8
  {}

  lemma {:induction false} FarFacts(c: Convertor)
    requires c.Valid() && c.desc == FAR_INTS && c.receives && c.extent == 8 && c.total == 1
    ensures c.code == NEAR_INTS && |c.code| > 0 && |c.Whole()| == 8 && c.size == 8
  {
    TwoInts();
    EightFits();
    hide WF, TM, WholeTM, Enclosing, InBounds, Read, Run;
  }

  /** At byte 4 one of the two ints is left. */
  lemma {:induction false} HalfWay(c: Convertor, off: int)
    requires c.code == NEAR_INTS && c.total == 1 && c.extent == 8 && c.SavedOff(4, c.partialLength, off) && c.AtData()
    ensures c.partialLength == 0 && c.stack[c.stackPos].index == 0 && c.stack[c.stackPos].count == 1
  {
    hide WF, TM, WholeTM, Enclosing, InBounds, Proper, Read;
    var code := c.code;
    TwoInts();
    Start(code, 8, 1);
    MoveData(code, 8, 1, [Frame(-1, 1, 0)], 0, 2, 0, 0, 1);
    var fs, top := c.stack[..c.stackPos], c.stack[c.stackPos];
    assert fs[|fs| - 1] == c.stack[c.stackPos - 1];
    SameSaved(code, 8, 1, [Frame(-1, 1, 0)], Frame(0, 1, 4), 0, fs, Frame(top.index, top.count, top.disp - off),
              c.partialLength, 4);
  }

  lemma {:induction false} OneSkipped(c: Convertor, k: nat)
    requires c.code == NEAR_INTS && c.desc == FAR_INTS && c.size == 8 && c.AtData() && c.partialLength == 0
    requires c.stack[c.stackPos].index == 0 && c.stack[c.stackPos].count == 1 && c.Skips(k, c.InLast(4))
    ensures k == 1 && !c.InStep(k) && c.Drift(0, k) == WRAP
  {}
}
