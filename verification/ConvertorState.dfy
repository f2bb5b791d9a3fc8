/** The state of the explicit-stack interpreters and what is left for them to do.

    A state is a stack of loop frames plus a position inside the innermost frame.  `RemAt` is
    the list of displacements still to be visited.  Every control step of the interpreters
    keeps it, every data step takes a prefix off it. */
module ConvertorState {
  import opened Typemap

  /** An entry of the convertor stack; `index` is -1 for the fake outermost loop. */
  datatype Frame = Frame(index: int, count: nat, disp: int)

  // ----- the stack -----

  predicate Framed(code: seq<Rec>, f: Frame) {
    |code| > 0 && (f.index == -1 || (0 <= f.index < |code| && code[f.index].Loop?))
  }

  /** First record of the body of the loop that `f` runs. */
  function Lo(f: Frame): int {
    f.index + 1
  }

  /** The END_LOOP record that closes the body. */
  function Hi(code: seq<Rec>, f: Frame): int
    requires Framed(code, f)
  {
    if f.index == -1 then |code| - 1 else f.index + code[f.index].items
  }

  function StepExtent(code: seq<Rec>, extent: int, f: Frame): int
    requires Framed(code, f)
  {
    if f.index == -1 then extent else code[f.index].extent
  }

  /** Frame `f` runs a loop that lies in the body of frame `p`. */
  ghost predicate Inside(code: seq<Rec>, p: Frame, f: Frame)
    requires Framed(code, p) && Framed(code, f)
  {
    && 0 <= Lo(p) <= f.index < Hi(code, p) < |code|
    && WF(code[f.index..Hi(code, p)])
    && 1 <= f.count <= code[f.index].loops
    && f.disp == p.disp + (code[f.index].loops - f.count) * code[f.index].extent
  }

  /** A proper stack for `total` repetitions of the description, `extent` apart. */
  ghost predicate FramesOK(code: seq<Rec>, extent: int, total: nat, fs: seq<Frame>) {
    && Committed(code) && |fs| >= 1
    && (forall k :: 0 <= k < |fs| ==> Framed(code, fs[k]))
    && fs[0].index == -1 && 1 <= fs[0].count <= total && fs[0].disp == (total - fs[0].count) * extent
    && (forall k :: 1 <= k < |fs| ==> Inside(code, fs[k - 1], fs[k]))
  }

  function Top(fs: seq<Frame>): Frame
    requires |fs| >= 1
  {
    fs[|fs| - 1]
  }

  function Pop(fs: seq<Frame>): seq<Frame>
    requires |fs| >= 1
  {
    fs[..|fs| - 1]
  }

  /** A proper state: `pos` is a record of the innermost body, or its END_LOOP; `cnt`
      repetitions of that record are left, the next one at displacement `src`. */
  ghost predicate OK(code: seq<Rec>, extent: int, total: nat, fs: seq<Frame>, pos: int, cnt: nat, src: int) {
    && FramesOK(code, extent, total, fs)
    && Lo(Top(fs)) <= pos <= Hi(code, Top(fs))
    && TopOK(code, fs, pos)
    && (pos == Hi(code, Top(fs)) ==> src == Top(fs).disp)
    && (pos < Hi(code, Top(fs)) ==>
          1 <= cnt <= Counter(code[pos]) && src == Top(fs).disp + (Counter(code[pos]) - cnt) * Stride(code[pos]))
  }

  ghost predicate TopOK(code: seq<Rec>, fs: seq<Frame>, pos: int)
    requires |fs| >= 1 && Framed(code, Top(fs)) && Lo(Top(fs)) <= pos <= Hi(code, Top(fs))
  {
    && 0 <= pos && Hi(code, Top(fs)) < |code|
    && WF(code[pos..Hi(code, Top(fs))])
    && (pos < Hi(code, Top(fs)) ==> !code[pos].EndLoop?)
  }

  function Stride(r: Rec): int {
    if r.EndLoop? then 0 else r.extent
  }

  // ----- what is left to do -----

  /** What is left in the innermost body. */
  ghost function Cur(code: seq<Rec>, hi: int, pos: int, cnt: nat, src: int, disp: int): seq<int>
    requires 0 <= pos <= hi < |code|
  {
    if pos == hi then []
    else match code[pos]
      case Data(t, _, d, extent, _) => Elems(t.size, cnt, src + d, extent) + TM(code[pos + 1..hi], disp)
      case Loop(_, items, extent, _) =>
        if 2 <= items < hi - pos
        then Iter(code[pos + 1..pos + items], src, extent, cnt) + TM(code[pos + items + 1..hi], disp)
        else []
      case EndLoop(_, _, _) => []
  }

  /** What is left once the innermost body is finished. */
  ghost function After(code: seq<Rec>, extent: int, total: nat, fs: seq<Frame>): seq<int>
    requires FramesOK(code, extent, total, fs)
    decreases |fs|
  {
    Inner(code, extent, total, fs);
    if |fs| == 1 then Again(code, extent, fs)
    else
      Again(code, extent, fs)
      + TM(code[Hi(code, Top(fs)) + 1..Hi(code, fs[|fs| - 2])], fs[|fs| - 2].disp)
      + After(code, extent, total, Pop(fs))
  }

  /** The repetitions that the innermost loop still has to start. */
  ghost function Again(code: seq<Rec>, extent: int, fs: seq<Frame>): seq<int>
    requires |fs| >= 1 && Framed(code, Top(fs)) && 0 <= Lo(Top(fs)) <= Hi(code, Top(fs)) < |code|
    requires Top(fs).count >= 1
  {
    var f := Top(fs);
    var e := StepExtent(code, extent, f);
    Iter(code[Lo(f)..Hi(code, f)], f.disp + e, e, f.count - 1)
  }

  /** All that is left to do. */
  ghost function RemAt(code: seq<Rec>, extent: int, total: nat, fs: seq<Frame>, pos: int, cnt: nat, src: int): seq<int>
    requires OK(code, extent, total, fs, pos, cnt, src)
  {
    Cur(code, Hi(code, Top(fs)), pos, cnt, src, Top(fs).disp) + After(code, extent, total, fs)
  }

  /** The frame under the top one, and the body bounds of a proper stack. */
  lemma {:induction false} Inner(code: seq<Rec>, extent: int, total: nat, fs: seq<Frame>)
    requires FramesOK(code, extent, total, fs)
    ensures 0 <= Lo(Top(fs)) < Hi(code, Top(fs)) < |code| && Top(fs).count >= 1
    ensures WF(code[Lo(Top(fs))..Hi(code, Top(fs))])
    ensures |fs| > 1 ==>
              && FramesOK(code, extent, total, Pop(fs))
              && Lo(fs[|fs| - 2]) <= Hi(code, Top(fs)) < Hi(code, fs[|fs| - 2]) < |code|
              && WF(code[Hi(code, Top(fs)) + 1..Hi(code, fs[|fs| - 2])])
  {
    hide TM, Iter, First;
    var f := Top(fs);
    if |fs| > 1 {
      var p := fs[|fs| - 2];
      assert Inside(code, p, f);
      Unfold(code, f.index, Hi(code, p));
    } else {
      assert code[0..|code| - 1] == Body(code);
    }
  }

  /** Reading a loop record off a well-formed stretch. */
  lemma {:induction false} Unfold(code: seq<Rec>, pos: int, hi: int)
    requires 0 <= pos < hi <= |code| && WF(code[pos..hi])
    ensures code[pos].Loop? ==>
              && 2 <= code[pos].items < hi - pos && 1 <= code[pos].loops
              && WF(code[pos + 1..pos + code[pos].items]) && WF(code[pos + code[pos].items + 1..hi])
              && code[pos + code[pos].items]
                 == EndLoop(code[pos].items, |TM(code[pos + 1..pos + code[pos].items], 0)|,
                            First(code[pos + 1..pos + code[pos].items]))
              && (code[pos].contiguous ==>
                    TM(code[pos + 1..pos + code[pos].items], 0)
                    == Run(code[pos + code[pos].items].first, code[pos + code[pos].items].size))
    ensures code[pos].Data? ==> 1 <= code[pos].typ.size && 1 <= code[pos].count && WF(code[pos + 1..hi])
    ensures !code[pos].EndLoop?
  {
    var c := code[pos..hi];
    SubSlice(code, pos, hi);
  }

  /** Slices of a slice. */
  lemma {:induction false} SubSlice<T>(s: seq<T>, a: int, b: int)
    requires 0 <= a < b <= |s|
    ensures s[a..b][0] == s[a] && s[a..b][1..] == s[a + 1..b]
    ensures forall i {:trigger s[a..b][i]} :: 0 <= i < b - a ==> s[a..b][i] == s[a + i]
    ensures forall i {:trigger s[a..b][1..i]} :: 1 <= i <= b - a ==> s[a..b][1..i] == s[a + 1..a + i]
    ensures forall i {:trigger s[a..b][i..]} :: 0 <= i <= b - a ==> s[a..b][i..] == s[a + i..b]
  {}

  lemma {:induction false} SliceSlice<T>(s: seq<T>, a: int, b: int, i: int, j: int)
    requires 0 <= a <= b <= |s| && 0 <= i <= j <= b - a
    ensures s[a..b][i..j] == s[a + i..a + j]
  {
    var x, y := s[a..b][i..j], s[a + i..a + j];
    forall k | 0 <= k < j - i ensures x[k] == y[k] {
      assert x[k] == s[a..b][i + k] == s[a + i + k];
    }
  }

  lemma {:induction false} TMData(code: seq<Rec>, pos: int, hi: int, disp: int)
    requires 0 <= pos < hi <= |code| && code[pos].Data?
    ensures TM(code[pos..hi], disp)
         == Elems(code[pos].typ.size, code[pos].count, disp + code[pos].disp, code[pos].extent)
            + TM(code[pos + 1..hi], disp)
  {
    SubSlice(code, pos, hi);
  }

  lemma {:induction false} TMLoop(code: seq<Rec>, pos: int, hi: int, disp: int)
    requires 0 <= pos < hi <= |code| && code[pos].Loop? && 2 <= code[pos].items < hi - pos
    ensures TM(code[pos..hi], disp)
         == Iter(code[pos + 1..pos + code[pos].items], disp, code[pos].extent, code[pos].loops)
            + TM(code[pos + code[pos].items + 1..hi], disp)
  {
    SubSlice(code, pos, hi);
    assert code[pos..hi][code[pos].items + 1..] == code[pos + code[pos].items + 1..hi];
  }

  // ----- the steps -----

  /** A freshly entered record has the whole rest of the body left. */
  lemma {:induction false} FreshCur(code: seq<Rec>, hi: int, pos: int, disp: int)
    requires 0 <= pos <= hi < |code| && WF(code[pos..hi])
    ensures Cur(code, hi, pos, Counter(code[pos]), disp, disp) == TM(code[pos..hi], disp)
  {
    if pos < hi {
      Unfold(code, pos, hi);
      hide WF;
      hide TM;
      if code[pos].Data? { TMData(code, pos, hi, disp); } else { TMLoop(code, pos, hi, disp); }
    } else {
      assert code[pos..hi] == [];
    }
  }

  lemma {:induction false} FreshOK(code: seq<Rec>, extent: int, total: nat, fs: seq<Frame>, pos: int)
    requires FramesOK(code, extent, total, fs)
    requires 0 <= Lo(Top(fs)) <= pos <= Hi(code, Top(fs)) < |code| && WF(code[pos..Hi(code, Top(fs))])
    ensures OK(code, extent, total, fs, pos, Counter(code[pos]), Top(fs).disp)
    ensures RemAt(code, extent, total, fs, pos, Counter(code[pos]), Top(fs).disp)
         == TM(code[pos..Hi(code, Top(fs))], Top(fs).disp) + After(code, extent, total, fs)
  {
    hide WF, TM;
    var hi := Hi(code, Top(fs));
    FreshCur(code, hi, pos, Top(fs).disp);
    if pos < hi { Unfold(code, pos, hi); }
  }

  /** Leaving a loop whose last repetition is over. */
  lemma {:induction false} PopStep(code: seq<Rec>, extent: int, total: nat, fs: seq<Frame>, cnt: nat)
    requires |fs| > 1 && Framed(code, Top(fs))
    requires OK(code, extent, total, fs, Hi(code, Top(fs)), cnt, Top(fs).disp)
    requires Top(fs).count == 1
    ensures 0 <= Hi(code, Top(fs)) + 1 < |code|
    ensures var pos := Hi(code, Top(fs)) + 1; var p := Pop(fs); var c := Counter(code[pos]);
            && OK(code, extent, total, p, pos, c, Top(p).disp)
            && RemAt(code, extent, total, p, pos, c, Top(p).disp)
               == RemAt(code, extent, total, fs, Hi(code, Top(fs)), cnt, Top(fs).disp)
  {
    hide WF, TM;
    Inner(code, extent, total, fs);
    var p := Pop(fs);
    FreshOK(code, extent, total, p, Hi(code, Top(fs)) + 1);
    assert Again(code, extent, fs) == [];
  }

  /** Starting the next repetition of the innermost loop. */
  lemma {:induction false} AgainStep(code: seq<Rec>, extent: int, total: nat, fs: seq<Frame>, cnt: nat)
    requires |fs| >= 1 && Framed(code, Top(fs))
    requires OK(code, extent, total, fs, Hi(code, Top(fs)), cnt, Top(fs).disp)
    requires Top(fs).count > 1
    ensures 0 <= Lo(Top(fs)) < Hi(code, Top(fs)) < |code|
    ensures var f := Top(fs); var d := f.disp + StepExtent(code, extent, f);
            var fs' := Pop(fs) + [Frame(f.index, f.count - 1, d)]; var c := Counter(code[Lo(f)]);
            && OK(code, extent, total, fs', Lo(f), c, d)
            && RemAt(code, extent, total, fs', Lo(f), c, d)
               == RemAt(code, extent, total, fs, Hi(code, f), cnt, f.disp)
  {
    hide WF, TM, Iter, Inside, TopOK, RemAt;
    Inner(code, extent, total, fs);
    AtEndOfBody(code, extent, total, fs, cnt);
    AgainFrames(code, extent, total, fs);
    hide OK, FramesOK, After;
    var f := Top(fs);
    var fs' := Pop(fs) + [Frame(f.index, f.count - 1, f.disp + StepExtent(code, extent, f))];
    assert Pop(fs') == Pop(fs) && Top(fs') == Frame(f.index, f.count - 1, f.disp + StepExtent(code, extent, f));
    FreshOK(code, extent, total, fs', Lo(f));
    AfterAgain(code, extent, total, fs, fs');
  }

  /** At its END_LOOP nothing of the innermost body is left. */
  lemma {:induction false} AtEndOfBody(code: seq<Rec>, extent: int, total: nat, fs: seq<Frame>, cnt: nat)
    requires |fs| >= 1 && Framed(code, Top(fs))
    requires OK(code, extent, total, fs, Hi(code, Top(fs)), cnt, Top(fs).disp)
    ensures FramesOK(code, extent, total, fs)
    ensures RemAt(code, extent, total, fs, Hi(code, Top(fs)), cnt, Top(fs).disp) == After(code, extent, total, fs)
  {
    hide WF, TM, Iter, Inside, FramesOK, After;
  }

  lemma {:induction false} AgainFrames(code: seq<Rec>, extent: int, total: nat, fs: seq<Frame>)
    requires FramesOK(code, extent, total, fs) && Top(fs).count > 1
    ensures var f := Top(fs);
            FramesOK(code, extent, total, Pop(fs) + [Frame(f.index, f.count - 1, f.disp + StepExtent(code, extent, f))])
  {
    hide WF, TM, Iter;
    var f := Top(fs);
    var e := StepExtent(code, extent, f);
    var fs' := Pop(fs) + [Frame(f.index, f.count - 1, f.disp + e)];
    if |fs| == 1 {
      OneMore(total - f.count, e);
    } else {
      assert Inside(code, fs[|fs| - 2], f);
      OneMore(code[f.index].loops - f.count, e);
    }
    forall k | 1 <= k < |fs'| ensures Inside(code, fs'[k - 1], fs'[k]) {
      assert Inside(code, fs[k - 1], fs[k]);
    }
  }

  lemma {:induction false} OneMore(n: int, e: int)
    ensures (n + 1) * e == n * e + e
  {}

  lemma {:induction false} SplitCount(n: int, cnt: int, k: int, e: int)
    ensures (n - (cnt - k)) * e == (n - cnt) * e + k * e
  {}

  /** What follows the innermost loop. */
  ghost function Outer(code: seq<Rec>, extent: int, total: nat, fs: seq<Frame>): seq<int>
    requires FramesOK(code, extent, total, fs)
  {
    Inner(code, extent, total, fs);
    if |fs| == 1 then []
    else
      TM(code[Hi(code, Top(fs)) + 1..Hi(code, fs[|fs| - 2])], fs[|fs| - 2].disp)
      + After(code, extent, total, Pop(fs))
  }

  lemma {:induction false} AfterUnfold(code: seq<Rec>, extent: int, total: nat, fs: seq<Frame>)
    requires FramesOK(code, extent, total, fs)
    ensures 0 <= Lo(Top(fs)) < Hi(code, Top(fs)) < |code| && Top(fs).count >= 1
    ensures After(code, extent, total, fs) == Again(code, extent, fs) + Outer(code, extent, total, fs)
  {
    hide WF, TM, Iter, Inside;
    Inner(code, extent, total, fs);
    hide FramesOK, Again;
  }

  /** Unrolling one repetition of the innermost loop. */
  lemma {:induction false} AfterAgain(code: seq<Rec>, extent: int, total: nat, fs: seq<Frame>, fs': seq<Frame>)
    requires FramesOK(code, extent, total, fs) && FramesOK(code, extent, total, fs')
    requires Top(fs).count > 1 && Pop(fs) == Pop(fs') && |fs| == |fs'|
    requires Top(fs') == Frame(Top(fs).index, Top(fs).count - 1, Top(fs).disp + StepExtent(code, extent, Top(fs)))
    ensures 0 <= Lo(Top(fs)) < Hi(code, Top(fs)) < |code|
    ensures After(code, extent, total, fs)
         == TM(code[Lo(Top(fs))..Hi(code, Top(fs))], Top(fs').disp) + After(code, extent, total, fs')
  {
    hide WF, TM, Inside, After;
    AfterUnfold(code, extent, total, fs);
    AfterUnfold(code, extent, total, fs');
    var f := Top(fs);
    var e := StepExtent(code, extent, f);
    var body := code[Lo(f)..Hi(code, f)];
    IterUnfold(body, f.disp + e, e, f.count - 1);
    assert |fs| > 1 ==> fs[|fs| - 2] == Pop(fs)[|fs| - 2] == fs'[|fs| - 2];
    assert Outer(code, extent, total, fs) == Outer(code, extent, total, fs');
    hide Iter, Outer;
  }

  lemma {:induction false} IterUnfold(b: seq<Rec>, base: int, extent: int, n: nat)
    requires n > 0
    ensures Iter(b, base, extent, n) == TM(b, base) + Iter(b, base + extent, extent, n - 1)
  {
  }

  /** Entering a loop. */
  lemma {:induction false} PushStep(code: seq<Rec>, extent: int, total: nat, fs: seq<Frame>, pos: int, cnt: nat,
                                    src: int)
    requires OK(code, extent, total, fs, pos, cnt, src)
    requires pos < Hi(code, Top(fs)) && code[pos].Loop?
    ensures 0 <= pos && pos + 1 < |code|
    ensures var fs' := fs + [Frame(pos, cnt, src)]; var c := Counter(code[pos + 1]);
            && OK(code, extent, total, fs', pos + 1, c, src) && pos + 1 < Hi(code, Top(fs')) < Hi(code, Top(fs))
            && RemAt(code, extent, total, fs', pos + 1, c, src) == RemAt(code, extent, total, fs, pos, cnt, src)
  {
    hide WF, TM, Iter;
    PushFrames(code, extent, total, fs, pos, cnt, src);
    var hi := Hi(code, Top(fs));
    var fs' := fs + [Frame(pos, cnt, src)];
    FreshOK(code, extent, total, fs', pos + 1);
    PushAfter(code, extent, total, fs, pos, cnt, src);
    hide After, FramesOK;
  }

  lemma {:induction false} PushFrames(code: seq<Rec>, extent: int, total: nat, fs: seq<Frame>, pos: int, cnt: nat,
                                      src: int)
    requires OK(code, extent, total, fs, pos, cnt, src)
    requires pos < Hi(code, Top(fs)) && code[pos].Loop?
    ensures 0 <= pos && pos + 1 < |code|
    ensures var fs' := fs + [Frame(pos, cnt, src)];
            && FramesOK(code, extent, total, fs')
            && 2 <= code[pos].items < Hi(code, Top(fs)) - pos
            && WF(code[pos + 1..pos + code[pos].items])
  {
    hide WF, TM, Iter, After;
    Unfold(code, pos, Hi(code, Top(fs)));
    var fs' := fs + [Frame(pos, cnt, src)];
    forall k | 1 <= k < |fs'| ensures Inside(code, fs'[k - 1], fs'[k]) {
      if k < |fs| { assert Inside(code, fs[k - 1], fs[k]); }
    }
  }

  lemma {:induction false} PushAfter(code: seq<Rec>, extent: int, total: nat, fs: seq<Frame>, pos: int, cnt: nat,
                                     src: int)
    requires OK(code, extent, total, fs, pos, cnt, src)
    requires pos < Hi(code, Top(fs)) && code[pos].Loop? && 0 <= pos
    requires 2 <= code[pos].items < Hi(code, Top(fs)) - pos
    requires FramesOK(code, extent, total, fs + [Frame(pos, cnt, src)])
    ensures TM(code[pos + 1..pos + code[pos].items], src) + After(code, extent, total, fs + [Frame(pos, cnt, src)])
         == Cur(code, Hi(code, Top(fs)), pos, cnt, src, Top(fs).disp) + After(code, extent, total, fs)
  {
    hide WF, TM, Inside, After;
    var fs' := fs + [Frame(pos, cnt, src)];
    assert Pop(fs') == fs && fs'[|fs'| - 2] == Top(fs);
    AfterUnfold(code, extent, total, fs');
    IterUnfold(code[pos + 1..pos + code[pos].items], src, code[pos].extent, cnt);
    hide Iter, FramesOK;
    var rest := TM(code[pos + code[pos].items + 1..Hi(code, Top(fs))], Top(fs).disp);
    assert Outer(code, extent, total, fs') == rest + After(code, extent, total, fs);
  }

  /** Moving some, not all, of the elements of a data record. */
  lemma {:induction false} DataSome(code: seq<Rec>, extent: int, total: nat, fs: seq<Frame>, pos: int, cnt: nat,
                                    src: int, k: nat)
    requires OK(code, extent, total, fs, pos, cnt, src)
    requires pos < Hi(code, Top(fs)) && code[pos].Data? && k < cnt
    ensures OK(code, extent, total, fs, pos, cnt - k, src + k * code[pos].extent)
    ensures RemAt(code, extent, total, fs, pos, cnt, src)
         == Elems(code[pos].typ.size, k, src + code[pos].disp, code[pos].extent)
            + RemAt(code, extent, total, fs, pos, cnt - k, src + k * code[pos].extent)
  {
    hide WF, TM, FramesOK, After;
    var r := code[pos];
    ElemsSplit(r.typ.size, k, cnt - k, src + r.disp, r.extent);
    SplitCount(r.count, cnt, k, r.extent);
    hide Elems;
    assert src + k * r.extent + r.disp == src + r.disp + k * r.extent;
  }

  /** Moving all the elements that a data record has left. */
  lemma {:induction false} DataAll(code: seq<Rec>, extent: int, total: nat, fs: seq<Frame>, pos: int, cnt: nat,
                                   src: int)
    requires OK(code, extent, total, fs, pos, cnt, src)
    requires pos < Hi(code, Top(fs)) && code[pos].Data?
    ensures 0 <= pos && pos + 1 < |code| && |fs| >= 1
    ensures OK(code, extent, total, fs, pos + 1, Counter(code[pos + 1]), Top(fs).disp)
    ensures RemAt(code, extent, total, fs, pos, cnt, src)
         == Elems(code[pos].typ.size, cnt, src + code[pos].disp, code[pos].extent)
            + RemAt(code, extent, total, fs, pos + 1, Counter(code[pos + 1]), Top(fs).disp)
  {
    hide WF, TM, After, Elems;
    Unfold(code, pos, Hi(code, Top(fs)));
    FreshOK(code, extent, total, fs, pos + 1);
    hide FramesOK;
  }

  /** Moving some, not all, of the repetitions of a loop whose body is one run of bytes. */
  lemma {:induction false} LoopSome(code: seq<Rec>, extent: int, total: nat, fs: seq<Frame>, pos: int, cnt: nat,
                                    src: int, k: nat)
    requires OK(code, extent, total, fs, pos, cnt, src)
    requires pos < Hi(code, Top(fs)) && code[pos].Loop? && code[pos].contiguous && k < cnt
    ensures 0 <= pos && pos + code[pos].items + 1 < |code| && code[pos + code[pos].items].EndLoop?
    ensures OK(code, extent, total, fs, pos, cnt - k, src + k * code[pos].extent)
    ensures RemAt(code, extent, total, fs, pos, cnt, src)
         == Elems(code[pos + code[pos].items].size, k, src + code[pos + code[pos].items].first, code[pos].extent)
            + RemAt(code, extent, total, fs, pos, cnt - k, src + k * code[pos].extent)
  {
    hide WF, TM, After, Elems, Run, Iter;
    RunLoop(code, extent, total, fs, pos, cnt, src);
    var r := code[pos];
    CurLoop(code, Hi(code, Top(fs)), pos, cnt, src, Top(fs).disp, k);
    SplitCount(r.loops, cnt, k, r.extent);
    hide Cur, FramesOK;
  }

  /** What the record of a contiguous loop says about its body. */
  lemma {:induction false} RunLoop(code: seq<Rec>, extent: int, total: nat, fs: seq<Frame>, pos: int, cnt: nat,
                                   src: int)
    requires OK(code, extent, total, fs, pos, cnt, src)
    requires pos < Hi(code, Top(fs)) && code[pos].Loop?
    ensures 0 <= pos && |fs| >= 1 && 2 <= code[pos].items < Hi(code, Top(fs)) - pos && Hi(code, Top(fs)) < |code|
    ensures WF(code[pos + code[pos].items + 1..Hi(code, Top(fs))])
    ensures code[pos + code[pos].items].EndLoop? && code[pos + code[pos].items].size >= 1
    ensures code[pos].contiguous ==>
              TM(code[pos + 1..pos + code[pos].items], 0)
                == Run(code[pos + code[pos].items].first, code[pos + code[pos].items].size)
  {
    hide TM, Run, Iter;
    Unfold(code, pos, Hi(code, Top(fs)));
    TMNonEmpty(code[pos + 1..pos + code[pos].items], 0);
    hide WF, First;
  }

  lemma {:induction false} CurLoop(code: seq<Rec>, hi: int, pos: int, cnt: nat, src: int, disp: int, k: nat)
    requires 0 <= pos < hi < |code| && code[pos].Loop? && 2 <= code[pos].items < hi - pos && k <= cnt
    requires code[pos + code[pos].items].EndLoop?
    requires TM(code[pos + 1..pos + code[pos].items], 0)
               == Run(code[pos + code[pos].items].first, code[pos + code[pos].items].size)
    ensures Cur(code, hi, pos, cnt, src, disp)
         == Elems(code[pos + code[pos].items].size, k, src + code[pos + code[pos].items].first, code[pos].extent)
            + Cur(code, hi, pos, cnt - k, src + k * code[pos].extent, disp)
  {
    hide TM, Elems, Run;
    var r := code[pos];
    var body := code[pos + 1..pos + r.items];
    var end := code[pos + r.items];
    IterSplit(body, src, r.extent, k, cnt - k);
    IterElems(body, end.first, end.size, src, r.extent, k);
    hide Iter;
    var rest := TM(code[pos + r.items + 1..hi], disp);
    assert Cur(code, hi, pos, cnt, src, disp) == Iter(body, src, r.extent, cnt) + rest;
    assert Cur(code, hi, pos, cnt - k, src + k * r.extent, disp) == Iter(body, src + k * r.extent, r.extent, cnt - k)
              + rest;
  }

  /** Moving all the repetitions that such a loop has left. */
  lemma {:induction false} LoopAll(code: seq<Rec>, extent: int, total: nat, fs: seq<Frame>, pos: int, cnt: nat,
                                   src: int)
    requires OK(code, extent, total, fs, pos, cnt, src)
    requires pos < Hi(code, Top(fs)) && code[pos].Loop? && code[pos].contiguous
    ensures 0 <= pos && pos + code[pos].items + 1 < |code| && code[pos + code[pos].items].EndLoop? && |fs| >= 1
    ensures var next := pos + code[pos].items + 1;
            && OK(code, extent, total, fs, next, Counter(code[next]), Top(fs).disp)
            && RemAt(code, extent, total, fs, pos, cnt, src)
               == Elems(code[pos + code[pos].items].size, cnt, src + code[pos + code[pos].items].first,
                        code[pos].extent)
                  + RemAt(code, extent, total, fs, next, Counter(code[next]), Top(fs).disp)
  {
    hide WF, TM, After, Elems, Run, Iter;
    RunLoop(code, extent, total, fs, pos, cnt, src);
    var r := code[pos];
    CurLoop(code, Hi(code, Top(fs)), pos, cnt, src, Top(fs).disp, cnt);
    FreshOK(code, extent, total, fs, pos + r.items + 1);
    CurNone(code, Hi(code, Top(fs)), pos, src + cnt * r.extent, Top(fs).disp);
    hide FramesOK, Cur;
  }

  lemma {:induction false} CurNone(code: seq<Rec>, hi: int, pos: int, src: int, disp: int)
    requires 0 <= pos < hi < |code| && code[pos].Loop? && 2 <= code[pos].items < hi - pos
    ensures Cur(code, hi, pos, 0, src, disp) == TM(code[pos + code[pos].items + 1..hi], disp)
  {
    hide TM;
    assert Iter(code[pos + 1..pos + code[pos].items], src, code[pos].extent, 0) == [];
  }

  /** Only a finished message has nothing left. */
  lemma {:induction false} RemEmpty(code: seq<Rec>, extent: int, total: nat, fs: seq<Frame>, pos: int, cnt: nat,
                                    src: int)
    requires OK(code, extent, total, fs, pos, cnt, src)
    ensures pos < Hi(code, Top(fs)) ==> RemAt(code, extent, total, fs, pos, cnt, src) != []
    ensures pos == Hi(code, Top(fs)) && |fs| == 1 && Top(fs).count == 1 ==>
              RemAt(code, extent, total, fs, pos, cnt, src) == []
  {
    hide WF, TM;
    var hi := Hi(code, Top(fs));
    if pos < hi {
      Unfold(code, pos, hi);
      if code[pos].Loop? {
        TMNonEmpty(code[pos + 1..pos + code[pos].items], src);
      }
    }
  }
}
