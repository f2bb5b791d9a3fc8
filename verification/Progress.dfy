/** Progress through a message: a proper state together with the number of bytes done. */
module Progress {
  import opened Typemap
  import opened ConvertorState
  import opened Canonical
  import opened SplitPoint

  /** The loops whose body holds record `pos`. */
  ghost function Enclosing(code: seq<Rec>, pos: int): set<int> {
    set i | 0 <= i < |code| && code[i].Loop? && i < pos <= i + code[i].items
  }

  lemma {:induction false} FramesEnclose(code: seq<Rec>, extent: int, total: nat, fs: seq<Frame>, k: nat)
    requires FramesOK(code, extent, total, fs) && k < |fs|
    ensures Lo(fs[k]) <= Lo(Top(fs)) && Hi(code, Top(fs)) <= Hi(code, fs[k])
    decreases |fs| - k
  {
    hide WF;
    if k < |fs| - 1 {
      Prefix(code, extent, total, fs, k + 2);
      FramesEnclose(code, extent, total, fs, k + 1);
    }
  }

  /** The stack never holds more loops than enclose the current record. */
  lemma {:induction false} StackDepth(code: seq<Rec>, extent: int, total: nat, fs: seq<Frame>, pos: int)
    requires FramesOK(code, extent, total, fs) && Lo(Top(fs)) <= pos <= Hi(code, Top(fs))
    ensures |fs| - 1 <= |Enclosing(code, pos)|
  {
    hide WF;
    forall i | 1 <= i < |fs| ensures fs[i].index in Enclosing(code, pos) {
      FramesEnclose(code, extent, total, fs, i);
      Prefix(code, extent, total, fs, i + 1);
    }
    forall i | 1 < i < |fs| ensures fs[i - 1].index < fs[i].index {
      Prefix(code, extent, total, fs, i + 1);
    }
    Rising(fs, |fs|, Enclosing(code, pos));
    Subset(Indices(fs, |fs|), Enclosing(code, pos));
  }

  lemma {:induction false} Subset(a: set<int>, b: set<int>)
    requires a <= b
    ensures |a| <= |b|
  {
    assert b == a + (b - a);
  }

  /** The loops that the first `n` frames run; the outermost frame runs none. */
  ghost function Indices(fs: seq<Frame>, n: nat): set<int>
    requires n <= |fs|
  {
    if n <= 1 then {} else Indices(fs, n - 1) + {fs[n - 1].index}
  }

  /** The loops on the stack are different ones. */
  lemma {:induction false} Rising(fs: seq<Frame>, n: nat, all: set<int>)
    requires 1 <= n <= |fs| && forall i :: 1 < i < n ==> fs[i - 1].index < fs[i].index
    requires forall i :: 1 <= i < n ==> fs[i].index in all
    ensures |Indices(fs, n)| == n - 1 && Indices(fs, n) <= all
    ensures n > 1 ==> forall x :: x in Indices(fs, n) ==> x <= fs[n - 1].index
  {
    if n > 1 {
      Rising(fs, n - 1, all);
      assert n > 2 ==> fs[n - 2].index < fs[n - 1].index;
    }
  }

  /** Every record that a proper state can stop at starts a loop, holds data or ends the body. */
  lemma {:induction false} AtEnd(code: seq<Rec>, extent: int, total: nat, fs: seq<Frame>, pos: int, cnt: nat, src: int)
    requires OK(code, extent, total, fs, pos, cnt, src)
    ensures Framed(code, Top(fs)) && 0 <= pos < |code|
    ensures code[pos].EndLoop? <==> pos == Hi(code, Top(fs))
  {
    if |fs| > 1 {
      assert Inside(code, fs[|fs| - 2], Top(fs));
      Unfold(code, Top(fs).index, Hi(code, fs[|fs| - 2]));
    }
  }

  // ----- states with a byte count -----

  /** A proper state with the first `b` bytes of the message done; a loop is not begun. */
  ghost predicate Proper(code: seq<Rec>, extent: int, total: nat, fs: seq<Frame>, pos: int, cnt: nat, src: int,
                         b: nat) {
    && At(code, extent, total, fs, pos, cnt, src, b)
    && (0 <= pos < |code| && code[pos].Loop? ==> cnt == code[pos].loops)
  }

  ghost predicate At(code: seq<Rec>, extent: int, total: nat, fs: seq<Frame>, pos: int, cnt: nat, src: int, b: nat) {
    && OK(code, extent, total, fs, pos, cnt, src)
    && b <= |WholeTM(code, total, extent)|
    && RemAt(code, extent, total, fs, pos, cnt, src) == WholeTM(code, total, extent)[b..]
  }

  lemma {:induction false} ProperAt(code: seq<Rec>, extent: int, total: nat, fs: seq<Frame>, pos: int, cnt: nat,
                                    src: int, b: nat)
    requires Proper(code, extent, total, fs, pos, cnt, src, b)
    ensures At(code, extent, total, fs, pos, cnt, src, b)
  {
    hide At;
  }

  /** The start of a message. */
  lemma {:induction false} Start(code: seq<Rec>, extent: int, total: nat)
    requires Committed(code) && total >= 1
    ensures Proper(code, extent, total, [Frame(-1, total, 0)], 0, Counter(code[0]), 0, 0) && !code[0].EndLoop?
  {
    var fs := [Frame(-1, total, 0)];
    StartStack(code, extent, total);
    hide WF, TM, Iter, OK, FramesOK, RemAt, After;
    FreshOK(code, extent, total, fs, 0);
    IterUnfold(Body(code), 0, extent, total);
    var whole := WholeTM(code, total, extent);
    assert whole[0..] == whole;
  }

  lemma {:induction false} StartStack(code: seq<Rec>, extent: int, total: nat)
    requires Committed(code) && total >= 1
    ensures var fs := [Frame(-1, total, 0)];
            && FramesOK(code, extent, total, fs) && Top(fs) == Frame(-1, total, 0) && Lo(Top(fs)) == 0
            && Hi(code, Top(fs)) == |code| - 1
            && After(code, extent, total, fs) == Iter(Body(code), extent, extent, total - 1)
    ensures code[0..|code| - 1] == Body(code) && !code[0].EndLoop?
  {
    assert code[0..|code| - 1] == Body(code);
    Unfold(code, 0, |code| - 1);
    hide WF, TM, Iter;
    AfterUnfold(code, extent, total, [Frame(-1, total, 0)]);
  }

  lemma {:induction false} StartNonEmpty(code: seq<Rec>, extent: int, total: nat)
    requires Committed(code) && total >= 1
    ensures |WholeTM(code, total, extent)| >= 1
  {
    hide WF, TM;
    TMNonEmpty(Body(code), 0);
    IterUnfold(Body(code), 0, extent, total);
  }

  /** At a data record, `p` bytes into an element, the offset says what the element lacks. */
  lemma {:induction false} StopAt(code: seq<Rec>, extent: int, total: nat, fs: seq<Frame>, pos: int, cnt: nat, src: int,
                                  b: nat, p: nat)
    requires Proper(code, extent, total, fs, pos, cnt, src, b) && 0 <= pos < |code| && code[pos].Data?
    requires p < code[pos].typ.size
    ensures Committed(code) && StopOK(code, extent, total, fs, pos, cnt, src, p)
    ensures b + p < |WholeTM(code, total, extent)|
    ensures MissingAt(code, b + p) == if p == 0 then 0 else code[pos].typ.size - p
  {
    hide WF, TM, Iter, After, WholeTM, Cur, MissingAt;
    AtEnd(code, extent, total, fs, pos, cnt, src);
    StopMissing(code, extent, total, fs, pos, cnt, src, p);
    hide OK, RemAt;
  }

  /** Skipping `n` whole datatypes. */
  lemma {:induction false} Skip(code: seq<Rec>, extent: int, total: nat, fs: seq<Frame>, pos: int, cnt: nat, src: int,
                                b: nat, n: nat, size: nat)
    requires Proper(code, extent, total, fs, pos, cnt, src, b) && |code| > 0 && size == |TM(Body(code), 0)|
    requires n * size < |WholeTM(code, total, extent)| - b
    ensures 0 <= n * size && |fs| >= 1 && n < fs[0].count
    ensures Proper(code, extent, total, Skipped(fs, n, extent), pos, cnt, src + n * extent, b + n * size)
  {
    hide WF, TM, WholeTM, RemAt;
    assert |fs| >= 1;
    SkipRem(code, extent, total, fs, pos, cnt, src, n);
    hide OK;
    MulMono(0, n, size);
    RemSuffix(code, extent, total, Skipped(fs, n, extent), pos, cnt, src + n * extent);
  }

  /** What an interpreter may assume about the place it is at. */
  lemma {:induction false} Place(code: seq<Rec>, extent: int, total: nat, fs: seq<Frame>, pos: int, cnt: nat, src: int,
                                 b: nat)
    requires Proper(code, extent, total, fs, pos, cnt, src, b)
    ensures |fs| >= 1 && Framed(code, Top(fs)) && 0 <= pos < |code| && Top(fs).count >= 1
    ensures code[pos].EndLoop? <==> pos == Hi(code, Top(fs))
    ensures pos <= Hi(code, Top(fs)) < |code|
    ensures code[pos].EndLoop? ==> src == Top(fs).disp
    ensures code[pos].Loop? ==>
              src == Top(fs).disp && pos + code[pos].items < |code| && code[pos + code[pos].items].EndLoop?
                                && code[pos + code[pos].items].size >= 1
    ensures code[pos].Data? ==> code[pos].typ.size >= 1 && cnt >= 1
    ensures b <= |WholeTM(code, total, extent)|
    ensures !code[pos].EndLoop? ==> b < |WholeTM(code, total, extent)|
    ensures |fs| - 1 <= |Enclosing(code, pos)|
  {
    hide WF, TM, Iter, After, WholeTM, Enclosing, Cur;
    AtEnd(code, extent, total, fs, pos, cnt, src);
    Inner(code, extent, total, fs);
    StackDepth(code, extent, total, fs, pos);
    RemEmpty(code, extent, total, fs, pos, cnt, src);
    hide FramesOK, RemAt;
    if pos < Hi(code, Top(fs)) {
      OneItem(code, pos, Hi(code, Top(fs)));
      Unfold(code, pos, Hi(code, Top(fs)));
      if code[pos].Loop? { TMNonEmpty(code[pos + 1..pos + code[pos].items], 0); }
    }
  }

  lemma {:induction false} Leave(code: seq<Rec>, extent: int, total: nat, fs: seq<Frame>, pos: int, cnt: nat, src: int,
                                 b: nat)
    requires Proper(code, extent, total, fs, pos, cnt, src, b)
    requires 0 <= pos < |code| && code[pos].EndLoop? && Top(fs).count == 1
    ensures |fs| == 1 ==> b == |WholeTM(code, total, extent)|
    ensures |fs| > 1 ==>
              pos + 1 < |code|
              && Proper(code, extent, total, Pop(fs), pos + 1, Counter(code[pos + 1]), Top(Pop(fs)).disp, b)
  {
    hide WF, TM, Iter, After, WholeTM, Cur;
    AtEnd(code, extent, total, fs, pos, cnt, src);
    if |fs| == 1 {
      RemEmpty(code, extent, total, fs, pos, cnt, src);
    } else {
      PopStep(code, extent, total, fs, cnt);
      hide OK, RemAt;
    }
  }

  lemma {:induction false} Repeat(code: seq<Rec>, extent: int, total: nat, fs: seq<Frame>, pos: int, cnt: nat, src: int,
                                  b: nat)
    requires Proper(code, extent, total, fs, pos, cnt, src, b)
    requires 0 <= pos < |code| && code[pos].EndLoop? && Top(fs).count > 1
    ensures Framed(code, Top(fs)) && 0 <= Lo(Top(fs)) < |code|
    ensures var f := Top(fs); var d := f.disp + StepExtent(code, extent, f);
            && !code[Lo(f)].EndLoop?
            && Proper(code, extent, total, Pop(fs) + [Frame(f.index, f.count - 1, d)], Lo(f), Counter(code[Lo(f)]), d,
                      b)
  {
    hide WF, TM, Iter, After, WholeTM, Cur;
    AtEnd(code, extent, total, fs, pos, cnt, src);
    AgainStep(code, extent, total, fs, cnt);
    var f := Top(fs);
    var d := f.disp + StepExtent(code, extent, f);
    AtEnd(code, extent, total, Pop(fs) + [Frame(f.index, f.count - 1, d)], Lo(f), Counter(code[Lo(f)]), d);
    hide OK, RemAt;
  }

  /** Entering a loop of which `k` repetitions were already moved in one go. */
  lemma {:induction false} Enter(code: seq<Rec>, extent: int, total: nat, fs: seq<Frame>, pos: int, cnt: nat, src: int,
                                 b: nat)
    requires At(code, extent, total, fs, pos, cnt, src, b) && 0 <= pos < |code| && code[pos].Loop?
    ensures pos + 1 < |code| && !code[pos + 1].EndLoop?
    ensures var fs' := fs + [Frame(pos, cnt, src)];
            && Proper(code, extent, total, fs', pos + 1, Counter(code[pos + 1]), src, b)
            && Framed(code, Top(fs')) && Framed(code, Top(fs)) && Hi(code, Top(fs')) < Hi(code, Top(fs))
  {
    hide WF, TM, Iter, After, WholeTM, Cur;
    AtEnd(code, extent, total, fs, pos, cnt, src);
    PushStep(code, extent, total, fs, pos, cnt, src);
    var fs' := fs + [Frame(pos, cnt, src)];
    AtEnd(code, extent, total, fs', pos + 1, Counter(code[pos + 1]), src);
    hide OK, RemAt;
  }

  /** Displacements that come off the front of what is left. */
  lemma {:induction false} Advance(code: seq<Rec>, extent: int, total: nat, fs: seq<Frame>, pos: int, cnt: nat,
                                   src: int, b: nat,
                   moved: seq<int>, pos': int, cnt': nat, src': int)
    requires Proper(code, extent, total, fs, pos, cnt, src, b) && OK(code, extent, total, fs, pos', cnt', src')
    requires OK(code, extent, total, fs, pos, cnt, src) && |code| > 0
    requires RemAt(code, extent, total, fs, pos, cnt, src) == moved + RemAt(code, extent, total, fs, pos', cnt', src')
    ensures b + |moved| <= |WholeTM(code, total, extent)| && moved == WholeTM(code, total, extent)[b..b + |moved|]
    ensures At(code, extent, total, fs, pos', cnt', src', b + |moved|)
    ensures 0 <= pos' < |code| && (code[pos'].Loop? ==> cnt' == code[pos'].loops) ==>
              Proper(code, extent, total, fs, pos', cnt', src', b + |moved|)
  {
    hide WF, TM, Iter, WholeTM, RemAt, OK;
    Slice(WholeTM(code, total, extent), b, moved, RemAt(code, extent, total, fs, pos', cnt', src'));
  }

  lemma {:induction false} AtHere(code: seq<Rec>, extent: int, total: nat, fs: seq<Frame>, pos: int, cnt: nat, src: int,
                                  b: nat)
    requires Proper(code, extent, total, fs, pos, cnt, src, b)
    requires 0 <= pos < |code| && !code[pos].EndLoop?
    ensures OK(code, extent, total, fs, pos, cnt, src) && Framed(code, Top(fs)) && pos < Hi(code, Top(fs))
  {
    hide WF, TM, Iter, WholeTM, RemAt;
    AtEnd(code, extent, total, fs, pos, cnt, src);
  }

  /** Moving `k` elements of a data record. */
  lemma {:induction false} MoveData(code: seq<Rec>, extent: int, total: nat, fs: seq<Frame>, pos: int, cnt: nat,
                                    src: int, b: nat, k: nat)
    requires Proper(code, extent, total, fs, pos, cnt, src, b)
    requires 0 <= pos < |code| && code[pos].Data? && k <= cnt
    ensures var s := code[pos].typ.size; var whole := WholeTM(code, total, extent);
            && 0 <= k * s && b + k * s <= |whole|
            && Elems(s, k, src + code[pos].disp, code[pos].extent) == whole[b..b + k * s]
            && (k < cnt ==> Proper(code, extent, total, fs, pos, cnt - k, src + k * code[pos].extent, b + k * s))
            && (k == cnt ==>
                  pos + 1 < |code|
                  && Proper(code, extent, total, fs, pos + 1, Counter(code[pos + 1]), Top(fs).disp, b + k * s))
  {
    hide WF, TM, Iter, WholeTM, RemAt, OK, Proper, At, Elems;
    ElemsLength(code[pos].typ.size, k, src + code[pos].disp, code[pos].extent);
    if k < cnt {
      SomeData(code, extent, total, fs, pos, cnt, src, b, k);
    } else {
      AllData(code, extent, total, fs, pos, cnt, src, b);
    }
  }

  lemma {:induction false} SomeData(code: seq<Rec>, extent: int, total: nat, fs: seq<Frame>, pos: int, cnt: nat,
                                    src: int, b: nat, k: nat)
    requires Proper(code, extent, total, fs, pos, cnt, src, b)
    requires 0 <= pos < |code| && code[pos].Data? && k < cnt
    ensures var moved := Elems(code[pos].typ.size, k, src + code[pos].disp, code[pos].extent);
            && b + |moved| <= |WholeTM(code, total, extent)| && moved == WholeTM(code, total, extent)[b..b + |moved|]
            && Proper(code, extent, total, fs, pos, cnt - k, src + k * code[pos].extent, b + |moved|)
  {
    hide WF, TM, Iter, WholeTM, RemAt, OK, Proper, At, Elems;
    AtHere(code, extent, total, fs, pos, cnt, src, b);
    DataSome(code, extent, total, fs, pos, cnt, src, k);
    Advance(code, extent, total, fs, pos, cnt, src, b,
            Elems(code[pos].typ.size, k, src + code[pos].disp, code[pos].extent),
            pos, cnt - k, src + k * code[pos].extent);
  }

  lemma {:induction false} AllData(code: seq<Rec>, extent: int, total: nat, fs: seq<Frame>, pos: int, cnt: nat,
                                   src: int, b: nat)
    requires Proper(code, extent, total, fs, pos, cnt, src, b)
    requires 0 <= pos < |code| && code[pos].Data?
    ensures pos + 1 < |code| && |fs| >= 1
    ensures var moved := Elems(code[pos].typ.size, cnt, src + code[pos].disp, code[pos].extent);
            && b + |moved| <= |WholeTM(code, total, extent)| && moved == WholeTM(code, total, extent)[b..b + |moved|]
            && Proper(code, extent, total, fs, pos + 1, Counter(code[pos + 1]), Top(fs).disp, b + |moved|)
  {
    hide WF, TM, Iter, WholeTM, RemAt, OK, Proper, At, Elems;
    AtHere(code, extent, total, fs, pos, cnt, src, b);
    DataAll(code, extent, total, fs, pos, cnt, src);
    Advance(code, extent, total, fs, pos, cnt, src, b,
            Elems(code[pos].typ.size, cnt, src + code[pos].disp, code[pos].extent),
            pos + 1, Counter(code[pos + 1]), Top(fs).disp);
  }

  /** The displacements of `k` repetitions of a contiguous loop. */
  ghost function Blocks(code: seq<Rec>, pos: int, k: nat, src: int): seq<int>
    requires 0 <= pos < |code| && code[pos].Loop? && pos + code[pos].items < |code|
    requires code[pos + code[pos].items].EndLoop?
  {
    Elems(code[pos + code[pos].items].size, k, src + code[pos + code[pos].items].first, code[pos].extent)
  }

  /** Moving some, not all, of the repetitions of a contiguous loop. */
  lemma {:induction false} SomeLoops(code: seq<Rec>, extent: int, total: nat, fs: seq<Frame>, pos: int, cnt: nat,
                                     src: int, b: nat, k: nat)
    requires Proper(code, extent, total, fs, pos, cnt, src, b)
    requires 0 <= pos < |code| && code[pos].Loop? && code[pos].contiguous && k < cnt
    ensures pos + code[pos].items < |code| && code[pos + code[pos].items].EndLoop?
    ensures var s := code[pos + code[pos].items].size; var whole := WholeTM(code, total, extent);
            && 0 <= k * s && b + k * s <= |whole| && Blocks(code, pos, k, src) == whole[b..b + k * s]
            && At(code, extent, total, fs, pos, cnt - k, src + k * code[pos].extent, b + k * s)
  {
    hide WF, TM, Iter, WholeTM, RemAt, OK, Proper, At, Elems;
    AtHere(code, extent, total, fs, pos, cnt, src, b);
    LoopSome(code, extent, total, fs, pos, cnt, src, k);
    var end := code[pos + code[pos].items];
    ElemsLength(end.size, k, src + end.first, code[pos].extent);
    Advance(code, extent, total, fs, pos, cnt, src, b, Blocks(code, pos, k, src), pos, cnt - k,
            src + k * code[pos].extent);
  }

  /** Moving all the repetitions of a contiguous loop that are left. */
  lemma {:induction false} AllLoops(code: seq<Rec>, extent: int, total: nat, fs: seq<Frame>, pos: int, cnt: nat,
                                    src: int, b: nat)
    requires Proper(code, extent, total, fs, pos, cnt, src, b)
    requires 0 <= pos < |code| && code[pos].Loop? && code[pos].contiguous
    ensures pos + code[pos].items + 1 < |code| && code[pos + code[pos].items].EndLoop? && |fs| >= 1
    ensures var s := code[pos + code[pos].items].size; var whole := WholeTM(code, total, extent);
            var next := pos + code[pos].items + 1;
            && 0 <= cnt * s && b + cnt * s <= |whole| && Blocks(code, pos, cnt, src) == whole[b..b + cnt * s]
            && Proper(code, extent, total, fs, next, Counter(code[next]), Top(fs).disp, b + cnt * s)
  {
    hide WF, TM, Iter, WholeTM, RemAt, OK, Proper, At, Elems;
    AtHere(code, extent, total, fs, pos, cnt, src, b);
    LoopAll(code, extent, total, fs, pos, cnt, src);
    var end := code[pos + code[pos].items];
    var next := pos + code[pos].items + 1;
    ElemsLength(end.size, cnt, src + end.first, code[pos].extent);
    Advance(code, extent, total, fs, pos, cnt, src, b, Blocks(code, pos, cnt, src), next, Counter(code[next]),
            Top(fs).disp);
  }

  lemma {:induction false} Slice(w: seq<int>, b: nat, moved: seq<int>, rest: seq<int>)
    requires b <= |w| && w[b..] == moved + rest
    ensures b + |moved| <= |w| && w[b..b + |moved|] == moved && w[b + |moved|..] == rest
  {
    assert w[b..][..|moved|] == moved && w[b..][|moved|..] == rest;
  }
}
