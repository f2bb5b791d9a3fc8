/** Proper states are canonical: how many bytes are left determines the whole state.

    The proofs look at a state from the outermost loop inwards.  `In(.., j, ..)` is what is left
    of the running repetition of frame `j`, everything nested in it included. */
module Canonical {
  import opened Typemap
  import opened ConvertorState

  ghost predicate SuffixOf(s: seq<int>, t: seq<int>) {
    |s| <= |t| && t[|t| - |s|..] == s
  }

  lemma {:induction false} SuffixAppend(s: seq<int>, t: seq<int>, u: seq<int>, p: seq<int>)
    requires SuffixOf(s, t)
    ensures SuffixOf(s + u, p + (t + u))
  {
    var w := p + (t + u);
    assert w[|w| - |s + u|..] == t[|t| - |s|..] + u;
  }

  lemma {:induction false} SuffixTrans(s: seq<int>, t: seq<int>, u: seq<int>)
    requires SuffixOf(s, t) && SuffixOf(t, u)
    ensures SuffixOf(s, u)
  {
    assert u[|u| - |s|..] == t[|t| - |s|..];
  }

  // ----- positions inside a well-formed stretch -----

  /** Length of the record, or loop, that starts at `pos`. */
  ghost function Span(r: Rec): nat {
    if r.Loop? then r.items + 1 else 1
  }

  lemma {:induction false} OneItem(code: seq<Rec>, pos: int, hi: int)
    requires 0 <= pos < hi <= |code| && WF(code[pos..hi])
    ensures !code[pos].EndLoop? && 1 <= Span(code[pos]) <= hi - pos && WF(code[pos + Span(code[pos])..hi])
    ensures code[pos].Loop? ==>
              && 2 <= code[pos].items < hi - pos
              && WF(code[pos + 1..pos + code[pos].items]) && code[pos + code[pos].items].EndLoop?
  {
    Unfold(code, pos, hi);
    hide WF, TM, First;
  }

  /** A well-formed stretch cannot start inside a loop body and end after it. */
  lemma {:induction false} NoCross(code: seq<Rec>, a: int, e: int, i: int, hi: int)
    requires 0 <= a <= i <= e < hi <= |code|
    requires WF(code[a..e]) && WF(code[i..hi]) && code[e].EndLoop?
    ensures false
    decreases e - a, e - i
  {
    hide WF;
    OneItem(code, i, hi);
    if i == e {
      assert false;
    } else {
      OneItem(code, a, e);
      var n := Span(code[a]);
      if a == i {
        NoCross(code, a + n, e, i + n, hi);
      } else if i >= a + n {
        NoCross(code, a + n, e, i, hi);
      } else {
        NoCross(code, a + 1, a + code[a].items, i, hi);
      }
    }
  }

  /** Stretches that share their end nest: the later one starts after the first item of the other. */
  lemma {:induction false} NextItem(code: seq<Rec>, a: int, i: int, hi: int)
    requires 0 <= a < i <= hi <= |code| && WF(code[a..hi]) && WF(code[i..hi])
    ensures a + Span(code[a]) <= i && WF(code[a + Span(code[a])..hi])
  {
    hide WF;
    OneItem(code, a, hi);
    if i < a + Span(code[a]) {
      NoCross(code, a + 1, a + code[a].items, i, hi);
    }
  }

  ghost function Item(r: Rec, code: seq<Rec>, pos: int, disp: int): seq<int>
    requires 0 <= pos < |code|
  {
    match r
    case Data(t, count, d, extent, _) => Elems(t.size, count, disp + d, extent)
    case Loop(loops, items, extent, _) =>
      if 2 <= items && pos + items < |code| then Iter(code[pos + 1..pos + items], disp, extent, loops) else []
    case EndLoop(_, _, _) => []
  }

  lemma {:induction false} TMItem(code: seq<Rec>, pos: int, hi: int, disp: int)
    requires 0 <= pos < hi <= |code| && WF(code[pos..hi])
    ensures pos + Span(code[pos]) <= hi && WF(code[pos + Span(code[pos])..hi])
    ensures TM(code[pos..hi], disp) == Item(code[pos], code, pos, disp) + TM(code[pos + Span(code[pos])..hi], disp)
  {
    Unfold(code, pos, hi);
    hide WF, TM, First, Iter, Elems;
    if code[pos].Data? { TMData(code, pos, hi, disp); } else { TMLoop(code, pos, hi, disp); }
  }

  lemma {:induction false} TMSuffix(code: seq<Rec>, lo: int, i: int, hi: int, disp: int)
    requires 0 <= lo <= i <= hi <= |code| && WF(code[lo..hi]) && WF(code[i..hi])
    ensures SuffixOf(TM(code[i..hi], disp), TM(code[lo..hi], disp))
    decreases i - lo
  {
    hide WF, TM, Item;
    if lo < i {
      NextItem(code, lo, i, hi);
      TMItem(code, lo, hi, disp);
      TMSuffix(code, lo + Span(code[lo]), i, hi, disp);
      SuffixPrepend(TM(code[i..hi], disp), TM(code[lo + Span(code[lo])..hi], disp), Item(code[lo], code, lo, disp));
    }
  }

  lemma {:induction false} SuffixPrepend(s: seq<int>, t: seq<int>, p: seq<int>)
    requires SuffixOf(s, t)
    ensures SuffixOf(s, p + t)
  {
    assert (p + t)[|p + t| - |s|..] == t[|t| - |s|..];
  }

  /** The typemap of the body of frame `f`, in its running repetition. */
  ghost function Region(code: seq<Rec>, f: Frame): seq<int>
    requires Framed(code, f) && 0 <= Lo(f) <= Hi(code, f) <= |code|
  {
    TM(code[Lo(f)..Hi(code, f)], f.disp)
  }

  // ----- what is left of the running repetition of frame j -----

  ghost function In(code: seq<Rec>, extent: int, total: nat, fs: seq<Frame>, j: nat, pos: int, cnt: nat,
                    src: int): seq<int>
    requires OK(code, extent, total, fs, pos, cnt, src) && j < |fs|
    decreases |fs| - j
  {
    if j == |fs| - 1 then Cur(code, Hi(code, Top(fs)), pos, cnt, src, Top(fs).disp)
    else
      Prefix(code, extent, total, fs, j + 2);
      In(code, extent, total, fs, j + 1, pos, cnt, src)
      + (Again(code, extent, fs[..j + 2]) + TM(code[Hi(code, fs[j + 1]) + 1..Hi(code, fs[j])], fs[j].disp))
  }

  lemma {:induction false} Prefix(code: seq<Rec>, extent: int, total: nat, fs: seq<Frame>, n: nat)
    requires FramesOK(code, extent, total, fs) && 1 <= n <= |fs|
    ensures FramesOK(code, extent, total, fs[..n]) && Top(fs[..n]) == fs[n - 1]
    ensures Framed(code, fs[n - 1]) && (n > 1 ==> Framed(code, fs[n - 2]))
    ensures 0 <= Lo(fs[n - 1]) < Hi(code, fs[n - 1]) < |code| && fs[n - 1].count >= 1
    ensures WF(code[Lo(fs[n - 1])..Hi(code, fs[n - 1])])
    ensures n > 1 ==> Lo(fs[n - 2]) <= Hi(code, fs[n - 1]) < Hi(code, fs[n - 2]) < |code|
                      && Inside(code, fs[n - 2], fs[n - 1])
                      && WF(code[Hi(code, fs[n - 1]) + 1..Hi(code, fs[n - 2])])
  {
    hide WF, TM, Iter;
    var gs := fs[..n];
    assert FramesOK(code, extent, total, gs) by {
      forall k | 1 <= k < |gs| ensures Inside(code, gs[k - 1], gs[k]) {
        assert Inside(code, fs[k - 1], fs[k]);
      }
    }
    Inner(code, extent, total, gs);
  }

  lemma {:induction false} InStep(code: seq<Rec>, extent: int, total: nat, fs: seq<Frame>, j: nat, pos: int, cnt: nat,
                                  src: int)
    requires OK(code, extent, total, fs, pos, cnt, src) && j < |fs| - 1
    ensures FramesOK(code, extent, total, fs[..j + 2]) && Top(fs[..j + 2]) == fs[j + 1]
    ensures 0 <= Lo(fs[j + 1]) <= Hi(code, fs[j + 1]) < Hi(code, fs[j]) < |code| && fs[j + 1].count >= 1
    ensures In(code, extent, total, fs, j, pos, cnt, src)
         == In(code, extent, total, fs, j + 1, pos, cnt, src)
            + (Again(code, extent, fs[..j + 2]) + TM(code[Hi(code, fs[j + 1]) + 1..Hi(code, fs[j])], fs[j].disp))
  {
    Prefix(code, extent, total, fs, j + 2);
    hide WF, TM, Iter, Cur, Again, Inside;
  }

  /** The two ways to cut what is left agree. */
  lemma {:induction false} InAfter(code: seq<Rec>, extent: int, total: nat, fs: seq<Frame>, j: nat, pos: int, cnt: nat,
                                   src: int)
    requires OK(code, extent, total, fs, pos, cnt, src) && j < |fs|
    ensures FramesOK(code, extent, total, fs[..j + 1])
    ensures RemAt(code, extent, total, fs, pos, cnt, src)
         == In(code, extent, total, fs, j, pos, cnt, src) + After(code, extent, total, fs[..j + 1])
    decreases |fs| - j
  {
    Prefix(code, extent, total, fs, j + 1);
    if j == |fs| - 1 {
      assert fs[..j + 1] == fs;
    } else {
      InAfter(code, extent, total, fs, j + 1, pos, cnt, src);
      InStep(code, extent, total, fs, j, pos, cnt, src);
      OuterStep(code, extent, total, fs, j);
      hide *;
      var rest := TM(code[Hi(code, fs[j + 1]) + 1..Hi(code, fs[j])], fs[j].disp);
      AssocFour(In(code, extent, total, fs, j + 1, pos, cnt, src), Again(code, extent, fs[..j + 2]), rest,
                After(code, extent, total, fs[..j + 1]));
    }
  }

  lemma {:induction false} AssocFour(a: seq<int>, b: seq<int>, c: seq<int>, d: seq<int>)
    ensures a + (b + (c + d)) == (a + (b + c)) + d
  {}

  lemma {:induction false} OuterStep(code: seq<Rec>, extent: int, total: nat, fs: seq<Frame>, j: nat)
    requires FramesOK(code, extent, total, fs) && j < |fs| - 1
    ensures FramesOK(code, extent, total, fs[..j + 2]) && FramesOK(code, extent, total, fs[..j + 1])
    ensures Top(fs[..j + 2]) == fs[j + 1] && fs[j + 1].count >= 1
    ensures Framed(code, fs[j]) && Framed(code, fs[j + 1])
    ensures 0 <= Lo(fs[j + 1]) <= Hi(code, fs[j + 1]) < Hi(code, fs[j]) < |code|
    ensures After(code, extent, total, fs[..j + 2])
         == Again(code, extent, fs[..j + 2])
            + (TM(code[Hi(code, fs[j + 1]) + 1..Hi(code, fs[j])], fs[j].disp) + After(code, extent, total, fs[..j + 1]))
  {
    hide WF, TM, Iter, Again, After, Inside, FramesOK;
    Prefix(code, extent, total, fs, j + 2);
    Prefix(code, extent, total, fs, j + 1);
    var gs := fs[..j + 2];
    AfterUnfold(code, extent, total, gs);
    assert Pop(gs) == fs[..j + 1];
    assert gs[|gs| - 2] == fs[j];
  }

  /** What is left in the innermost body ends the body. */
  lemma {:induction false} CurSuffix(code: seq<Rec>, extent: int, total: nat, fs: seq<Frame>, pos: int, cnt: nat,
                                     src: int)
    requires OK(code, extent, total, fs, pos, cnt, src)
    ensures Framed(code, Top(fs)) && 0 <= Lo(Top(fs)) <= Hi(code, Top(fs)) <= |code|
    ensures SuffixOf(Cur(code, Hi(code, Top(fs)), pos, cnt, src, Top(fs).disp), Region(code, Top(fs)))
  {
    hide WF, TM, Iter, Inside;
    Inner(code, extent, total, fs);
    var f := Top(fs);
    var hi := Hi(code, f);
    TMSuffix(code, Lo(f), pos, hi, f.disp);
    if pos < hi {
      TMItem(code, pos, hi, f.disp);
      ItemSuffix(code, hi, pos, cnt, f.disp);
      CurItem(code, hi, pos, cnt, src, f.disp);
      hide FramesOK, Cur, Item, ItemLeft;
      var rest := TM(code[pos + Span(code[pos])..hi], f.disp);
      var all := Item(code[pos], code, pos, f.disp);
      SuffixAppend(ItemLeft(code, pos, cnt, src), all, rest, []);
      assert [] + (all + rest) == TM(code[pos..hi], f.disp);
      SuffixTrans(Cur(code, hi, pos, cnt, src, f.disp), TM(code[pos..hi], f.disp), TM(code[Lo(f)..hi], f.disp));
    }
  }

  lemma {:induction false} CurItem(code: seq<Rec>, hi: int, pos: int, cnt: nat, src: int, disp: int)
    requires 0 <= pos < hi < |code| && WF(code[pos..hi])
    ensures pos + Span(code[pos]) <= hi
    ensures Cur(code, hi, pos, cnt, src, disp)
         == ItemLeft(code, pos, cnt, src) + TM(code[pos + Span(code[pos])..hi], disp)
  {
    hide WF, TM, Iter, Elems;
    OneItem(code, pos, hi);
  }

  ghost function ItemLeft(code: seq<Rec>, pos: int, cnt: nat, src: int): seq<int>
    requires 0 <= pos < |code|
  {
    match code[pos]
    case Data(t, _, d, extent, _) => Elems(t.size, cnt, src + d, extent)
    case Loop(_, items, extent, _) =>
      if 2 <= items && pos + items < |code| then Iter(code[pos + 1..pos + items], src, extent, cnt) else []
    case EndLoop(_, _, _) => []
  }

  lemma {:induction false} ItemSuffix(code: seq<Rec>, hi: int, pos: int, cnt: nat, disp: int)
    requires 0 <= pos < hi <= |code| && cnt <= Counter(code[pos])
    ensures SuffixOf(ItemLeft(code, pos, cnt, disp + (Counter(code[pos]) - cnt) * Stride(code[pos])),
                     Item(code[pos], code, pos, disp))
  {
    var done := Counter(code[pos]) - cnt;
    match code[pos]
    case Data(t, count, d, extent, _) =>
      ElemsSplit(t.size, done, cnt, disp + d, extent);
      assert disp + done * extent + d == disp + d + done * extent;
    case Loop(loops, items, extent, _) =>
      if 2 <= items && pos + items < |code| {
        IterSplit(code[pos + 1..pos + items], disp, extent, done, cnt);
      }
    case EndLoop(_, _, _) =>
  }

  /** What is left of a repetition ends that repetition. */
  lemma {:induction false} InSuffix(code: seq<Rec>, extent: int, total: nat, fs: seq<Frame>, j: nat, pos: int, cnt: nat,
                                    src: int)
    requires OK(code, extent, total, fs, pos, cnt, src) && j < |fs|
    ensures Framed(code, fs[j]) && 0 <= Lo(fs[j]) <= Hi(code, fs[j]) <= |code|
    ensures SuffixOf(In(code, extent, total, fs, j, pos, cnt, src), Region(code, fs[j]))
    decreases |fs| - j
  {
    hide WF, TM, Iter, Cur, In, Region;
    Prefix(code, extent, total, fs, j + 1);
    if j == |fs| - 1 {
      CurSuffix(code, extent, total, fs, pos, cnt, src);
      InTop(code, extent, total, fs, pos, cnt, src);
    } else {
      InSuffix(code, extent, total, fs, j + 1, pos, cnt, src);
      Prefix(code, extent, total, fs, j + 2);
      InStep(code, extent, total, fs, j, pos, cnt, src);
      hide FramesOK, OK;
      LevelSuffix(code, extent, fs[j], fs[j + 1], In(code, extent, total, fs, j + 1, pos, cnt, src), fs[..j + 2]);
    }
  }

  lemma {:induction false} InTop(code: seq<Rec>, extent: int, total: nat, fs: seq<Frame>, pos: int, cnt: nat, src: int)
    requires OK(code, extent, total, fs, pos, cnt, src)
    ensures Framed(code, Top(fs)) && 0 <= pos <= Hi(code, Top(fs)) < |code|
    ensures In(code, extent, total, fs, |fs| - 1, pos, cnt, src)
              == Cur(code, Hi(code, Top(fs)), pos, cnt, src, Top(fs).disp)
  {
    hide WF, TM, Iter, Elems, Inside, Cur;
  }

  lemma {:induction false} LevelSuffix(code: seq<Rec>, extent: int, p: Frame, f: Frame, left: seq<int>, gs: seq<Frame>)
    requires Framed(code, p) && Framed(code, f) && f.index >= 0 && Inside(code, p, f) && f.count >= 1
    requires |gs| >= 1 && Top(gs) == f
    requires 0 <= Lo(p) < Hi(code, p) < |code| && WF(code[Lo(p)..Hi(code, p)])
    requires 0 <= Lo(f) < Hi(code, f) < Hi(code, p) && SuffixOf(left, Region(code, f))
    ensures SuffixOf(left + (Again(code, extent, gs) + TM(code[Hi(code, f) + 1..Hi(code, p)], p.disp)), Region(code, p))
  {
    hide WF, TM, Iter;
    var r := code[f.index];
    var hi := Hi(code, p);
    var body := code[Lo(f)..Hi(code, f)];
    var rest := TM(code[Hi(code, f) + 1..hi], p.disp);
    TMSuffix(code, Lo(p), f.index, hi, p.disp);
    TMLoop(code, f.index, hi, p.disp);
    IterSplit(body, p.disp, r.extent, r.loops - f.count, f.count);
    IterUnfold(body, f.disp, r.extent, f.count);
    var before := Iter(body, p.disp, r.extent, r.loops - f.count);
    var again := Again(code, extent, gs);
    assert TM(code[f.index..hi], p.disp) == before + (Region(code, f) + (again + rest));
    hide Again, Region;
    SuffixAppend(left, TM(body, f.disp), again + rest, before);
    SuffixTrans(left + (again + rest), TM(code[f.index..hi], p.disp), TM(code[Lo(p)..hi], p.disp));
  }

  /** Whatever the path that led to a proper state, what is left is the end of the typemap. */
  lemma {:induction false} RemSuffix(code: seq<Rec>, extent: int, total: nat, fs: seq<Frame>, pos: int, cnt: nat,
                                     src: int)
    requires OK(code, extent, total, fs, pos, cnt, src)
    ensures SuffixOf(RemAt(code, extent, total, fs, pos, cnt, src), WholeTM(code, total, extent))
  {
    hide WF, TM, Cur, In;
    InAfter(code, extent, total, fs, 0, pos, cnt, src);
    InSuffix(code, extent, total, fs, 0, pos, cnt, src);
    AfterUnfold(code, extent, total, fs[..1]);
    var f := fs[0];
    assert Top(fs[..1]) == f;
    IterSplit(Body(code), 0, extent, total - f.count, f.count);
    IterUnfold(Body(code), f.disp, extent, f.count);
    assert Body(code) == code[Lo(f)..Hi(code, f)];
    hide Iter;
    var again := Again(code, extent, fs[..1]);
    SuffixAppend(In(code, extent, total, fs, 0, pos, cnt, src), Region(code, f), again,
                 Iter(Body(code), 0, extent, total - f.count));
  }
}
