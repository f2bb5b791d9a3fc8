/** Where a message stops: the state at a byte offset is unique, and the offset alone says how
    many bytes of a split element are missing. */
module SplitPoint {
  import opened Typemap
  import opened ConvertorState
  import opened Canonical

  /** A state in which an interpreter may stop: at a data record, `p` bytes into an element. */
  ghost predicate StopOK(code: seq<Rec>, extent: int, total: nat, fs: seq<Frame>, pos: int, cnt: nat, src: int,
                         p: nat) {
    && OK(code, extent, total, fs, pos, cnt, src)
    && pos < Hi(code, Top(fs)) && code[pos].Data? && p < code[pos].typ.size
  }

  // ----- one level of the stack -----

  /** The record of body `j` that a state is working on. */
  ghost function PosAt(fs: seq<Frame>, j: nat, pos: int): int
    requires j < |fs|
  {
    if j == |fs| - 1 then pos else fs[j + 1].index
  }

  /** How much of that record is left. */
  ghost function LeftAt(code: seq<Rec>, extent: int, total: nat, fs: seq<Frame>, j: nat, pos: int, cnt: nat,
                        src: int): int
    requires StopOK(code, extent, total, fs, pos, cnt, src, 0) && j < |fs|
  {
    if j == |fs| - 1 then cnt * code[pos].typ.size
    else
      Prefix(code, extent, total, fs, j + 2);
      |In(code, extent, total, fs, j + 1, pos, cnt, src)| + (fs[j + 1].count - 1) * Size(code, fs[j + 1])
  }

  /** Bytes of one repetition of the loop that `f` runs. */
  ghost function Size(code: seq<Rec>, f: Frame): nat
    requires Framed(code, f) && 0 <= Lo(f) <= Hi(code, f) <= |code|
  {
    |TM(code[Lo(f)..Hi(code, f)], 0)|
  }

  /** What is left of a body is what is left of its current record and all that follows it. */
  lemma {:induction false} Level(code: seq<Rec>, extent: int, total: nat, fs: seq<Frame>, j: nat, pos: int, cnt: nat,
                                 src: int)
    requires StopOK(code, extent, total, fs, pos, cnt, src, 0) && j < |fs|
    ensures var a := PosAt(fs, j, pos);
            && Framed(code, fs[j]) && 0 <= Lo(fs[j]) <= a < Hi(code, fs[j]) < |code|
            && WF(code[a..Hi(code, fs[j])]) && WF(code[Lo(fs[j])..Hi(code, fs[j])])
            && a + Span(code[a]) <= Hi(code, fs[j])
            && |In(code, extent, total, fs, j, pos, cnt, src)|
               == LeftAt(code, extent, total, fs, j, pos, cnt, src) + |TM(code[a + Span(code[a])..Hi(code, fs[j])], 0)|
  {
    hide WF, TM, Iter, Elems, Inside, In;
    Prefix(code, extent, total, fs, j + 1);
    var a := PosAt(fs, j, pos);
    var hi := Hi(code, fs[j]);
    if j == |fs| - 1 {
      OneItem(code, pos, hi);
      CurItem(code, hi, pos, cnt, src, fs[j].disp);
      ElemsLength(code[pos].typ.size, cnt, src + code[pos].disp, code[pos].extent);
      TMLength(code[pos + 1..hi], fs[j].disp);
      InTop(code, extent, total, fs, pos, cnt, src);
    } else {
      LowLevel(code, extent, total, fs, j, pos, cnt, src);
    }
  }

  lemma {:induction false} LowLevel(code: seq<Rec>, extent: int, total: nat, fs: seq<Frame>, j: nat, pos: int, cnt: nat,
                                    src: int)
    requires StopOK(code, extent, total, fs, pos, cnt, src, 0) && j < |fs| - 1
    ensures var a := fs[j + 1].index;
            && Framed(code, fs[j]) && 0 <= Lo(fs[j]) <= a < Hi(code, fs[j]) < |code| && WF(code[a..Hi(code, fs[j])])
            && code[a].Loop? && a + Span(code[a]) <= Hi(code, fs[j])
            && |In(code, extent, total, fs, j, pos, cnt, src)|
               == LeftAt(code, extent, total, fs, j, pos, cnt, src) + |TM(code[a + Span(code[a])..Hi(code, fs[j])], 0)|
  {
    hide WF, TM, Iter, Elems, Cur, FramesOK, In;
    Prefix(code, extent, total, fs, j + 2);
    var f := fs[j + 1];
    OneItem(code, f.index, Hi(code, fs[j]));
    InStep(code, extent, total, fs, j, pos, cnt, src);
    AgainLength(code, extent, fs[..j + 2]);
    TMLength(code[Hi(code, f) + 1..Hi(code, fs[j])], fs[j].disp);
    hide Again, OK, Inside;
    assert Hi(code, f) + 1 == f.index + Span(code[f.index]);
  }

  lemma {:induction false} AgainLength(code: seq<Rec>, extent: int, fs: seq<Frame>)
    requires |fs| >= 1 && Framed(code, Top(fs)) && 0 <= Lo(Top(fs)) <= Hi(code, Top(fs)) < |code| && Top(fs).count >= 1
    ensures |Again(code, extent, fs)| == (Top(fs).count - 1) * Size(code, Top(fs))
  {
    hide Iter, TM;
    var f := Top(fs);
    var e := StepExtent(code, extent, f);
    IterLength(code[Lo(f)..Hi(code, f)], f.disp + e, e, f.count - 1);
  }

  /** A stop state has between one byte and one whole repetition left at every level. */
  lemma {:induction false} LevelBounds(code: seq<Rec>, extent: int, total: nat, fs: seq<Frame>, j: nat, pos: int,
                                       cnt: nat, src: int, p: nat)
    requires StopOK(code, extent, total, fs, pos, cnt, src, p) && j < |fs|
    ensures Framed(code, fs[j]) && 0 <= Lo(fs[j]) <= Hi(code, fs[j]) <= |code|
    ensures p < LeftAt(code, extent, total, fs, j, pos, cnt, src)
    ensures p < |In(code, extent, total, fs, j, pos, cnt, src)| <= Size(code, fs[j])
    decreases |fs| - j
  {
    hide WF, TM, Iter, Elems, Inside, In, FramesOK;
    if j < |fs| - 1 {
      LevelBounds(code, extent, total, fs, j + 1, pos, cnt, src, p);
      Prefix(code, extent, total, fs, j + 2);
      MulMono(0, fs[j + 1].count - 1, Size(code, fs[j + 1]));
    } else {
      MulMono(1, cnt, code[pos].typ.size);
    }
    assert p < LeftAt(code, extent, total, fs, j, pos, cnt, src);
    hide LeftAt, OK;
    Level(code, extent, total, fs, j, pos, cnt, src);
    InSuffix(code, extent, total, fs, j, pos, cnt, src);
    TMLength(code[Lo(fs[j])..Hi(code, fs[j])], fs[j].disp);
  }

  // ----- uniqueness -----

  lemma {:induction false} DivModUnique(a: int, r: int, b: int, t: int, s: int)
    requires 0 <= r < s && 0 <= t < s && a * s + r == b * s + t
    ensures a == b && r == t
  {
    var d := a - b;
    assert d * s == a * s - b * s == t - r;
    if d >= 1 {
      MulMono(1, d, s);
    } else if d <= -1 {
      MulMono(d, -1, s);
    }
  }

  lemma {:induction false} MulMono(a: int, b: int, s: int)
    requires a <= b && 0 <= s
    ensures a * s <= b * s
  {
    assert (b - a) * s >= 0;
    assert (b - a) * s == b * s - a * s;
  }

  /** At one level, the number of bytes left determines the record. */
  lemma {:induction false} SameRecord(code: seq<Rec>, hi: int, a: int, b: int, m: int)
    requires 0 <= a < hi < |code| && 0 <= b < hi && WF(code[a..hi]) && WF(code[b..hi])
    requires a + Span(code[a]) <= hi && b + Span(code[b]) <= hi
    requires |TM(code[a + Span(code[a])..hi], 0)| < m <= |TM(code[a..hi], 0)|
    requires |TM(code[b + Span(code[b])..hi], 0)| < m <= |TM(code[b..hi], 0)|
    ensures a == b
  {
    hide WF, TM;
    if a < b {
      NextItem(code, a, b, hi);
      TMSuffix(code, a + Span(code[a]), b, hi, 0);
    } else if b < a {
      NextItem(code, b, a, hi);
      TMSuffix(code, b + Span(code[b]), a, hi, 0);
    }
  }

  lemma {:induction false} LevelUpper(code: seq<Rec>, extent: int, total: nat, fs: seq<Frame>, j: nat, pos: int,
                                      cnt: nat, src: int)
    requires StopOK(code, extent, total, fs, pos, cnt, src, 0) && j < |fs|
    ensures var a := PosAt(fs, j, pos);
            && Framed(code, fs[j]) && 0 <= a < Hi(code, fs[j]) < |code|
            && |In(code, extent, total, fs, j, pos, cnt, src)| <= |TM(code[a..Hi(code, fs[j])], 0)|
  {
    hide WF, TM, Iter, Elems, In, FramesOK, Item, LeftAt;
    Level(code, extent, total, fs, j, pos, cnt, src);
    var a := PosAt(fs, j, pos);
    TMItem(code, a, Hi(code, fs[j]), 0);
    RecordUpper(code, extent, total, fs, j, pos, cnt, src);
  }

  /** No more is left of a record than it holds. */
  lemma {:induction false} RecordUpper(code: seq<Rec>, extent: int, total: nat, fs: seq<Frame>, j: nat, pos: int,
                                       cnt: nat, src: int)
    requires StopOK(code, extent, total, fs, pos, cnt, src, 0) && j < |fs|
    ensures var a := PosAt(fs, j, pos);
            0 <= a < |code| && LeftAt(code, extent, total, fs, j, pos, cnt, src) <= |Item(code[a], code, a, 0)|
  {
    hide WF, TM, Iter, Elems, In;
    if j == |fs| - 1 {
      ElemsLength(code[pos].typ.size, code[pos].count, code[pos].disp, code[pos].extent);
      MulMono(cnt, code[pos].count, code[pos].typ.size);
    } else {
      Prefix(code, extent, total, fs, j + 2);
      LevelBounds(code, extent, total, fs, j + 1, pos, cnt, src, 0);
      var f := fs[j + 1];
      var r := code[f.index];
      OneItem(code, f.index, Hi(code, fs[j]));
      IterLength(code[f.index + 1..f.index + r.items], 0, r.extent, r.loops);
      hide StopOK, FramesOK;
      MulMono(f.count, r.loops, Size(code, f));
      assert (f.count - 1) * Size(code, f) + Size(code, f) == f.count * Size(code, f);
    }
  }

  lemma {:induction false} UniqueFrom(code: seq<Rec>, extent: int, total: nat, j: nat,
                   fs: seq<Frame>, pos: int, cnt: nat, src: int, p: nat,
                   gs: seq<Frame>, pos': int, cnt': nat, src': int, q: nat)
    requires StopOK(code, extent, total, fs, pos, cnt, src, p) && StopOK(code, extent, total, gs, pos', cnt', src', q)
    requires j < |fs| && j < |gs| && fs[..j + 1] == gs[..j + 1]
    requires |In(code, extent, total, fs, j, pos, cnt, src)| - p
               == |In(code, extent, total, gs, j, pos', cnt', src')| - q
    ensures fs == gs && pos == pos' && cnt == cnt' && src == src' && p == q
    decreases |fs| - j
  {
    hide WF, TM, Iter, Elems, In, FramesOK, LeftAt;
    assert fs[j] == fs[..j + 1][j] == gs[j];
    LevelFacts(code, extent, total, fs, j, pos, cnt, src, p);
    LevelFacts(code, extent, total, gs, j, pos', cnt', src', q);
    var hi := Hi(code, fs[j]);
    var a, b := PosAt(fs, j, pos), PosAt(gs, j, pos');
    SameRecord(code, hi, a, b, |In(code, extent, total, fs, j, pos, cnt, src)| - p);
    KindAt(code, extent, total, fs, j, pos, cnt, src);
    KindAt(code, extent, total, gs, j, pos', cnt', src');
    if j == |fs| - 1 {
      var s := code[pos].typ.size;
      assert (cnt - 1) * s + (s - 1 - p) == (cnt' - 1) * s + (s - 1 - q);
      hide *;
      DivModUnique(cnt - 1, s - 1 - p, cnt' - 1, s - 1 - q, s);
      assert fs == fs[..j + 1] && gs == gs[..j + 1];
    } else {
      var f, g := fs[j + 1], gs[j + 1];
      LevelBounds(code, extent, total, fs, j + 1, pos, cnt, src, p);
      LevelBounds(code, extent, total, gs, j + 1, pos', cnt', src', q);
      var s := Size(code, f);
      assert s == Size(code, g);
      var m, n := |In(code, extent, total, fs, j + 1, pos, cnt, src)| - p,
          |In(code, extent, total, gs, j + 1, pos', cnt', src')| - q;
      DivModUnique(f.count - 1, m - 1, g.count - 1, n - 1, s);
      Prefix(code, extent, total, fs, j + 2);
      Prefix(code, extent, total, gs, j + 2);
      assert f == g;
      assert fs[..j + 2] == fs[..j + 1] + [f] && gs[..j + 2] == gs[..j + 1] + [g];
      UniqueFrom(code, extent, total, j + 1, fs, pos, cnt, src, p, gs, pos', cnt', src', q);
    }
  }

  lemma {:induction false} LevelFacts(code: seq<Rec>, extent: int, total: nat, fs: seq<Frame>, j: nat, pos: int,
                                      cnt: nat, src: int, p: nat)
    requires StopOK(code, extent, total, fs, pos, cnt, src, p) && j < |fs|
    ensures var a := PosAt(fs, j, pos); var m := |In(code, extent, total, fs, j, pos, cnt, src)|;
            && Framed(code, fs[j]) && 0 <= a < Hi(code, fs[j]) < |code| && WF(code[a..Hi(code, fs[j])])
            && a + Span(code[a]) <= Hi(code, fs[j])
            && |TM(code[a + Span(code[a])..Hi(code, fs[j])], 0)| < m - p <= |TM(code[a..Hi(code, fs[j])], 0)|
            && m == LeftAt(code, extent, total, fs, j, pos, cnt, src)
               + |TM(code[a + Span(code[a])..Hi(code, fs[j])], 0)|
  {
    hide WF, TM, Iter, Elems, In, FramesOK, LeftAt;
    Level(code, extent, total, fs, j, pos, cnt, src);
    LevelBounds(code, extent, total, fs, j, pos, cnt, src, p);
    LevelUpper(code, extent, total, fs, j, pos, cnt, src);
  }

  /** The current record of a body is a data record exactly at the top of the stack. */
  lemma {:induction false} KindAt(code: seq<Rec>, extent: int, total: nat, fs: seq<Frame>, j: nat, pos: int, cnt: nat,
                                  src: int)
    requires StopOK(code, extent, total, fs, pos, cnt, src, 0) && j < |fs|
    ensures var a := PosAt(fs, j, pos);
            && 0 <= a < |code| && (code[a].Data? <==> j == |fs| - 1)
            && (j == |fs| - 1 ==> LeftAt(code, extent, total, fs, j, pos, cnt, src) == cnt * code[pos].typ.size)
            && (j < |fs| - 1 ==>
                  && code[a].Loop? && Framed(code, fs[j + 1]) && 0 <= Lo(fs[j + 1]) <= Hi(code, fs[j + 1]) <= |code|
                  && LeftAt(code, extent, total, fs, j, pos, cnt, src)
                     == |In(code, extent, total, fs, j + 1, pos, cnt, src)|
                        + (fs[j + 1].count - 1) * Size(code, fs[j + 1]))
  {
    hide WF, TM, Iter, Elems, In;
    if j < |fs| - 1 {
      Prefix(code, extent, total, fs, j + 2);
    }
  }

  /** The stack, the position, the counters and the bytes into a split element are all functions
      of the number of bytes left. */
  lemma {:induction false} CanonicalState(code: seq<Rec>, extent: int, total: nat,
                   fs: seq<Frame>, pos: int, cnt: nat, src: int, p: nat,
                   gs: seq<Frame>, pos': int, cnt': nat, src': int, q: nat)
    requires StopOK(code, extent, total, fs, pos, cnt, src, p) && StopOK(code, extent, total, gs, pos', cnt', src', q)
    ensures |RemAt(code, extent, total, fs, pos, cnt, src)| - p
              == |RemAt(code, extent, total, gs, pos', cnt', src')| - q
       <==> fs == gs && pos == pos' && cnt == cnt' && src == src' && p == q
  {
    hide *;
    WeakStop(code, extent, total, fs, pos, cnt, src, p);
    WeakStop(code, extent, total, gs, pos', cnt', src', q);
    if |RemAt(code, extent, total, fs, pos, cnt, src)| - p == |RemAt(code, extent, total, gs, pos', cnt', src')| - q {
      StopStack(code, extent, total, fs, pos, cnt, src, p);
      StopStack(code, extent, total, gs, pos', cnt', src', q);
      RemLength(code, extent, total, fs, pos, cnt, src);
      RemLength(code, extent, total, gs, pos', cnt', src');
      LevelBounds(code, extent, total, fs, 0, pos, cnt, src, p);
      LevelBounds(code, extent, total, gs, 0, pos', cnt', src', q);
      SameSize(code, fs[0], gs[0]);
      var m, n := |In(code, extent, total, fs, 0, pos, cnt, src)| - p,
          |In(code, extent, total, gs, 0, pos', cnt', src')| - q;
      DivModUnique(fs[0].count - 1, m - 1, gs[0].count - 1, n - 1, Size(code, fs[0]));
      assert fs[..1] == [fs[0]] && gs[..1] == [gs[0]];
      UniqueFrom(code, extent, total, 0, fs, pos, cnt, src, p, gs, pos', cnt', src', q);
    }
  }

  lemma {:induction false} StopStack(code: seq<Rec>, extent: int, total: nat, fs: seq<Frame>, pos: int, cnt: nat,
                                     src: int, p: nat)
    requires StopOK(code, extent, total, fs, pos, cnt, src, p)
    ensures OK(code, extent, total, fs, pos, cnt, src) && StopOK(code, extent, total, fs, pos, cnt, src, 0)
    ensures |fs| >= 1 && fs[0].index == -1 && fs[0].disp == (total - fs[0].count) * extent
  {
    hide Inside, WF;
  }

  lemma {:induction false} SameSize(code: seq<Rec>, f: Frame, g: Frame)
    requires Framed(code, f) && 0 <= Lo(f) <= Hi(code, f) <= |code| && f.index == g.index
    ensures Framed(code, g) && 0 <= Lo(g) <= Hi(code, g) <= |code| && Size(code, f) == Size(code, g)
  {}

  lemma {:induction false} RemLength(code: seq<Rec>, extent: int, total: nat, fs: seq<Frame>, pos: int, cnt: nat,
                                     src: int)
    requires OK(code, extent, total, fs, pos, cnt, src)
    ensures Framed(code, fs[0]) && 0 <= Lo(fs[0]) <= Hi(code, fs[0]) <= |code|
    ensures |RemAt(code, extent, total, fs, pos, cnt, src)|
         == |In(code, extent, total, fs, 0, pos, cnt, src)| + (fs[0].count - 1) * Size(code, fs[0])
  {
    hide WF, TM, Iter, Elems, In, Again, RemAt;
    InAfter(code, extent, total, fs, 0, pos, cnt, src);
    Prefix(code, extent, total, fs, 1);
    AfterUnfold(code, extent, total, fs[..1]);
    assert Outer(code, extent, total, fs[..1]) == [];
    AgainLength(code, extent, fs[..1]);
  }

  // ----- the missing bytes of a split element -----

  /** How many bytes the basic element that holds byte `n` of a stretch still lacks once the
      first `n` bytes have arrived; 0 if `n` lies between two elements. */
  ghost function Missing(c: seq<Rec>, n: nat): nat
    decreases |c|
  {
    if c == [] then 0
    else match c[0]
      case Data(t, count, _, _, _) =>
        if t.size == 0 then 0
        else if n < count * t.size then (if n % t.size == 0 then 0 else t.size - n % t.size)
        else Missing(c[1..], n - count * t.size)
      case Loop(loops, items, _, _) =>
        if 2 <= items < |c| && |TM(c[1..items], 0)| > 0 then
          var b := |TM(c[1..items], 0)|;
          if n < loops * b then Missing(c[1..items], n % b)
          else Missing(c[items + 1..], n - loops * b)
        else 0
      case EndLoop(_, _, _) => 0
  }

  /** The same for byte `n` of a whole message. */
  ghost function MissingAt(code: seq<Rec>, n: nat): nat
    requires Committed(code)
  {
    if |TM(Body(code), 0)| == 0 then 0 else Missing(Body(code), n % |TM(Body(code), 0)|)
  }

  lemma {:induction false} MissingItem(code: seq<Rec>, pos: int, hi: int, n: nat)
    requires 0 <= pos < hi <= |code| && WF(code[pos..hi])
    ensures pos + Span(code[pos]) <= hi
    ensures code[pos].Data? && n < code[pos].count * code[pos].typ.size ==>
              Missing(code[pos..hi], n) == if n % code[pos].typ.size == 0 then 0
                else code[pos].typ.size - n % code[pos].typ.size
    ensures code[pos].Loop? ==>
              var body := code[pos + 1..pos + code[pos].items];
              && |TM(body, 0)| > 0
              && (n < code[pos].loops * |TM(body, 0)| ==> Missing(code[pos..hi], n) == Missing(body, n % |TM(body, 0)|))
    ensures n >= |Item(code[pos], code, pos, 0)| ==>
              Missing(code[pos..hi], n)
              == Missing(code[pos + Span(code[pos])..hi], n - |Item(code[pos], code, pos, 0)|)
  {
    OneItem(code, pos, hi);
    if code[pos].Data? {
      Unfold(code, pos, hi);
      hide *;
      DataItem(code, pos, hi, n);
    } else {
      hide *;
      LoopItem(code, pos, hi, n);
    }
  }

  lemma {:induction false} DataItem(code: seq<Rec>, pos: int, hi: int, n: nat)
    requires 0 <= pos < hi <= |code| && code[pos].Data? && code[pos].typ.size >= 1
    ensures Span(code[pos]) == 1
    ensures var r := code[pos];
            && |Item(r, code, pos, 0)| == r.count * r.typ.size
            && Missing(code[pos..hi], n)
               == if n < |Item(r, code, pos, 0)| then (if n % r.typ.size == 0 then 0 else r.typ.size - n % r.typ.size)
                  else Missing(code[pos + 1..hi], n - |Item(r, code, pos, 0)|)
  {
    hide Missing, Item;
    ItemLength(code, pos, hi);
    MissingData(code, pos, hi, n);
  }

  lemma {:induction false} LoopItem(code: seq<Rec>, pos: int, hi: int, n: nat)
    requires 0 <= pos < hi <= |code| && WF(code[pos..hi]) && code[pos].Loop?
    ensures Span(code[pos]) == code[pos].items + 1 && 2 <= code[pos].items < hi - pos
    ensures var r := code[pos];
            var body := code[pos + 1..pos + r.items];
            && |TM(body, 0)| > 0 && |Item(r, code, pos, 0)| == r.loops * |TM(body, 0)|
            && Missing(code[pos..hi], n)
               == if n < |Item(r, code, pos, 0)| then Missing(body, n % |TM(body, 0)|)
                  else Missing(code[pos + r.items + 1..hi], n - |Item(r, code, pos, 0)|)
  {
    Unfold(code, pos, hi);
    var body := code[pos + 1..pos + code[pos].items];
    assert body != [];
    TMNonEmpty(body, 0);
    hide WF, First, Run, Missing, TM, Item;
    ItemLength(code, pos, hi);
    MissingLoop(code, pos, hi, n);
  }

  lemma {:induction false} ItemLength(code: seq<Rec>, pos: int, hi: int)
    requires 0 <= pos < hi <= |code| && (code[pos].Loop? ==> 2 <= code[pos].items < hi - pos)
    ensures code[pos].Data? ==> |Item(code[pos], code, pos, 0)| == code[pos].count * code[pos].typ.size
    ensures code[pos].Loop? ==>
              |Item(code[pos], code, pos, 0)| == code[pos].loops * |TM(code[pos + 1..pos + code[pos].items], 0)|
  {
    hide TM, Iter, Elems;
    var r := code[pos];
    if r.Data? {
      ElemsLength(r.typ.size, r.count, r.disp, r.extent);
    } else if r.Loop? {
      IterLength(code[pos + 1..pos + r.items], 0, r.extent, r.loops);
    }
  }

  lemma {:induction false} MissingData(code: seq<Rec>, pos: int, hi: int, n: nat)
    requires 0 <= pos < hi <= |code| && code[pos].Data? && code[pos].typ.size >= 1
    ensures var r := code[pos];
            Missing(code[pos..hi], n)
            == if n < r.count * r.typ.size then (if n % r.typ.size == 0 then 0 else r.typ.size - n % r.typ.size)
               else Missing(code[pos + 1..hi], n - r.count * r.typ.size)
  {
    hide TM;
    SubSlice(code, pos, hi);
  }

  lemma {:induction false} MissingLoop(code: seq<Rec>, pos: int, hi: int, n: nat)
    requires 0 <= pos < hi <= |code| && code[pos].Loop? && 2 <= code[pos].items < hi - pos
    requires |TM(code[pos + 1..pos + code[pos].items], 0)| > 0
    ensures var r := code[pos]; var body := code[pos + 1..pos + r.items];
            Missing(code[pos..hi], n)
            == if n < r.loops * |TM(body, 0)| then Missing(body, n % |TM(body, 0)|)
               else Missing(code[pos + r.items + 1..hi], n - r.loops * |TM(body, 0)|)
  {
    hide TM;
    var r := code[pos];
    SliceSlice(code, pos, hi, 1, r.items);
    SliceSlice(code, pos, hi, r.items + 1, hi - pos);
  }

  lemma {:induction false} MissingSuffix(code: seq<Rec>, lo: int, i: int, hi: int, n: nat)
    requires 0 <= lo <= i < hi <= |code| && WF(code[lo..hi]) && WF(code[i..hi])
    ensures |TM(code[i..hi], 0)| <= |TM(code[lo..hi], 0)|
    ensures Missing(code[lo..hi], |TM(code[lo..hi], 0)| - |TM(code[i..hi], 0)| + n) == Missing(code[i..hi], n)
    decreases i - lo
  {
    hide WF, TM, Missing;
    TMSuffix(code, lo, i, hi, 0);
    if lo < i {
      NextItem(code, lo, i, hi);
      TMItem(code, lo, hi, 0);
      MissingItem(code, lo, hi, |TM(code[lo..hi], 0)| - |TM(code[i..hi], 0)| + n);
      var k := lo + Span(code[lo]);
      TMSuffix(code, k, i, hi, 0);
      MissingSuffix(code, k, i, hi, n);
    }
  }

  /** Every level of a stop state agrees with `Missing`. */
  lemma {:induction false} MissingFrom(code: seq<Rec>, extent: int, total: nat, fs: seq<Frame>, j: nat, pos: int,
                                       cnt: nat, src: int, p: nat)
    requires StopOK(code, extent, total, fs, pos, cnt, src, p) && j < |fs|
    ensures Framed(code, fs[j]) && 0 <= Lo(fs[j]) <= Hi(code, fs[j]) <= |code|
    ensures var n := Size(code, fs[j]) - |In(code, extent, total, fs, j, pos, cnt, src)| + p;
            && 0 <= n < Size(code, fs[j])
            && Missing(code[Lo(fs[j])..Hi(code, fs[j])], n) == if p == 0 then 0 else code[pos].typ.size - p
    decreases |fs| - j
  {
    hide *;
    WeakStop(code, extent, total, fs, pos, cnt, src, p);
    Level(code, extent, total, fs, j, pos, cnt, src);
    LevelFacts(code, extent, total, fs, j, pos, cnt, src, p);
    LevelBounds(code, extent, total, fs, j, pos, cnt, src, p);
    KindAt(code, extent, total, fs, j, pos, cnt, src);
    var lo, hi, a := Lo(fs[j]), Hi(code, fs[j]), PosAt(fs, j, pos);
    var here := |TM(code[a..hi], 0)|;
    var m := |In(code, extent, total, fs, j, pos, cnt, src)|;
    MissingSuffix(code, lo, a, hi, here - m + p);
    SizeIs(code, fs[j]);
    TMItem(code, a, hi, 0);
    MissingItem(code, a, hi, here - m + p);
    OneItem(code, a, hi);
    ItemLength(code, a, hi);
    if j == |fs| - 1 {
      StopCount(code, extent, total, fs, pos, cnt, src, p);
      ConsumedMod(code[a].count, cnt, code[a].typ.size, code[a].typ.size - p, code[a].typ.size);
    } else {
      var f := fs[j + 1];
      MissingFrom(code, extent, total, fs, j + 1, pos, cnt, src, p);
      LevelBounds(code, extent, total, fs, j + 1, pos, cnt, src, p);
      FrameInside(code, extent, total, fs, j, pos, cnt, src, p);
      SizeIs(code, f);
      var left := |In(code, extent, total, fs, j + 1, pos, cnt, src)|;
      ConsumedMod(code[a].loops, f.count, Size(code, f), left - p, left);
    }
  }

  lemma {:induction false} WeakStop(code: seq<Rec>, extent: int, total: nat, fs: seq<Frame>, pos: int, cnt: nat,
                                    src: int, p: nat)
    requires StopOK(code, extent, total, fs, pos, cnt, src, p)
    ensures StopOK(code, extent, total, fs, pos, cnt, src, 0) && OK(code, extent, total, fs, pos, cnt, src) && |fs| >= 1
  {
    hide Inside, WF;
  }

  lemma {:induction false} SizeIs(code: seq<Rec>, f: Frame)
    requires Framed(code, f) && 0 <= Lo(f) <= Hi(code, f) <= |code|
    ensures Size(code, f) == |TM(code[Lo(f)..Hi(code, f)], 0)|
  {}

  /** The record at the top of a stop state. */
  lemma {:induction false} StopCount(code: seq<Rec>, extent: int, total: nat, fs: seq<Frame>, pos: int, cnt: nat,
                                     src: int, p: nat)
    requires StopOK(code, extent, total, fs, pos, cnt, src, p)
    ensures PosAt(fs, |fs| - 1, pos) == pos && 0 <= pos < |code| && code[pos].Data? && p < code[pos].typ.size
    ensures 1 <= cnt <= code[pos].count
  {
    hide FramesOK, WF;
  }

  /** The loop that a frame runs, in the body of the frame below. */
  lemma {:induction false} FrameInside(code: seq<Rec>, extent: int, total: nat, fs: seq<Frame>, j: nat, pos: int,
                                       cnt: nat, src: int, p: nat)
    requires StopOK(code, extent, total, fs, pos, cnt, src, p) && j + 1 < |fs|
    ensures var a := PosAt(fs, j, pos); var f := fs[j + 1];
            && 0 <= a < |code| && code[a].Loop? && Framed(code, f) && 1 <= f.count <= code[a].loops
            && Lo(f) == a + 1 && Hi(code, f) == a + code[a].items <= |code|
  {
    Prefix(code, extent, total, fs, j + 2);
    hide FramesOK, WF, TopOK;
  }

  /** With `cnt` of `n` blocks of `s` bytes still to finish, and `m` bytes left of the running
      one, the bytes behind the running block's start are what a division leaves over. */
  lemma {:induction false} ConsumedMod(n: int, cnt: int, s: int, m: int, left: int)
    requires 1 <= cnt <= n && 1 <= m <= s && m <= left
    ensures var x := n * s - (left + (cnt - 1) * s) + (left - m); 0 <= x < n * s && x % s == s - m
    ensures n * s - cnt * s + (s - m) == n * s - (s + (cnt - 1) * s) + (s - m)
  {
    var x := n * s - (left + (cnt - 1) * s) + (left - m);
    assert x == (n - cnt) * s + (s - m);
    ModOf(n - cnt, s - m, s);
    MulMono(0, n - cnt, s);
    MulMono(n - cnt + 1, n, s);
  }

  lemma {:induction false} ModOf(a: int, r: int, s: int)
    requires 0 <= r < s
    ensures (a * s + r) % s == r
  {
    DivModUnique(a, r, (a * s + r) / s, (a * s + r) % s, s);
  }

  /** The offset at which a message stops says how much of a split element is missing. */
  lemma {:induction false} StopMissing(code: seq<Rec>, extent: int, total: nat, fs: seq<Frame>, pos: int, cnt: nat,
                                       src: int, p: nat)
    requires StopOK(code, extent, total, fs, pos, cnt, src, p)
    ensures var n := |WholeTM(code, total, extent)| - |RemAt(code, extent, total, fs, pos, cnt, src)| + p;
            && 0 <= n < |WholeTM(code, total, extent)|
            && MissingAt(code, n) == if p == 0 then 0 else code[pos].typ.size - p
  {
    hide WF, TM, Iter, Elems, In, Missing, RemAt;
    RemLength(code, extent, total, fs, pos, cnt, src);
    MissingFrom(code, extent, total, fs, 0, pos, cnt, src, p);
    IterLength(Body(code), 0, extent, total);
    var f := fs[0];
    var b := Size(code, f);
    var left := |In(code, extent, total, fs, 0, pos, cnt, src)|;
    assert code[Lo(f)..Hi(code, f)] == Body(code);
    LevelBounds(code, extent, total, fs, 0, pos, cnt, src, p);
    hide StopOK, OK;
    ConsumedMod(total, f.count, b, left - p, left);
  }

  // ----- skipping whole datatypes -----

  /** The stack after skipping `n` datatypes. */
  ghost function Skipped(fs: seq<Frame>, n: nat, extent: int): (r: seq<Frame>)
    requires |fs| >= 1 && n <= fs[0].count
  {
    seq(|fs|, k requires 0 <= k < |fs| =>
      Frame(fs[k].index, if k == 0 then fs[0].count - n else fs[k].count, fs[k].disp + n * extent))
  }

  lemma {:induction false} SkippedFrames(code: seq<Rec>, extent: int, total: nat, fs: seq<Frame>, n: nat)
    requires FramesOK(code, extent, total, fs) && n < fs[0].count
    ensures FramesOK(code, extent, total, Skipped(fs, n, extent))
  {
    hide WF, TM;
    var gs := Skipped(fs, n, extent);
    assert (total - (fs[0].count - n)) * extent == (total - fs[0].count) * extent + n * extent;
    forall k | 1 <= k < |gs| ensures Inside(code, gs[k - 1], gs[k]) {
      assert Inside(code, fs[k - 1], fs[k]);
    }
  }

  lemma {:induction false} SkippedOK(code: seq<Rec>, extent: int, total: nat, fs: seq<Frame>, pos: int, cnt: nat,
                                     src: int, n: nat)
    requires OK(code, extent, total, fs, pos, cnt, src) && n < fs[0].count
    ensures OK(code, extent, total, Skipped(fs, n, extent), pos, cnt, src + n * extent)
  {
    hide WF, TM;
    SkippedFrames(code, extent, total, fs, n);
    var gs := Skipped(fs, n, extent);
    assert Top(gs).index == Top(fs).index && Top(gs).disp == Top(fs).disp + n * extent;
    hide FramesOK;
  }

  lemma {:induction false} InLength(code: seq<Rec>, extent: int, total: nat, fs: seq<Frame>, j: nat, pos: int, cnt: nat,
                                    src: int)
    requires OK(code, extent, total, fs, pos, cnt, src) && j < |fs| - 1
    ensures Framed(code, fs[j]) && Framed(code, fs[j + 1]) && fs[j + 1].count >= 1
    ensures 0 <= Lo(fs[j + 1]) <= Hi(code, fs[j + 1]) < Hi(code, fs[j]) < |code|
    ensures |In(code, extent, total, fs, j, pos, cnt, src)|
         == |In(code, extent, total, fs, j + 1, pos, cnt, src)| + (fs[j + 1].count - 1) * Size(code, fs[j + 1])
            + |TM(code[Hi(code, fs[j + 1]) + 1..Hi(code, fs[j])], 0)|
  {
    hide WF, TM, Iter, Elems, FramesOK, Inside, In, Cur;
    Prefix(code, extent, total, fs, j + 2);
    InStep(code, extent, total, fs, j, pos, cnt, src);
    AgainLength(code, extent, fs[..j + 2]);
    TMLength(code[Hi(code, fs[j + 1]) + 1..Hi(code, fs[j])], fs[j].disp);
    hide Again, OK, Size;
  }

  /** Where the frames lie does not matter for how much is left. */
  lemma {:induction false} SkippedIn(code: seq<Rec>, extent: int, total: nat, fs: seq<Frame>, j: nat, pos: int,
                                     cnt: nat, src: int, n: nat)
    requires OK(code, extent, total, fs, pos, cnt, src) && n < fs[0].count && j < |fs|
    requires OK(code, extent, total, Skipped(fs, n, extent), pos, cnt, src + n * extent)
    ensures |In(code, extent, total, Skipped(fs, n, extent), j, pos, cnt, src + n * extent)|
         == |In(code, extent, total, fs, j, pos, cnt, src)|
    decreases |fs| - j
  {
    hide WF, TM, Iter, Elems, FramesOK, Inside, In, Cur, TopOK;
    var gs := Skipped(fs, n, extent);
    if j == |fs| - 1 {
      InTop(code, extent, total, fs, pos, cnt, src);
      InTop(code, extent, total, gs, pos, cnt, src + n * extent);
      SkippedCur(code, Hi(code, Top(fs)), pos, cnt, src, Top(fs).disp, n * extent);
    } else {
      SkippedIn(code, extent, total, fs, j + 1, pos, cnt, src, n);
      InLength(code, extent, total, fs, j, pos, cnt, src);
      InLength(code, extent, total, gs, j, pos, cnt, src + n * extent);
      assert gs[j].index == fs[j].index && gs[j + 1].index == fs[j + 1].index && gs[j + 1].count == fs[j + 1].count;
    }
  }

  lemma {:induction false} SkippedCur(code: seq<Rec>, hi: int, pos: int, cnt: nat, src: int, disp: int, d: int)
    requires 0 <= pos <= hi < |code|
    ensures |Cur(code, hi, pos, cnt, src + d, disp + d)| == |Cur(code, hi, pos, cnt, src, disp)|
  {
    hide TM, Iter, Elems;
    if pos < hi {
      match code[pos]
      case Data(t, _, x, e, _) =>
        ElemsLength(t.size, cnt, src + d + x, e);
        ElemsLength(t.size, cnt, src + x, e);
        TMLength(code[pos + 1..hi], disp + d);
        TMLength(code[pos + 1..hi], disp);
      case Loop(_, items, e, _) =>
        if 2 <= items < hi - pos {
          IterLength(code[pos + 1..pos + items], src + d, e, cnt);
          IterLength(code[pos + 1..pos + items], src, e, cnt);
          TMLength(code[pos + items + 1..hi], disp + d);
          TMLength(code[pos + items + 1..hi], disp);
        }
      case EndLoop(_, _, _) =>
    }
  }

  /** Skipping `n` datatypes leaves exactly their bytes out of what is left. */
  lemma {:induction false} SkipRem(code: seq<Rec>, extent: int, total: nat, fs: seq<Frame>, pos: int, cnt: nat,
                                   src: int, n: nat)
    requires OK(code, extent, total, fs, pos, cnt, src)
    requires n * |TM(Body(code), 0)| < |RemAt(code, extent, total, fs, pos, cnt, src)|
    ensures n < fs[0].count
    ensures OK(code, extent, total, Skipped(fs, n, extent), pos, cnt, src + n * extent)
    ensures |RemAt(code, extent, total, Skipped(fs, n, extent), pos, cnt, src + n * extent)|
         == |RemAt(code, extent, total, fs, pos, cnt, src)| - n * |TM(Body(code), 0)|
  {
    SkipCount(code, extent, total, fs, pos, cnt, src, n);
    SkippedOK(code, extent, total, fs, pos, cnt, src, n);
    SkippedLength(code, extent, total, fs, pos, cnt, src, n);
    hide *;
  }

  lemma {:induction false} SkippedLength(code: seq<Rec>, extent: int, total: nat, fs: seq<Frame>, pos: int, cnt: nat,
                                         src: int, n: nat)
    requires OK(code, extent, total, fs, pos, cnt, src) && n < fs[0].count
    requires OK(code, extent, total, Skipped(fs, n, extent), pos, cnt, src + n * extent)
    ensures |RemAt(code, extent, total, Skipped(fs, n, extent), pos, cnt, src + n * extent)|
         == |RemAt(code, extent, total, fs, pos, cnt, src)| - n * |TM(Body(code), 0)|
  {
    hide WF, TM, Iter, Elems, Inside, In, Cur, RemAt;
    var gs := Skipped(fs, n, extent);
    assert |fs| >= 1 && gs[0].index == fs[0].index && gs[0].count == fs[0].count - n;
    FirstFrame(code, extent, total, fs);
    SkippedIn(code, extent, total, fs, 0, pos, cnt, src, n);
    RemLength(code, extent, total, fs, pos, cnt, src);
    RemLength(code, extent, total, gs, pos, cnt, src + n * extent);
    assert Size(code, gs[0]) == Size(code, fs[0]) == |TM(Body(code), 0)|;
    hide *;
    Minus(fs[0].count, n, |TM(Body(code), 0)|);
  }

  lemma {:induction false} Minus(c: int, n: int, b: int)
    ensures (c - n - 1) * b == (c - 1) * b - n * b
  {}

  lemma {:induction false} SkipCount(code: seq<Rec>, extent: int, total: nat, fs: seq<Frame>, pos: int, cnt: nat,
                                     src: int, n: nat)
    requires OK(code, extent, total, fs, pos, cnt, src)
    requires n * |TM(Body(code), 0)| < |RemAt(code, extent, total, fs, pos, cnt, src)|
    ensures n < fs[0].count
  {
    hide WF, TM, Iter, Elems, Inside, In, Cur, RemAt;
    RemLength(code, extent, total, fs, pos, cnt, src);
    InSuffix(code, extent, total, fs, 0, pos, cnt, src);
    FirstFrame(code, extent, total, fs);
    hide OK, FramesOK;
    var b := Size(code, fs[0]);
    TMLength(code[Lo(fs[0])..Hi(code, fs[0])], fs[0].disp);
    CountBound(n, fs[0].count, b, |In(code, extent, total, fs, 0, pos, cnt, src)|);
  }

  lemma {:induction false} CountBound(n: nat, c: nat, b: nat, left: nat)
    requires left <= b && n * b < left + (c - 1) * b
    ensures n < c
  {
    assert left + (c - 1) * b <= c * b;
    if c <= n { MulMono(c, n, b); }
  }

  lemma {:induction false} FirstFrame(code: seq<Rec>, extent: int, total: nat, fs: seq<Frame>)
    requires FramesOK(code, extent, total, fs)
    ensures fs[0].index == -1 && code[Lo(fs[0])..Hi(code, fs[0])] == Body(code)
  {}

  // ----- element boundaries -----

  /** No basic element of the stretch is longer than 16 bytes. */
  ghost predicate Short(c: seq<Rec>) {
    forall i :: 0 <= i < |c| && c[i].Data? ==> c[i].typ.size <= 16
  }

  /** The bytes an element lacks are in the stretch, and every one of them brings it closer to completion. */
  lemma {:induction false} MissingSteps(c: seq<Rec>, n: nat, j: nat)
    requires WF(c) && n < |TM(c, 0)| && j < Missing(c, n)
    ensures n + Missing(c, n) <= |TM(c, 0)|
    ensures Missing(c, n + j) == Missing(c, n) - j
    decreases |c|
  {
    assert c == c[0..];
    match c[0]
    case Data(t, count, disp, extent, _) =>
      ElemsLength(t.size, count, disp, extent);
      if n < count * t.size {
        BlockSteps(count, t.size, n, j);
      } else {
        MissingSteps(c[1..], n - count * t.size, j);
      }
    case Loop(loops, items, extent, _) =>
      var body := c[1..items];
      TMNonEmpty(body, 0);
      IterLength(body, 0, extent, loops);
      LoopSteps(c, n, j);
    case EndLoop(_, _, _) =>
  }

  lemma {:induction false} LoopSteps(c: seq<Rec>, n: nat, j: nat)
    requires WF(c) && c != [] && c[0].Loop? && n < |TM(c, 0)| && j < Missing(c, n)
    requires |TM(c[1..c[0].items], 0)| > 0
    requires |TM(c, 0)| == c[0].loops * |TM(c[1..c[0].items], 0)| + |TM(c[c[0].items + 1..], 0)|
    ensures n + Missing(c, n) <= |TM(c, 0)|
    ensures Missing(c, n + j) == Missing(c, n) - j
    decreases |c|, 0
  {
    hide *;
    LoopHalves(c, n);
    LoopHalves(c, n + j);
    var items, loops := c[0].items, c[0].loops;
    var b := |TM(c[1..items], 0)|;
    if n < loops * b {
      ModBounds(n, b);
      MissingSteps(c[1..items], n % b, j);
      BlockOf(loops, b, n, Missing(c[1..items], n % b), j);
    } else {
      MissingSteps(c[items + 1..], n - loops * b, j);
    }
  }

  lemma {:induction false} LoopHalves(c: seq<Rec>, n: nat)
    requires WF(c) && c != [] && c[0].Loop? && |TM(c[1..c[0].items], 0)| > 0
    ensures 2 <= c[0].items < |c| && WF(c[1..c[0].items]) && WF(c[c[0].items + 1..])
    ensures var b := |TM(c[1..c[0].items], 0)|;
            Missing(c, n) == if n < c[0].loops * b then Missing(c[1..c[0].items], n % b)
                             else Missing(c[c[0].items + 1..], n - c[0].loops * b)
  {
    hide TM, First, Run;
  }

  lemma {:induction false} ModBounds(n: nat, b: nat)
    requires b > 0
    ensures 0 <= n % b < b && n == (n / b) * b + n % b
  {}

  /** Bytes that stay in the running block keep its offset. */
  lemma {:induction false} BlockOf(loops: nat, b: nat, n: nat, k: nat, j: nat)
    requires b > 0 && n < loops * b && n % b + k <= b && j < k
    ensures n + k <= loops * b && n + j < loops * b && (n + j) % b == n % b + j
  {
    var q := n / b;
    ModBounds(n, b);
    if q >= loops { MulMono(loops, q, b); }
    MulMono(q + 1, loops, b);
    assert (q + 1) * b == q * b + b;
    ModOf(q, n % b + j, b);
  }

  lemma {:induction false} BlockSteps(count: nat, size: nat, n: nat, j: nat)
    requires size >= 1 && n < count * size && n % size != 0 && j < size - n % size
    ensures n + (size - n % size) <= count * size
    ensures n + j < count * size && (n + j) % size == n % size + j
  {
    ModBounds(n, size);
    BlockOf(count, size, n, size - n % size, j);
  }

  lemma {:induction false} MissingShort(c: seq<Rec>, n: nat)
    requires Short(c)
    ensures Missing(c, n) <= 15
    decreases |c|
  {
    if c != [] {
      match c[0]
      case Data(t, count, _, _, _) =>
        MissingShort(c[1..], if n < count * t.size then 0 else n - count * t.size);
      case Loop(loops, items, _, _) =>
        if 2 <= items < |c| && |TM(c[1..items], 0)| > 0 {
          var b := |TM(c[1..items], 0)|;
          MissingShort(c[1..items], n % b);
          MissingShort(c[items + 1..], if n < loops * b then 0 else n - loops * b);
        }
      case EndLoop(_, _, _) =>
    }
  }

  /** The element that holds byte `n` ends inside the message, and not after the next boundary. */
  lemma {:induction false} MissingFits(code: seq<Rec>, extent: int, total: nat, n: nat, m: nat)
    requires Committed(code) && n < |WholeTM(code, total, extent)|
    requires n < m && (m >= |WholeTM(code, total, extent)| || MissingAt(code, m) == 0)
    ensures n + MissingAt(code, n) <= m
  {
    var body := Body(code);
    var b := |TM(body, 0)|;
    TMNonEmpty(body, 0);
    IterLength(body, 0, extent, total);
    hide WF, TM, Iter;
    var k := MissingAt(code, n);
    ModBounds(n, b);
    if n + k > m {
      MissingSteps(body, n % b, 0);
      BlockOf(total, b, n, k, 0);
      MissingSteps(body, n % b, m - n);
      BlockOf(total, b, n, k, m - n);
    }
  }
}
