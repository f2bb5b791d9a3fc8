/** How deep loops are nested, for everybody who keeps a stack of them: the convertors, which may enter
    every loop, the direct copy, which moves contiguous loops as a whole, and the compiler, which
    rewrites small loops on the spot.

    Source: openmpi-1.4.2/ompi/datatype/datatype_pack.c, dt_copy.c and dt_optimize.c. */
module Nesting {
  import opened Typemap
  import opened BuilderSpec
  import O = OptimizeSpec
  import S = ConvertorState

  /** Whose stack is meant: a convertor's, the direct copy's, the compiler's, or that of a convertor
      which runs the compiled form of the description. */
  datatype User = Convertor | Copy | Compiler | Compiled

  /** What a user does with a loop: nothing for the stack, one entry whatever the body is, or an entry
      and then the body. */
  datatype Way = Past | Once | Into

  /** The loop is turned into single records. */
  predicate Small(c: seq<Rec>) {
    |c| > 2 && c[0].Loop? && c[0].items == 2 && c[1].Data? && (O.Strided(c[0], c[1]) || c[0].loops < 3)
  }

  function Treats(u: User, c: seq<Rec>): Way
    requires c != [] && c[0].Loop? && 2 <= c[0].items < |c|
  {
    match u
    case Convertor => Into
    case Copy => if c[0].contiguous then Past else Into
    case Compiler => if c[0].contiguous || Small(c) then Past else Into
    case Compiled =>
      if c[0].contiguous then (if c[c[0].items].EndLoop? && c[0].extent == c[c[0].items].size then Past else Once)
      else if Small(c) then Past
      else Into
  }

  /** How many loops of a stretch are on the stack at the same time. */
  ghost function Depth(u: User, c: seq<Rec>): nat
    decreases |c|
  {
    if c == [] then 0
    else match c[0]
      case Data(_, _, _, _, _) => Depth(u, c[1..])
      case Loop(_, items, _, _) =>
        if 2 <= items < |c|
        then Higher(match Treats(u, c) case Past => 0 case Once => 1 case Into => 1 + Depth(u, c[1..items]),
                    Depth(u, c[items + 1..]))
        else 0
      case EndLoop(_, _, _) => 0
  }

  function Higher(a: nat, b: nat): nat {
    if a < b then b else a
  }

  lemma {:induction false} HigherIs(a: nat, b: nat)
    ensures Higher(a, b) >= a && Higher(a, b) >= b && (Higher(a, b) == a || Higher(a, b) == b)
  {}

  // ----- stretches put together -----

  lemma {:induction false} DepthData(u: User, c: seq<Rec>)
    requires c != [] && c[0].Data?
    ensures Depth(u, c) == Depth(u, c[1..])
  {}

  lemma {:induction false} DepthHead(u: User, c: seq<Rec>)
    requires c != [] && c[0].Loop? && 2 <= c[0].items < |c|
    ensures Depth(u, c)
              == Higher(match Treats(u, c) case Past => 0 case Once => 1 case Into => 1 + Depth(u, c[1..c[0].items]),
                                  Depth(u, c[c[0].items + 1..]))
  {}

  lemma {:induction false} DepthConcat(u: User, a: seq<Rec>, b: seq<Rec>)
    requires O.Nested(a)
    ensures Depth(u, a + b) == Higher(Depth(u, a), Depth(u, b))
    decreases |a|
  {
    hide Depth, Treats;
    if a == [] {
      assert a + b == b;
      DepthNothing(u);
    } else if a[0].Data? {
      DepthConcat(u, a[1..], b);
      hide *;
      assert (a + b)[1..] == a[1..] + b;
      DepthData(u, a);
      DepthData(u, a + b);
    } else {
      DepthConcat(u, a[a[0].items + 1..], b);
      TreatsConcat(u, a, b);
      hide *;
      LoopConcat(a, b);
      DepthHead(u, a);
      DepthHead(u, a + b);
      HigherAgain(match Treats(u, a) case Past => 0 case Once => 1 case Into => 1 + Depth(u, a[1..a[0].items]),
                  Depth(u, a[a[0].items + 1..]), Depth(u, b));
    }
  }

  lemma {:induction false} DepthNothing(u: User)
    ensures Depth(u, []) == 0
    ensures forall n: nat :: Higher(0, n) == n == Higher(n, 0)
  {}

  lemma {:induction false} HigherAgain(a: nat, b: nat, c: nat)
    ensures Higher(Higher(a, b), c) == Higher(a, Higher(b, c))
  {}

  lemma {:induction false} LoopConcat(a: seq<Rec>, b: seq<Rec>)
    requires a != [] && a[0].Loop? && 2 <= a[0].items < |a|
    ensures (a + b)[0] == a[0] && (a + b)[1..a[0].items] == a[1..a[0].items]
    ensures (a + b)[a[0].items + 1..] == a[a[0].items + 1..] + b
  {}

  lemma {:induction false} TreatsConcat(u: User, a: seq<Rec>, b: seq<Rec>)
    requires O.Nested(a) && a != [] && a[0].Loop?
    ensures 2 <= a[0].items < |a| && Treats(u, a + b) == Treats(u, a)
  {}

  /** A loop that is all of a stretch. */
  lemma {:induction false} DepthLoop(u: User, o: seq<Rec>, body: seq<Rec>)
    requires |o| == |body| + 2 && body != [] && o[0].Loop? && o[0].items == |body| + 1 && o[1..|body| + 1] == body
    ensures Depth(u, o) == match Treats(u, o) case Past => 0 case Once => 1 case Into => 1 + Depth(u, body)
  {
    assert o[|body| + 2..] == [];
    assert Depth(u, []) == 0;
  }

  lemma {:induction false} DepthOne(u: User, r: Rec)
    requires r.Data?
    ensures Depth(u, [r]) == 0
  {
    assert [r][1..] == [];
  }

  /** Records with other data but the same loops. */
  ghost predicate SameLoops(c: seq<Rec>, d: seq<Rec>) {
    && |c| == |d|
    && forall i :: 0 <= i < |c| ==>
         if c[i].Data? then d[i].Data? && d[i].typ == c[i].typ && d[i].count == c[i].count
         else if c[i].Loop? then d[i] == c[i]
         else d[i].EndLoop? && d[i].size == c[i].size
  }

  /** Records whose elements, too, lie at the same distances. */
  ghost predicate SameExtents(c: seq<Rec>, d: seq<Rec>) {
    |c| == |d| && forall i :: 0 <= i < |c| && c[i].Data? ==> d[i].Data? && d[i].extent == c[i].extent
  }

  lemma {:induction false} DepthSame(u: User, c: seq<Rec>, d: seq<Rec>)
    requires SameLoops(c, d) && (u.Compiler? || u.Compiled? ==> SameExtents(c, d))
    ensures Depth(u, d) == Depth(u, c)
    decreases |c|
  {
    hide *;
    SameHead(c, d);
    if c == [] {
    } else if c[0].Data? {
      SameSlice(c, d, 1, |c|);
      DepthSame(u, c[1..], d[1..]);
      DepthData(u, c);
      DepthData(u, d);
    } else if c[0].Loop? && 2 <= c[0].items < |c| {
      var n := c[0].items;
      SameSlice(c, d, 1, n);
      SameSlice(c, d, n + 1, |c|);
      DepthSame(u, c[1..n], d[1..n]);
      DepthSame(u, c[n + 1..], d[n + 1..]);
      TreatsSame(u, c, d);
      DepthHead(u, c);
      DepthHead(u, d);
    } else {
      DepthStuck(u, c);
      DepthStuck(u, d);
    }
  }

  lemma {:induction false} DepthStuck(u: User, c: seq<Rec>)
    requires c != [] && (c[0].EndLoop? || (c[0].Loop? && !(2 <= c[0].items < |c|)))
    ensures Depth(u, c) == 0
  {}

  lemma {:induction false} SameHead(c: seq<Rec>, d: seq<Rec>)
    requires SameLoops(c, d)
    ensures |d| == |c| && (c == [] ==> d == [])
    ensures c != [] ==> if c[0].Data? then d[0].Data? else if c[0].Loop? then d[0] == c[0] else d[0].EndLoop?
  {}

  lemma {:induction false} SameSlice(c: seq<Rec>, d: seq<Rec>, i: nat, j: nat)
    requires SameLoops(c, d) && i <= j <= |c|
    ensures |d| == |c| && SameLoops(c[i..j], d[i..j]) && (SameExtents(c, d) ==> SameExtents(c[i..j], d[i..j]))
    ensures j == |c| ==> c[i..j] == c[i..] && d[i..j] == d[i..]
  {}

  lemma {:induction false} TreatsSame(u: User, c: seq<Rec>, d: seq<Rec>)
    requires SameLoops(c, d) && (u.Compiler? || u.Compiled? ==> SameExtents(c, d))
    requires c != [] && c[0].Loop? && 2 <= c[0].items < |c|
    ensures |d| == |c| && d[0] == c[0] && Treats(u, d) == Treats(u, c)
  {
    var n := c[0].items;
    assert c[n].EndLoop? <==> d[n].EndLoop?;
  }

  lemma {:induction false} DepthMoved(u: User, c: seq<Rec>, d: int)
    ensures Depth(u, Moved(c, d)) == Depth(u, c)
  {
    DepthSame(u, c, Moved(c, d));
  }

  // ----- a stretch that is read from the left -----

  /** The record at `pos` of a longer description. */
  lemma {:induction false} DepthAt(u: User, code: seq<Rec>, pos: nat, hi: nat)
    requires pos < hi <= |code|
    ensures code[pos].Data? ==> Depth(u, code[pos..hi]) == Depth(u, code[pos + 1..hi])
    ensures code[pos].Loop? && 2 <= code[pos].items < hi - pos ==>
              var n := code[pos].items;
              && code[pos..hi] != [] && code[pos..hi][0] == code[pos]
              && Depth(u, code[pos..hi])
                 == Higher(match Treats(u, code[pos..hi])
                           case Past => 0 case Once => 1 case Into => 1 + Depth(u, code[pos + 1..pos + n]),
                           Depth(u, code[pos + n + 1..hi]))
  {
    hide *;
    S.SubSlice(code, pos, hi);
    if code[pos].Data? {
      DepthData(u, code[pos..hi]);
    } else if code[pos].Loop? && 2 <= code[pos].items < hi - pos {
      var n := code[pos].items;
      S.SliceSlice(code, pos, hi, 1, n);
      Suffix(code, pos, n + 1, hi);
      DepthHead(u, code[pos..hi]);
    }
  }

  lemma {:induction false} Suffix(code: seq<Rec>, pos: nat, k: nat, hi: nat)
    requires pos + k <= hi <= |code|
    ensures code[pos..hi][k..] == code[pos + k..hi]
  {}

  /** Open bodies `(lo, hi)`, the innermost one last, with everything up to `pos` done: how high the
      stack can still get, the outermost body counting as one entry. */
  ghost function Reach(u: User, code: seq<Rec>, bodies: seq<(int, int)>, pos: int): nat
    decreases |bodies|
  {
    if bodies == [] then 0
    else
      var hi := bodies[|bodies| - 1].1;
      Higher(|bodies| + if 0 <= pos <= hi <= |code| then Depth(u, code[pos..hi]) else 0,
             Reach(u, code, bodies[..|bodies| - 1], hi + 1))
  }

  lemma {:induction false} ReachIs(u: User, code: seq<Rec>, bodies: seq<(int, int)>, pos: int)
    requires bodies != [] && 0 <= pos <= bodies[|bodies| - 1].1 <= |code|
    ensures Reach(u, code, bodies, pos)
         == Higher(|bodies| + Depth(u, code[pos..bodies[|bodies| - 1].1]),
                   Reach(u, code, bodies[..|bodies| - 1], bodies[|bodies| - 1].1 + 1))
  {
    hide Depth, Higher;
  }

  /** Reading past a record that needs no entry. */
  lemma {:induction false} ReachPast(u: User, code: seq<Rec>, bodies: seq<(int, int)>, pos: int, next: int)
    requires bodies != [] && 0 <= pos <= next <= bodies[|bodies| - 1].1 <= |code|
    requires Depth(u, code[next..bodies[|bodies| - 1].1]) == Depth(u, code[pos..bodies[|bodies| - 1].1])
    ensures Reach(u, code, bodies, next) == Reach(u, code, bodies, pos)
  {
    hide *;
    ReachIs(u, code, bodies, pos);
    ReachIs(u, code, bodies, next);
  }

  /** Entering a loop does not change how high the stack can get. */
  lemma {:induction false} ReachInto(u: User, code: seq<Rec>, bodies: seq<(int, int)>, pos: int)
    requires bodies != [] && 0 <= pos < bodies[|bodies| - 1].1 <= |code|
    requires code[pos].Loop? && 2 <= code[pos].items < bodies[|bodies| - 1].1 - pos
    requires Treats(u, code[pos..bodies[|bodies| - 1].1]) == Into
    ensures Reach(u, code, bodies + [(pos + 1, pos + code[pos].items)], pos + 1) == Reach(u, code, bodies, pos)
  {
    hide Depth, Reach, Treats;
    var hi, n := bodies[|bodies| - 1].1, code[pos].items;
    var more := bodies + [(pos + 1, pos + n)];
    assert more[..|more| - 1] == bodies && more[|more| - 1] == (pos + 1, pos + n);
    ReachIs(u, code, more, pos + 1);
    ReachIs(u, code, bodies, pos + n + 1);
    ReachIs(u, code, bodies, pos);
    DepthAt(u, code, pos, hi);
  }

  /** At the end of a body only what follows it is left. */
  lemma {:induction false} ReachEnd(u: User, code: seq<Rec>, bodies: seq<(int, int)>)
    requires bodies != [] && 0 <= bodies[|bodies| - 1].1 <= |code|
    ensures Reach(u, code, bodies, bodies[|bodies| - 1].1)
         == Higher(|bodies|, Reach(u, code, bodies[..|bodies| - 1], bodies[|bodies| - 1].1 + 1))
  {
    var hi := bodies[|bodies| - 1].1;
    assert code[hi..hi] == [];
    assert Depth(u, []) == 0;
    hide Depth, Reach, Higher;
    ReachIs(u, code, bodies, hi);
  }

  /** Before anything is read. */
  lemma {:induction false} ReachAll(u: User, code: seq<Rec>)
    requires |code| >= 1
    ensures Reach(u, code, [(0, |code| - 1)], 0) == 1 + Depth(u, Body(code))
  {
    assert code[0..|code| - 1] == Body(code);
    assert [(0, |code| - 1)][..0] == [];
  }

  // ----- what compiling does -----

  /** The user of a compiled description, seen from the description that is compiled. */
  function Before(u: User): User
    requires u.Convertor? || u.Copy?
  {
    if u.Convertor? then Compiled else Compiler
  }

  /** The compiled form is nested as deep as `Compiled` says of the original; and the direct copy of the
      compiled form enters as many loops as the compiler opened. */
  lemma {:induction false} OptDepth(u: User, c: seq<Rec>, p: O.Pending)
    requires WF(c) && (u.Convertor? || u.Copy?)
    ensures Depth(u, O.Opt(c, p)) == Depth(Before(u), c)
    decreases |c|
  {
    if c == [] {
      DepthFlush(u, p);
    } else if c[0].Data? {
      O.DataHead(c);
      O.OptDataUnfold(c, p);
      var q := O.AddData(p, c[0]);
      OptDepth(u, c[1..], q);
      DepthData(Before(u), c);
      hide *;
      if !O.Merges(p, c[0]) { DepthFlushed(u, p, O.Opt(c[1..], q)); }
    } else {
      hide *;
      LoopDepth(u, c, p);
    }
  }

  lemma {:induction false} DepthFlush(u: User, p: O.Pending)
    ensures Depth(u, O.Flush(p)) == 0 && O.Nested(O.Flush(p))
  {
    if p.Pend? {
      DepthOne(u, O.Flush(p)[0]);
      O.OneData(O.Flush(p)[0]);
    }
  }

  lemma {:induction false} DepthFlushed(u: User, p: O.Pending, o: seq<Rec>)
    ensures Depth(u, O.Flush(p) + o) == Depth(u, o)
  {
    DepthFlush(u, p);
    DepthConcat(u, O.Flush(p), o);
  }

  lemma {:induction false} DepthCopies(u: User, elem: Rec, n: nat, extent: int)
    requires elem.Data?
    ensures Depth(u, O.Copies(elem, n, extent)) == 0 && O.Nested(O.Copies(elem, n, extent))
    decreases n
  {
    if n > 0 {
      var next := O.Copies(elem.(disp := elem.disp + extent), n - 1, extent);
      DepthCopies(u, elem.(disp := elem.disp + extent), n - 1, extent);
      DepthOne(u, elem);
      O.OneData(elem);
      DepthConcat(u, [elem], next);
      O.NestedConcat([elem], next);
    }
  }

  lemma {:induction false} LoopDepth(u: User, c: seq<Rec>, p: O.Pending)
    requires WF(c) && c != [] && c[0].Loop? && (u.Convertor? || u.Copy?)
    ensures Depth(u, O.Opt(c, p)) == Depth(Before(u), c)
    decreases |c|, 0
  {
    hide *;
    O.LoopHead(c);
    if c[0].items == 2 { O.SmallBody(c); }
    var items, end := c[0].items, c[c[0].items];
    if c[0].contiguous && c[0].extent == end.size {
      RunDepth(u, c, p);
    } else if c[0].contiguous {
      OptDepth(u, c[items + 1..], O.NoRun);
      GappedDepth(u, c, p);
    } else if items == 2 && (O.Strided(c[0], c[1]) || c[0].loops < 3) {
      OptDepth(u, c[items + 1..], O.NoRun);
      SmallDepth(u, c, p);
    } else {
      OptDepth(u, c[1..items], O.NoRun);
      OptDepth(u, c[items + 1..], O.NoRun);
      NestedDepth(u, c, p);
    }
  }

  lemma {:induction false} RunDepth(u: User, c: seq<Rec>, p: O.Pending)
    requires WF(c) && c != [] && c[0].Loop? && 2 <= c[0].items < |c| && c[c[0].items].EndLoop?
    requires u.Convertor? || u.Copy?
    requires c[0].contiguous && c[0].extent == c[c[0].items].size
    ensures Depth(u, O.Opt(c, p)) == Depth(Before(u), c)
    decreases |c|, 0, 0
  {
    O.LoopHead(c);
    DepthHead(Before(u), c);
    assert Treats(Before(u), c) == Past;
    var end, rest := c[c[0].items], c[c[0].items + 1..];
    HigherIs(0, Depth(Before(u), rest));
    hide *;
    O.Positive(c[0].loops, end.size);
    O.RunUnfold(c, p, O.Apart);
    var q := O.AddRun(p, First(c), c[0].loops * end.size);
    OptDepth(u, rest, q);
    if !O.Continues(p, First(c)) { DepthFlushed(u, p, O.Opt(rest, q)); }
  }

  lemma {:induction false} GappedDepth(u: User, c: seq<Rec>, p: O.Pending)
    requires WF(c) && c != [] && c[0].Loop? && 2 <= c[0].items < |c| && c[c[0].items].EndLoop?
    requires WF(c[c[0].items + 1..])
    requires c[0].contiguous && c[0].extent != c[c[0].items].size && (u.Convertor? || u.Copy?)
    requires Depth(u, O.Opt(c[c[0].items + 1..], O.NoRun)) == Depth(Before(u), c[c[0].items + 1..])
    ensures Depth(u, O.Opt(c, p)) == Depth(Before(u), c)
  {
    O.LoopHead(c);
    DepthHead(Before(u), c);
    assert Treats(Before(u), c) == if u.Convertor? then Once else Past;
    hide *;
    O.GappedUnfold(c, p);
    DepthGapped(u, p, c[0], c[c[0].items], First(c));
    DepthConcat(u, O.GappedLoop(p, c[0], c[c[0].items], First(c)), O.Opt(c[c[0].items + 1..], O.NoRun));
  }

  lemma {:induction false} SmallDepth(u: User, c: seq<Rec>, p: O.Pending)
    requires WF(c) && c != [] && c[0].Loop? && c[0].items == 2 && |c| > 2 && !c[0].contiguous && WF(c[3..])
    requires c[1].Data? && c[2].EndLoop? && (O.Strided(c[0], c[1]) || c[0].loops < 3) && (u.Convertor? || u.Copy?)
    requires Depth(u, O.Opt(c[3..], O.NoRun)) == Depth(Before(u), c[3..])
    ensures Depth(u, O.Opt(c, p)) == Depth(Before(u), c)
  {
    DepthHead(Before(u), c);
    assert Treats(Before(u), c) == Past;
    hide *;
    O.StridedUnfold(c, p);
    var rest := O.Opt(c[3..], O.NoRun);
    if O.Strided(c[0], c[1]) {
      var d := Data(c[1].typ, c[0].loops, c[1].disp, c[0].extent, false);
      DepthOne(u, d);
      O.OneData(d);
      DepthThree(u, p, [d], rest);
    } else {
      DepthCopies(u, c[1], c[0].loops, c[0].extent);
      DepthThree(u, p, O.Copies(c[1], c[0].loops, c[0].extent), rest);
    }
  }

  lemma {:induction false} NestedDepth(u: User, c: seq<Rec>, p: O.Pending)
    requires WF(c) && c != [] && c[0].Loop? && 2 <= c[0].items < |c| && !c[0].contiguous && (u.Convertor? || u.Copy?)
    requires WF(c[1..c[0].items]) && WF(c[c[0].items + 1..])
    requires c[0].items == 2 ==> c[1].Data? && !O.Strided(c[0], c[1]) && c[0].loops >= 3
    requires Depth(u, O.Opt(c[1..c[0].items], O.NoRun)) == Depth(Before(u), c[1..c[0].items])
    requires Depth(u, O.Opt(c[c[0].items + 1..], O.NoRun)) == Depth(Before(u), c[c[0].items + 1..])
    ensures Depth(u, O.Opt(c, p)) == Depth(Before(u), c)
  {
    assert Treats(Before(u), c) == Into by { hide Depth, O.Opt, WF; }
    hide *;
    O.LoopHead(c);
    DepthHead(Before(u), c);
    assert O.PendOK(O.NoRun) by { NothingWF(); O.RightAlone([]); }
    var body, rest := O.Opt(c[1..c[0].items], O.NoRun), O.Opt(c[c[0].items + 1..], O.NoRun);
    O.NestedUnfold(c, p);
    OptNested(c[1..c[0].items], O.NoRun);
    DepthWrap(u, c[0], body, c[c[0].items]);
    DepthThree(u, p, O.Wrap(c[0], body, c[c[0].items]), rest);
  }

  lemma {:induction false} NothingWF()
    ensures WF([])
  {}

  lemma {:induction false} OptNested(c: seq<Rec>, p: O.Pending)
    requires WF(c) && O.PendOK(p) && c != []
    ensures O.Nested(O.Opt(c, p)) && O.Opt(c, p) != []
  {
    O.OptCorrect(c, p);
    TMNonEmpty(c, 0);
    hide WF, TM, O.Nested, O.Altered, O.Emptied, O.Opt, O.LastOf, O.Repeats;
    assert TM([], 0) == [] by { O.NothingPending([]); }
  }

  lemma {:induction false} DepthThree(u: User, p: O.Pending, x: seq<Rec>, o: seq<Rec>)
    requires O.Nested(x)
    ensures Depth(u, O.Flush(p) + x + o) == Higher(Depth(u, x), Depth(u, o))
  {
    hide Depth, O.Nested;
    O.Assoc(O.Flush(p), x, o);
    DepthFlushed(u, p, x + o);
    DepthConcat(u, x, o);
  }

  lemma {:induction false} DepthWrap(u: User, loop: Rec, body: seq<Rec>, end: Rec)
    requires loop.Loop? && end.EndLoop? && O.Nested(body) && body != [] && !loop.contiguous && (u.Convertor? || u.Copy?)
    ensures Depth(u, O.Wrap(loop, body, end)) == 1 + Depth(u, body) && O.Nested(O.Wrap(loop, body, end))
  {
    var o := O.Wrap(loop, body, end);
    O.SliceWrap(loop, body, end);
    O.WrapShape(o, |body| + 1);
    hide Depth, O.Nested, O.Wrap;
    DepthLoop(u, o, body);
  }

  lemma {:induction false} DepthGapped(u: User, p: O.Pending, loop: Rec, end: Rec, first: int)
    requires loop.Loop? && end.EndLoop? && loop.loops >= 1 && loop.contiguous && (u.Convertor? || u.Copy?)
    ensures Depth(u, O.GappedLoop(p, loop, end, first)) == if u.Convertor? then 1 else 0
    ensures O.Nested(O.GappedLoop(p, loop, end, first))
  {
    var d := Data(DT_BYTE, end.size, first, 1, true);
    var l := [Loop(O.Repetitions(p, loop, first), 2, loop.extent, loop.contiguous), d, EndLoop(2, end.size, end.first)];
    assert l[1..2] == [d] && l[3..] == [];
    DepthOne(u, d);
    O.OneData(d);
    DepthLoop(u, l, [d]);
    assert O.Nested(l);
    var q := if O.Continues(p, first) then O.Pend(DT_BYTE, p.len * p.typ.size + end.size, p.disp, 1) else p;
    assert O.GappedLoop(p, loop, end, first) == O.Flush(q) + l;
    hide Depth, O.Nested, O.GappedLoop, O.Flush;
    DepthFlush(u, q);
    DepthFlushed(u, q, l);
    O.NestedConcat(O.Flush(q), l);
  }
}
