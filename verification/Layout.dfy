/** The bounds of a datatype: lower and upper bound, whether the user set them, and the alignment.

    Source: openmpi-1.4.2/ompi/datatype/dt_add.c, `ompi_ddt_add`. */
module Layout {
  import opened BuilderSpec

  /** Lower and upper bound, whether the user set them, and the alignment. */
  datatype Extents = Extents(lb: int, ub: int, userLb: bool, userUb: bool, align: nat)

  /** The lower bound of `n` copies; zero copies count as one here. */
  function CopiesLb(lb: int, disp: int, extent: int, n: nat): int {
    if n == 0 then lb + disp else disp + Min(0, extent * (n - 1)) + lb
  }

  function CopiesUb(ub: int, disp: int, extent: int, n: nat): int {
    if n == 0 then ub + disp else disp + Max(0, extent * (n - 1)) + ub
  }

  /** The remainder of C: it has the sign of the dividend. */
  function CRem(a: int, b: nat): int
    requires b > 0
  {
    if a >= 0 then a % b else -((-a) % b)
  }

  /** `ub` raised to the next multiple of the alignment above `lb`. */
  function Aligned(lb: int, ub: int, align: nat): int
    requires align > 0
  {
    var epsilon := CRem(ub - lb, align);
    if epsilon != 0 then ub + (align - epsilon) else ub
  }

  /** The bounds after adding: a bound set by the user wins over one that is not, two bounds of
      the same kind are combined, and only an upper bound nobody set is aligned. */
  function Grown(b: Extents, a: Extents, disp: int, extent: int, n: nat): Extents
    requires b.align > 0
  {
    var lb := CopiesLb(a.lb, disp, extent, n);
    var ub := CopiesUb(a.ub, disp, extent, n);
    var newLb := if a.userLb == b.userLb then Min(b.lb, lb) else if b.userLb then b.lb else lb;
    var newUb := if a.userUb == b.userUb then Max(b.ub, ub) else if b.userUb then b.ub else ub;
    var align := Max(b.align, a.align);
    Extents(newLb, if a.userUb || b.userUb then newUb else Aligned(newLb, newUb, align),
            a.userLb || b.userLb, a.userUb || b.userUb, align)
  }

  /** How far adding moves the lower bound down: to that of the copies if only the added datatype has
      one set by the user, not at all if only this one has, and otherwise only if that is lower. */
  function Lowers(b: Extents, a: Extents, lo: int): int {
    if a.userLb && !b.userLb then b.lb - lo else if b.userLb && !a.userLb then 0 else Max(0, b.lb - lo)
  }

  /** How far adding moves the upper bound up, before it is aligned. */
  function Raises(b: Extents, a: Extents, hi: int): int {
    if a.userUb && !b.userUb then hi - b.ub else if b.userUb && !a.userUb then 0 else Max(0, hi - b.ub)
  }

  /** Adding leaves the extent as it is.  With an upper bound set by the user both bounds move by the
      same distance or not at all; otherwise the old extent is aligned, and the new one, before it is
      aligned, lies less than one alignment below it, or between one and two if it is negative. */
  predicate KeepsSpan(b: Extents, a: Extents, disp: int, extent: int, n: nat)
    requires b.align > 0
  {
    var s, m := b.ub - b.lb, Max(b.align, a.align);
    var t := s + Lowers(b, a, CopiesLb(a.lb, disp, extent, n)) + Raises(b, a, CopiesUb(a.ub, disp, extent, n));
    if a.userUb || b.userUb then t == s
    else s % m == 0 && if t >= 0 || t % m == 0 then s - m < t <= s else s - 2 * m < t < s - m
  }

  // ----- alignment -----

  /** The aligned upper bound is a multiple of the alignment above the lower bound; it is the next
      one unless the bounds are reversed. */
  lemma {:induction false} AlignedUp(lb: int, ub: int, align: nat)
    requires align > 0
    ensures (Aligned(lb, ub, align) - lb) % align == 0 && ub <= Aligned(lb, ub, align)
    ensures Aligned(lb, ub, align) < ub + align <==> lb <= ub || (lb - ub) % align == 0
    ensures Aligned(lb, ub, align) == ub <==> (ub - lb) % align == 0
  {
    var x := ub - lb;
    if x >= 0 {
      Multiple(x, align);
    } else {
      Multiple(-x, align);
      var q, r := (-x) / align, (-x) % align;
      if r == 0 {
        ModIs(x, align, -q, 0);
      } else {
        ModIs(x + align + r, align, 1 - q, 0);
        ModIs(x, align, -q - 1, align - r);
      }
    }
  }

  lemma {:induction false} Multiple(x: nat, align: nat)
    requires align > 0
    ensures x % align != 0 ==> (x + (align - x % align)) % align == 0
  {
    var q, r := x / align, x % align;
    ModIs(x + (align - r), align, q + 1, 0);
  }

  lemma {:induction false} ModIs(x: int, m: nat, q: int, r: nat)
    requires m > 0 && x == q * m + r && r < m
    ensures x % m == r
  {
    var a, b := x / m, x % m;
    assert x == a * m + b;
    if a > q { Factor(a - q, m); } else if a < q { Factor(q - a, m); }
    assert (a - q) * m == a * m - q * m;
  }

  lemma {:induction false} Factor(a: nat, m: nat)
    requires a >= 1
    ensures a * m >= m
  {}

  /** The extent after adding is the old one exactly under the condition on the old bounds. */
  lemma {:induction false} SpanKept(b: Extents, a: Extents, disp: int, extent: int, n: nat)
    requires b.align > 0
    ensures var g := Grown(b, a, disp, extent, n);
            g.ub - g.lb == b.ub - b.lb <==> KeepsSpan(b, a, disp, extent, n)
  {
    var lo, hi, m := CopiesLb(a.lb, disp, extent, n), CopiesUb(a.ub, disp, extent, n), Max(b.align, a.align);
    var lb := if a.userLb == b.userLb then Min(b.lb, lo) else if b.userLb then b.lb else lo;
    var ub := if a.userUb == b.userUb then Max(b.ub, hi) else if b.userUb then b.ub else hi;
    assert ub - lb == b.ub - b.lb + Lowers(b, a, lo) + Raises(b, a, hi);
    AlignedSpan(lb, ub, m, b.ub - b.lb);
    hide Aligned, CopiesLb, CopiesUb, Lowers, Raises;
  }

  /** Which extent the alignment gives. */
  lemma {:induction false} AlignedSpan(lb: int, ub: int, m: nat, s: int)
    requires m > 0
    ensures var t := ub - lb;
            Aligned(lb, ub, m) - lb == s
            <==> s % m == 0 && if t >= 0 || t % m == 0 then s - m < t <= s else s - 2 * m < t < s - m
  {
    var t := ub - lb;
    AlignedUp(lb, ub, m);
    if t >= 0 {
      var u := Aligned(lb, ub, m) - lb;
      assert t <= u < t + m && u % m == 0;
      if s % m == 0 && s - m < t <= s { SameMultiple(u, s, t, m); }
    } else if t % m == 0 {
      NegativeMultiple(t, m);
      if s % m == 0 && s - m < t <= s { SameMultiple(t, s, t, m); }
    } else {
      NegativeMultiple(t, m);
      var r := (-t) % m;
      assert 0 < r < m && Aligned(lb, ub, m) - lb == t + m + r;
      var u := t + m + r;
      if s % m == 0 && s - 2 * m < t < s - m { SameMultiple(u, s, t + m, m); }
    }
  }

  lemma {:induction false} NegativeMultiple(t: int, m: nat)
    requires m > 0 && t < 0
    ensures t % m == 0 <==> (-t) % m == 0
  {
    var q := (-t) / m;
    if (-t) % m == 0 {
      ModIs(t, m, -q, 0);
    }
    if t % m == 0 {
      ModIs(-t, m, -(t / m), 0);
    }
  }

  /** Between `t` and `t + m` there is one multiple of `m`. */
  lemma {:induction false} SameMultiple(u: int, s: int, t: int, m: nat)
    requires m > 0 && u % m == 0 && s % m == 0 && t <= u < t + m && t <= s < t + m
    ensures u == s
  {
    var p, q := u / m, s / m;
    assert u == p * m && s == q * m;
    if p > q { Factor(p - q, m); } else if q > p { Factor(q - p, m); }
  }

  /** Adding zero copies of a datatype without bounds set by the user to another one: the extent, and
      with it the promise of the no-gaps flag, survives exactly if the added bounds lie inside and the
      extent is aligned. */
  lemma {:induction false} ZeroAdd(b: Extents, a: Extents, disp: int, extent: int)
    requires b.align > 0 && !b.userLb && !b.userUb && !a.userLb && !a.userUb && b.lb <= b.ub
    ensures KeepsSpan(b, a, disp, extent, 0)
            <==> b.lb <= a.lb + disp && a.ub + disp <= b.ub && (b.ub - b.lb) % Max(b.align, a.align) == 0
  {}

  // ----- what the bounds are -----

  /** Something that was added: copies of a datatype with these bounds, or a marker. */
  datatype Placed =
    | Copies(of: Extents, disp: int, extent: int, n: nat)
    | LowerMark(at: int)
    | UpperMark(at: int)

  datatype Side = Lower | Upper

  /** One of the two bounds was set by the user. */
  predicate UserSets(p: Placed, s: Side) {
    match p
    case Copies(e, _, _, _) => if s.Lower? then e.userLb else e.userUb
    case LowerMark(_) => s.Lower?
    case UpperMark(_) => s.Upper?
  }

  /** `v` is the bound of one of the copies, or the one that the marker sets.  An add of no copies
      counts as one copy. */
  ghost predicate Bound(p: Placed, s: Side, v: int) {
    match p
    case Copies(e, disp, extent, n) =>
      exists k :: 0 <= k < Max(n, 1) && v == disp + k * extent + if s.Lower? then e.lb else e.ub
    case LowerMark(at) => s.Lower? && v == at
    case UpperMark(at) => s.Upper? && v == at
  }

  /** `v` lies at least as far out as `w`. */
  predicate Beyond(s: Side, v: int, w: int) {
    if s.Lower? then v <= w else v >= w
  }

  /** The bound of a datatype to which nothing was added. */
  function Start(s: Side): int {
    if s.Lower? then LONG_MAX else LONG_MIN
  }

  ghost predicate SomeUser(l: seq<Placed>, s: Side) {
    exists i :: 0 <= i < |l| && UserSets(l[i], s)
  }

  /** The outermost of all bounds, or, if the user set some of them, of those alone. */
  ghost predicate Outermost(l: seq<Placed>, s: Side, v: int) {
    && (forall i, w :: 0 <= i < |l| && (SomeUser(l, s) ==> UserSets(l[i], s)) && Bound(l[i], s, w) ==> Beyond(s, v, w))
    && (SomeUser(l, s) ==> exists i :: 0 <= i < |l| && UserSets(l[i], s) && Bound(l[i], s, v))
    && (!SomeUser(l, s) ==>
          Beyond(s, v, Start(s)) && (v == Start(s) || exists i :: 0 <= i < |l| && Bound(l[i], s, v)))
  }

  /** No copy reaches above `v`. */
  ghost predicate Clears(l: seq<Placed>, v: int) {
    v >= LONG_MIN && forall i, w :: 0 <= i < |l| && Bound(l[i], Upper, w) ==> w <= v
  }

  /** The largest alignment that was added. */
  ghost predicate Aligns(l: seq<Placed>, align: nat) {
    && align >= 1 && (forall i :: 0 <= i < |l| && l[i].Copies? ==> l[i].of.align <= align)
    && (align == 1 || exists i :: 0 <= i < |l| && l[i].Copies? && l[i].of.align == align)
  }

  /** The bounds and the alignment of a datatype to which all of `l` was added, in this order. */
  ghost predicate Encloses(e: Extents, l: seq<Placed>) {
    && (e.userLb <==> SomeUser(l, Lower)) && (e.userUb <==> SomeUser(l, Upper))
    && Outermost(l, Lower, e.lb) && Aligns(l, e.align)
    && (e.userUb ==> Outermost(l, Upper, e.ub))
    && (!e.userUb ==> Clears(l, e.ub))
    && (!e.userUb && l != [] && l[|l| - 1].Copies? ==> (e.ub - e.lb) % e.align == 0)
  }

  /** A multiple of the alignment above the lower bound, or below it. */
  predicate OnGrid(v: int, lb: int, align: nat)
    requires align > 0
  {
    (v - lb) % align == 0
  }

  /** There is no lower upper bound that is aligned. */
  ghost predicate Snug(e: Extents, l: seq<Placed>) {
    e.align >= 1 && forall v :: Clears(l, v) && OnGrid(v, e.lb, e.align) ==> e.ub <= v
  }

  lemma {:induction false} NothingPlaced()
    ensures var e := Extents(LONG_MAX, LONG_MIN, false, false, 1); Encloses(e, []) && Snug(e, [])
  {}

  /** The outermost bound of copies. */
  function Edge(e: Extents, disp: int, extent: int, n: nat, s: Side): int {
    if s.Lower? then CopiesLb(e.lb, disp, extent, n) else CopiesUb(e.ub, disp, extent, n)
  }

  lemma {:induction false} EdgeOutermost(e: Extents, disp: int, extent: int, n: nat, s: Side)
    ensures var p, v := Copies(e, disp, extent, n), Edge(e, disp, extent, n, s);
            Bound(p, s, v) && forall w :: Bound(p, s, w) ==> Beyond(s, v, w)
  {
    var p, v, m := Copies(e, disp, extent, n), Edge(e, disp, extent, n, s), Max(n, 1);
    var b := if s.Lower? then e.lb else e.ub;
    assert (m - 1) * extent == extent * (m - 1) && 0 * extent == 0;
    assert v == disp + 0 * extent + b || v == disp + (m - 1) * extent + b;
    forall w | Bound(p, s, w) ensures Beyond(s, v, w) {
      var k :| 0 <= k < m && w == disp + k * extent + b;
      if extent >= 0 {
        Ordered(0, k, extent);
        Ordered(k, m - 1, extent);
      } else {
        Ordered(0, k, -extent);
        Ordered(k, m - 1, -extent);
        assert k * -extent == -(k * extent) && (m - 1) * -extent == -((m - 1) * extent);
      }
    }
  }

  lemma {:induction false} Ordered(a: nat, b: nat, e: nat)
    requires a <= b
    ensures a * e <= b * e
  {}

  lemma {:induction false} SomeUserNext(l: seq<Placed>, p: Placed, s: Side)
    ensures SomeUser(l + [p], s) <==> SomeUser(l, s) || UserSets(p, s)
  {
    if SomeUser(l, s) {
      var i :| 0 <= i < |l| && UserSets(l[i], s);
      assert (l + [p])[i] == l[i];
    }
    if UserSets(p, s) { assert (l + [p])[|l|] == p; }
  }

  /** One more is placed: the outermost bound is the old one, the new one, or the one farther out. */
  lemma {:induction false} OutermostNext(l: seq<Placed>, p: Placed, s: Side, v: int, w: int)
    requires Outermost(l, s, v) && Bound(p, s, w) && forall x :: Bound(p, s, x) ==> Beyond(s, w, x)
    ensures Outermost(l + [p], s, if UserSets(p, s) == SomeUser(l, s) then (if Beyond(s, v, w) then v else w)
                                  else if UserSets(p, s) then w else v)
  {
    var m := l + [p];
    SomeUserNext(l, p, s);
    hide Bound, UserSets;
    assert m[|l|] == p && |m| == |l| + 1 && forall i :: 0 <= i < |l| ==> m[i] == l[i];
    var x := if UserSets(p, s) == SomeUser(l, s) then (if Beyond(s, v, w) then v else w)
      else if UserSets(p, s) then w else v;
    forall i, y | 0 <= i < |m| && (SomeUser(m, s) ==> UserSets(m[i], s)) && Bound(m[i], s, y)
      ensures Beyond(s, x, y)
    {
      if i < |l| {
        assert m[i] == l[i];
        assert UserSets(l[i], s) ==> SomeUser(l, s);
        if SomeUser(l, s) || !UserSets(p, s) { assert Beyond(s, v, y); }
      } else {
        assert m[i] == p;
      }
    }
    if SomeUser(l, s) || v != Start(s) {
      var i :| 0 <= i < |l| && (SomeUser(l, s) ==> UserSets(l[i], s)) && Bound(l[i], s, v);
      assert m[i] == l[i];
    }
    if x == w { assert Bound(m[|l|], s, w); }
  }

  /** A marker of the other side does not matter. */
  lemma {:induction false} OutermostSame(l: seq<Placed>, p: Placed, s: Side, v: int)
    requires Outermost(l, s, v) && !UserSets(p, s) && forall x :: !Bound(p, s, x)
    ensures Outermost(l + [p], s, v)
  {
    var m := l + [p];
    SomeUserNext(l, p, s);
    assert m[|l|] == p && forall i :: 0 <= i < |l| ==> m[i] == l[i];
    hide Bound, UserSets, SomeUser;
  }

  lemma {:induction false} AlignsNext(l: seq<Placed>, p: Placed, align: nat)
    requires Aligns(l, align)
    ensures Aligns(l + [p], if p.Copies? then Max(align, p.of.align) else align)
  {
    var m := l + [p];
    assert m[|l|] == p && forall i :: 0 <= i < |l| ==> m[i] == l[i];
  }

  lemma {:induction false} ClearsNext(l: seq<Placed>, p: Placed, v: int)
    ensures Clears(l + [p], v) <==> Clears(l, v) && forall w :: Bound(p, Upper, w) ==> w <= v
  {
    var m := l + [p];
    assert m[|l|] == p && forall i :: 0 <= i < |l| ==> m[i] == l[i];
    hide Bound;
  }

  lemma {:induction false} ClearsCopies(l: seq<Placed>, e: Extents, disp: int, extent: int, n: nat, v: int)
    ensures Clears(l + [Copies(e, disp, extent, n)], v) <==> Clears(l, v) && CopiesUb(e.ub, disp, extent, n) <= v
  {
    EdgeOutermost(e, disp, extent, n, Upper);
    ClearsNext(l, Copies(e, disp, extent, n), v);
    hide Bound, Clears, CopiesUb;
  }

  /** If the bounds were those of what was placed, so are the new ones. */
  lemma {:induction false} GrownEncloses(b: Extents, l: seq<Placed>, a: Extents, disp: int, extent: int, n: nat)
    requires Encloses(b, l)
    ensures b.align > 0 && Encloses(Grown(b, a, disp, extent, n), l + [Copies(a, disp, extent, n)])
  {
    var p := Copies(a, disp, extent, n);
    EdgeOutermost(a, disp, extent, n, Lower);
    EdgeOutermost(a, disp, extent, n, Upper);
    hide CopiesLb, CopiesUb, Bound, Aligned;
    var lo, hi := CopiesLb(a.lb, disp, extent, n), CopiesUb(a.ub, disp, extent, n);
    SomeUserNext(l, p, Lower);
    SomeUserNext(l, p, Upper);
    OutermostNext(l, p, Lower, b.lb, lo);
    AlignsNext(l, p, b.align);
    if b.userUb {
      OutermostNext(l, p, Upper, b.ub, hi);
    } else if a.userUb {
      OnlyUser(l, p, hi);
    } else {
      var g := Grown(b, a, disp, extent, n);
      AlignedUp(g.lb, Max(b.ub, hi), g.align);
      ClearsCopies(l, a, disp, extent, n, g.ub);
      hide Outermost, SomeUser;
    }
    hide Outermost, SomeUser, Clears, Aligns;
  }

  /** The first upper bound that the user sets counts alone. */
  lemma {:induction false} OnlyUser(l: seq<Placed>, p: Placed, w: int)
    requires !SomeUser(l, Upper) && UserSets(p, Upper) && Bound(p, Upper, w)
    requires forall x :: Bound(p, Upper, x) ==> Beyond(Upper, w, x)
    ensures Outermost(l + [p], Upper, w)
  {
    var m := l + [p];
    SomeUserNext(l, p, Upper);
    assert m[|l|] == p && forall i :: 0 <= i < |l| ==> m[i] == l[i];
    hide Bound;
  }

  /** A marker: the first one sets the bound outright. */
  lemma {:induction false} MarkEncloses(b: Extents, l: seq<Placed>, at: int, s: Side)
    requires Encloses(b, l)
    ensures s.Lower? ==>
              Encloses(b.(lb := if b.userLb then Min(b.lb, at) else at, userLb := true), l + [LowerMark(at)])
    ensures s.Upper? ==>
              Encloses(b.(ub := if b.userUb then Max(b.ub, at) else at, userUb := true), l + [UpperMark(at)])
  {
    var p := if s.Lower? then LowerMark(at) else UpperMark(at);
    SomeUserNext(l, p, Lower);
    SomeUserNext(l, p, Upper);
    AlignsNext(l, p, b.align);
    assert Bound(p, s, at) && forall x :: Bound(p, s, x) ==> x == at;
    if s.Lower? {
      OutermostNext(l, p, Lower, b.lb, at);
      if b.userUb { OutermostSame(l, p, Upper, b.ub); } else { ClearsNext(l, p, b.ub); }
    } else {
      OutermostSame(l, p, Lower, b.lb);
      if b.userUb { OutermostNext(l, p, Upper, b.ub, at); } else { OnlyUser(l, p, at); }
    }
    hide Outermost, SomeUser, Clears, Aligns, Bound;
  }

  /** What was placed determines the bounds, except for an upper bound that the user did not set. */
  lemma {:induction false} EnclosesOnce(e: Extents, f: Extents, l: seq<Placed>)
    requires Encloses(e, l) && Encloses(f, l)
    ensures e.lb == f.lb && e.userLb == f.userLb && e.userUb == f.userUb && e.align == f.align
    ensures e.userUb ==> e.ub == f.ub
  {
    OutermostOnce(l, Lower, e.lb, f.lb);
    if e.userUb { OutermostOnce(l, Upper, e.ub, f.ub); }
    AlignsOnce(l, e.align, f.align);
    hide Outermost, SomeUser, Clears, Aligns;
  }

  lemma {:induction false} OutermostOnce(l: seq<Placed>, s: Side, v: int, w: int)
    requires Outermost(l, s, v) && Outermost(l, s, w)
    ensures v == w
  {
    OneBeyond(l, s, v, w);
    OneBeyond(l, s, w, v);
  }

  lemma {:induction false} OneBeyond(l: seq<Placed>, s: Side, v: int, w: int)
    requires Outermost(l, s, v) && Outermost(l, s, w)
    ensures Beyond(s, v, w)
  {
    hide Bound, UserSets, SomeUser;
    if SomeUser(l, s) {
      var i :| 0 <= i < |l| && UserSets(l[i], s) && Bound(l[i], s, w);
      assert Beyond(s, v, w);
    } else if w != Start(s) {
      var i :| 0 <= i < |l| && Bound(l[i], s, w);
      assert Beyond(s, v, w);
    }
  }

  lemma {:induction false} AlignsOnce(l: seq<Placed>, a: nat, b: nat)
    requires Aligns(l, a) && Aligns(l, b)
    ensures a == b
  {}

  // ----- the lowest upper bound that is aligned -----

  /** The highest upper bound of all copies, before anything is aligned. */
  function Highest(l: seq<Placed>): int {
    if l == [] then LONG_MIN
    else
      var h, p := Highest(l[..|l| - 1]), l[|l| - 1];
      match p
      case Copies(e, disp, extent, n) => Max(h, CopiesUb(e.ub, disp, extent, n))
      case LowerMark(_) => h
      case UpperMark(at) => Max(h, at)
  }

  lemma {:induction false} ClearsHighest(l: seq<Placed>, v: int)
    ensures Clears(l, v) <==> Highest(l) <= v
  {
    if l != [] {
      var k, p := l[..|l| - 1], l[|l| - 1];
      assert l == k + [p];
      ClearsHighest(k, v);
      if p.Copies? {
        ClearsCopies(k, p.of, p.disp, p.extent, p.n, v);
      } else {
        ClearsNext(k, p, v);
        assert p.UpperMark? ==> Bound(p, Upper, p.at);
      }
      hide CopiesUb;
    }
  }

  /** What an add to a datatype with the lowest aligned upper bound gives is the lowest one again: the bounds are
      not reversed, or apart by a multiple of the alignment, and the old upper bound, which was
      aligned for other values, is either not above all copies, or no aligned value lies between. */
  predicate StaysSnug(b: Extents, highest: int, a: Extents, disp: int, extent: int, n: nat)
    requires b.align > 0
  {
    var hi := CopiesUb(a.ub, disp, extent, n);
    var lb, align, u, m := Grown(b, a, disp, extent, n).lb, Max(b.align, a.align), Max(b.ub, hi), Max(highest, hi);
    && (lb <= u || (lb - u) % align == 0)
    && (u == m || (u - 1 - lb) % align >= u - m)
  }

  lemma {:induction false} SnugExact(b: Extents, l: seq<Placed>, a: Extents, disp: int, extent: int, n: nat)
    requires Encloses(b, l) && Snug(b, l) && !b.userUb && !a.userUb
    ensures Snug(Grown(b, a, disp, extent, n), l + [Copies(a, disp, extent, n)])
            <==> StaysSnug(b, Highest(l), a, disp, extent, n)
  {
    var g, hi := Grown(b, a, disp, extent, n), CopiesUb(a.ub, disp, extent, n);
    var p, u, m := Copies(a, disp, extent, n), Max(b.ub, hi), Max(Highest(l), hi);
    hide CopiesLb, CopiesUb, Aligned, Outermost, SomeUser, Aligns;
    assert g.ub == Aligned(g.lb, u, g.align);
    AlignedUp(g.lb, u, g.align);
    ClearsHighest(l, b.ub);
    forall v ensures Clears(l + [p], v) <==> m <= v {
      ClearsCopies(l, a, disp, extent, n, v);
      ClearsHighest(l, v);
    }
    hide *;
    SnugFrom(g, l + [p], u, m);
  }

  /** Whether the aligned value that follows `u` is the first one from `m` on. */
  lemma {:induction false} SnugFrom(g: Extents, l: seq<Placed>, u: int, m: int)
    requires g.align > 0 && m <= u <= g.ub && OnGrid(g.ub, g.lb, g.align)
    requires g.ub < u + g.align <==> g.lb <= u || (g.lb - u) % g.align == 0
    requires forall v :: Clears(l, v) <==> m <= v
    ensures Snug(g, l)
            <==> (g.lb <= u || (g.lb - u) % g.align == 0) && (u == m || (u - 1 - g.lb) % g.align >= u - m)
  {
    hide Clears, OnGrid;
    if g.lb <= u || (g.lb - u) % g.align == 0 {
      if u == m || (u - 1 - g.lb) % g.align >= u - m {
        forall v | Clears(l, v) && OnGrid(v, g.lb, g.align) ensures g.ub <= v {
          NoneBelow(g.lb, g.ub, u, m, g.align, v);
        }
      } else {
        var v := Between(g.lb, u, m, g.align);
        assert Clears(l, v);
      }
    } else {
      OneLess(g.lb, g.ub, g.align);
      assert Clears(l, g.ub - g.align);
    }
  }

  lemma {:induction false} OneLess(lb: int, ub: int, align: nat)
    requires align > 0 && OnGrid(ub, lb, align)
    ensures OnGrid(ub - align, lb, align)
  {
    assert ub - lb == (ub - lb) / align * align;
    ModIs(ub - align - lb, align, (ub - lb) / align - 1, 0);
  }

  lemma {:induction false} Between(lb: int, u: int, m: int, align: nat) returns (v: int)
    requires align > 0 && (u - 1 - lb) % align < u - m
    ensures m <= v < u && OnGrid(v, lb, align)
  {
    var x := u - 1 - lb;
    v := u - 1 - x % align;
    assert x == x / align * align + x % align;
    ModIs(v - lb, align, x / align, 0);
  }

  lemma {:induction false} NoneBelow(lb: int, ub: int, u: int, m: int, align: nat, v: int)
    requires align > 0 && m <= u <= ub < u + align && OnGrid(ub, lb, align)
    requires u == m || (u - 1 - lb) % align >= u - m
    requires m <= v && OnGrid(v, lb, align)
    ensures ub <= v
  {
    if v < u {
      Remainder(u - 1 - v, v - lb, align);
      assert false;
    } else if v < ub {
      SameMultiple(v - lb, ub - lb, ub - align + 1 - lb, align);
    }
  }

  lemma {:induction false} Remainder(d: nat, y: int, m: nat)
    requires m > 0 && y % m == 0
    ensures (d + y) % m <= d
  {
    var q, k := y / m, d / m;
    assert d + y == (q + k) * m + d % m;
    ModIs(d + y, m, q + k, d % m);
    assert d == k * m + d % m;
    if k > 0 { Factor(k, m); }
  }

  /** The usual case: the lower bound moves by a multiple of the old alignment, or not at all, and the new
      alignment is a multiple of the old one. */
  lemma {:induction false} UsuallySnug(b: Extents, l: seq<Placed>, a: Extents, disp: int, extent: int, n: nat)
    requires Encloses(b, l) && Snug(b, l) && !b.userUb && !a.userUb
    requires var g := Grown(b, a, disp, extent, n);
             && (g.lb - b.lb) % b.align == 0 && g.align % b.align == 0
             && g.lb <= Max(b.ub, CopiesUb(a.ub, disp, extent, n))
    ensures Snug(Grown(b, a, disp, extent, n), l + [Copies(a, disp, extent, n)])
  {
    var g, hi := Grown(b, a, disp, extent, n), CopiesUb(a.ub, disp, extent, n);
    var u, p := Max(b.ub, hi), Copies(a, disp, extent, n);
    hide CopiesLb, CopiesUb, Aligned, Outermost, SomeUser, Aligns;
    AlignedUp(g.lb, u, g.align);
    forall v | Clears(l + [p], v) && OnGrid(v, g.lb, g.align) ensures g.ub <= v {
      ClearsCopies(l, a, disp, extent, n, v);
      hide Clears;
      MultipleOf(v - g.lb, g.align, b.align);
      SumOf(v - g.lb, g.lb - b.lb, b.align);
      assert u <= v;
      if v < g.ub { SameMultiple(v - g.lb, g.ub - g.lb, g.ub - g.align + 1 - g.lb, g.align); }
    }
  }

  lemma {:induction false} MultipleOf(x: int, m: nat, n: nat)
    requires m > 0 && n > 0 && x % m == 0 && m % n == 0
    ensures x % n == 0
  {
    var p, q := x / m, m / n;
    assert x == p * (q * n) == (p * q) * n;
    ModIs(x, n, p * q, 0);
  }

  lemma {:induction false} SumOf(x: int, y: int, m: nat)
    requires m > 0 && x % m == 0 && y % m == 0
    ensures (x + y) % m == 0
  {
    assert x + y == (x / m + y / m) * m;
    ModIs(x + y, m, x / m + y / m, 0);
  }

  /** The same for whatever was placed before. */
  lemma {:induction false} MorePlaced(b: Extents, a: Extents, disp: int, extent: int, n: nat)
    requires b.align > 0
    ensures var g, p := Grown(b, a, disp, extent, n), Copies(a, disp, extent, n);
            && (forall l :: Encloses(b, l) ==> Encloses(g, l + [p]))
            && forall l :: Encloses(b, l) && Snug(b, l) && !b.userUb && !a.userUb ==>
                 (Snug(g, l + [p]) <==> StaysSnug(b, Highest(l), a, disp, extent, n))
  {
    hide *;
    forall l | Encloses(b, l) ensures Encloses(Grown(b, a, disp, extent, n), l + [Copies(a, disp, extent, n)]) {
      GrownEncloses(b, l, a, disp, extent, n);
    }
    forall l | Encloses(b, l) && Snug(b, l) && !b.userUb && !a.userUb
      ensures Snug(Grown(b, a, disp, extent, n), l + [Copies(a, disp, extent, n)])
              <==> StaysSnug(b, Highest(l), a, disp, extent, n)
    {
      SnugExact(b, l, a, disp, extent, n);
    }
  }

  lemma {:induction false} MarkPlaced(b: Extents, at: int)
    ensures forall l :: Encloses(b, l) ==>
              Encloses(b.(lb := if b.userLb then Min(b.lb, at) else at, userLb := true), l + [LowerMark(at)])
    ensures forall l :: Encloses(b, l) ==>
              Encloses(b.(ub := if b.userUb then Max(b.ub, at) else at, userUb := true), l + [UpperMark(at)])
  {
    hide *;
    forall l | Encloses(b, l)
      ensures Encloses(b.(lb := if b.userLb then Min(b.lb, at) else at, userLb := true), l + [LowerMark(at)])
    {
      MarkEncloses(b, l, at, Lower);
    }
    forall l | Encloses(b, l)
      ensures Encloses(b.(ub := if b.userUb then Max(b.ub, at) else at, userUb := true), l + [UpperMark(at)])
    {
      MarkEncloses(b, l, at, Upper);
    }
  }

  // ----- other lists with the same bounds -----

  /** Something that was placed has the bound `v`, and it is one that the user set, or not. */
  ghost predicate Reaches(l: seq<Placed>, s: Side, user: bool, v: int) {
    exists i :: 0 <= i < |l| && UserSets(l[i], s) == user && Bound(l[i], s, v)
  }

  ghost predicate HasAlign(l: seq<Placed>, align: nat) {
    exists i :: 0 <= i < |l| && l[i].Copies? && l[i].of.align == align
  }

  /** The two lists have the same bounds and alignments. */
  ghost predicate SameBounds(l: seq<Placed>, k: seq<Placed>) {
    && (forall s, user, v :: Reaches(l, s, user, v) <==> Reaches(k, s, user, v))
    && (forall s :: SomeUser(l, s) <==> SomeUser(k, s)) && (forall a :: HasAlign(l, a) <==> HasAlign(k, a))
    && |l| > 0 && |k| > 0 && l[|l| - 1].Copies? == k[|k| - 1].Copies?
  }

  /** What encloses one of them encloses the other. */
  lemma {:induction false} SameEncloses(e: Extents, l: seq<Placed>, k: seq<Placed>)
    requires SameBounds(l, k) && Encloses(e, l)
    ensures Encloses(e, k)
  {
    SameOutermost(l, k, Lower, e.lb);
    if e.userUb { SameOutermost(l, k, Upper, e.ub); } else { SameClears(l, k, e.ub); }
    SameAligns(l, k, e.align);
    hide Outermost, Clears, Aligns, Reaches, HasAlign, SomeUser;
  }

  lemma {:induction false} SameOutermost(l: seq<Placed>, k: seq<Placed>, s: Side, v: int)
    requires SameBounds(l, k) && Outermost(l, s, v)
    ensures Outermost(k, s, v)
  {
    hide Bound, UserSets, SomeUser;
    forall i, w | 0 <= i < |k| && (SomeUser(k, s) ==> UserSets(k[i], s)) && Bound(k[i], s, w) ensures Beyond(s, v, w) {
      assert Reaches(k, s, UserSets(k[i], s), w);
      assert Reaches(l, s, UserSets(k[i], s), w);
    }
    if SomeUser(l, s) {
      assert Reaches(l, s, true, v);
      assert Reaches(k, s, true, v);
    } else if v != Start(s) {
      var i :| 0 <= i < |l| && Bound(l[i], s, v);
      assert Reaches(l, s, UserSets(l[i], s), v);
      assert Reaches(k, s, UserSets(l[i], s), v);
    }
  }

  lemma {:induction false} SameClears(l: seq<Placed>, k: seq<Placed>, v: int)
    requires SameBounds(l, k) && Clears(l, v)
    ensures Clears(k, v)
  {
    hide Bound, UserSets, SomeUser;
    forall i, w | 0 <= i < |k| && Bound(k[i], Upper, w) ensures w <= v {
      assert Reaches(k, Upper, UserSets(k[i], Upper), w);
      assert Reaches(l, Upper, UserSets(k[i], Upper), w);
    }
  }

  lemma {:induction false} SameAligns(l: seq<Placed>, k: seq<Placed>, align: nat)
    requires SameBounds(l, k) && Aligns(l, align)
    ensures Aligns(k, align)
  {
    hide Reaches, SomeUser;
    forall i | 0 <= i < |k| && k[i].Copies? ensures k[i].of.align <= align {
      assert HasAlign(k, k[i].of.align);
    }
    assert align == 1 || HasAlign(l, align);
  }

  lemma {:induction false} ReachesNext(l: seq<Placed>, p: Placed)
    ensures forall s, user, v :: Reaches(l + [p], s, user, v)
                                 <==> Reaches(l, s, user, v) || (UserSets(p, s) == user && Bound(p, s, v))
    ensures forall a :: HasAlign(l + [p], a) <==> HasAlign(l, a) || (p.Copies? && p.of.align == a)
    ensures forall s :: SomeUser(l + [p], s) <==> SomeUser(l, s) || UserSets(p, s)
  {
    hide Bound, UserSets;
    var m := l + [p];
    assert m[|l|] == p && forall i :: 0 <= i < |l| ==> m[i] == l[i];
    forall s, user, v
      ensures Reaches(m, s, user, v) <==> Reaches(l, s, user, v) || (UserSets(p, s) == user && Bound(p, s, v))
    {
      if Reaches(l, s, user, v) {
        var i :| 0 <= i < |l| && UserSets(l[i], s) == user && Bound(l[i], s, v);
        assert m[i] == l[i];
      }
    }
    forall a ensures HasAlign(m, a) <==> HasAlign(l, a) || (p.Copies? && p.of.align == a) {
      if HasAlign(l, a) {
        var i :| 0 <= i < |l| && l[i].Copies? && l[i].of.align == a;
        assert m[i] == l[i];
      }
    }
    forall s ensures SomeUser(m, s) <==> SomeUser(l, s) || UserSets(p, s) {
      SomeUserNext(l, p, s);
    }
  }

  lemma {:induction false} SameReflexive(l: seq<Placed>)
    requires l != []
    ensures SameBounds(l, l)
  {}

  lemma {:induction false} SameTrans(l: seq<Placed>, k: seq<Placed>, m: seq<Placed>)
    requires SameBounds(l, k) && SameBounds(k, m)
    ensures SameBounds(l, m)
  {
    hide Reaches, HasAlign, SomeUser;
  }

  lemma {:induction false} SameNext(l: seq<Placed>, k: seq<Placed>, p: Placed)
    requires SameBounds(l, k)
    ensures SameBounds(l + [p], k + [p])
  {
    ReachesNext(l, p);
    ReachesNext(k, p);
    hide Reaches, HasAlign, SomeUser, Bound, UserSets;
  }

  /** Two that follow each other may be placed as one if they have the bounds of it. */
  lemma {:induction false} SameMerged(l: seq<Placed>, p: Placed, q: Placed, r: Placed)
    requires forall s, v :: Bound(r, s, v) <==> Bound(p, s, v) || Bound(q, s, v)
    requires forall s :: UserSets(p, s) == UserSets(q, s) == UserSets(r, s)
    requires p.Copies? == q.Copies? == r.Copies? && (p.Copies? ==> p.of.align == q.of.align == r.of.align)
    ensures SameBounds(l + [r], l + [p] + [q])
  {
    ReachesNext(l, r);
    ReachesNext(l, p);
    ReachesNext(l + [p], q);
    hide Reaches, HasAlign, SomeUser, Bound, UserSets;
  }

  /** Copies that start where others end. */
  lemma {:induction false} CopiesMerged(l: seq<Placed>, e: Extents, disp: int, extent: int, m: nat, n: nat, next: int)
    requires m >= 1 && n >= 1 && next == disp + m * extent
    ensures SameBounds(l + [Copies(e, disp, extent, m + n)],
                       l + [Copies(e, disp, extent, m)] + [Copies(e, next, extent, n)])
  {
    var p, q, r := Copies(e, disp, extent, m), Copies(e, next, extent, n), Copies(e, disp, extent, m + n);
    forall s, v ensures Bound(r, s, v) <==> Bound(p, s, v) || Bound(q, s, v) {
      var b := if s.Lower? then e.lb else e.ub;
      if Bound(r, s, v) {
        var k :| 0 <= k < m + n && v == disp + k * extent + b;
        if k < m { assert Bound(p, s, v); } else {
          assert k * extent == m * extent + (k - m) * extent;
          assert v == next + (k - m) * extent + b;
        }
      }
      if Bound(q, s, v) {
        var k :| 0 <= k < n && v == next + k * extent + b;
        assert (m + k) * extent == m * extent + k * extent;
        assert v == disp + (m + k) * extent + b;
      }
    }
    hide Bound;
    SameMerged(l, p, q, r);
  }

  lemma {:induction false} MarksMerged(l: seq<Placed>, p: Placed)
    ensures SameBounds(l + [p], l + [p] + [p])
  {
    SameMerged(l, p, p, p);
  }

  /** A single copy, at whatever distance the next one would be. */
  lemma {:induction false} OneCopy(l: seq<Placed>, e: Extents, disp: int, x: int, y: int, m: nat, n: nat)
    requires m <= 1 && n <= 1
    ensures SameBounds(l + [Copies(e, disp, x, m)], l + [Copies(e, disp, y, n)])
  {
    var p, q := Copies(e, disp, x, m), Copies(e, disp, y, n);
    assert 0 * x == 0 && 0 * y == 0;
    assert forall s, v :: Bound(p, s, v) <==> v == disp + 0 * x + if s.Lower? then e.lb else e.ub;
    assert forall s, v :: Bound(q, s, v) <==> v == disp + 0 * y + if s.Lower? then e.lb else e.ub;
    hide Bound;
    ReachesNext(l, p);
    ReachesNext(l, q);
    hide Reaches, HasAlign, SomeUser, UserSets;
  }

  // ----- vectors -----

  /** `count` blocks of `n` elements, `step` apart. */
  ghost function BlocksPlaced(e: Extents, span: int, count: nat, n: nat, step: int): (l: seq<Placed>)
    ensures |l| == count && forall i :: 0 <= i < count ==> l[i] == Copies(e, i * step, span, n)
  {
    seq(count, i requires 0 <= i < count => Copies(e, i * step, span, n))
  }

  lemma {:induction false} BlocksStep(e: Extents, span: int, count: nat, n: nat, step: int)
    requires count >= 1
    ensures BlocksPlaced(e, span, count, n, step)
         == BlocksPlaced(e, span, count - 1, n, step) + [Copies(e, (count - 1) * step, span, n)]
    ensures count == 1 ==> BlocksPlaced(e, span, count, n, step) == [Copies(e, 0, span, n)]
    ensures forall p: Placed :: [] + [p] == [p]
  {}

  /** Blocks that follow each other are copies. */
  lemma {:induction false} FlatBlocks(e: Extents, span: int, count: nat, n: nat)
    requires count >= 1
    ensures count * n >= 0
    ensures SameBounds([Copies(e, 0, span, count * n)], BlocksPlaced(e, span, count, n, span * n))
    decreases count
  {
    Sign(count, n);
    hide SameBounds, BlocksPlaced;
    BlocksStep(e, span, count, n, span * n);
    if count == 1 {
      SameReflexive([Copies(e, 0, span, n)]);
    } else {
      var k, q := BlocksPlaced(e, span, count - 1, n, span * n), Copies(e, (count - 1) * (span * n), span, n);
      Sign(count - 1, n);
      FlatBlocks(e, span, count - 1, n);
      var p := Copies(e, 0, span, (count - 1) * n);
      SameNext([p], k, q);
      assert count * n == (count - 1) * n + n && (count - 1) * (span * n) == (count - 1) * n * span;
      if n == 0 {
        OneCopy([p], e, 0, span, span, 0, 0);
        MarksMerged([], p);
        assert p == q == Copies(e, 0, span, count * n);
      } else {
        CopiesMerged([], e, 0, span, (count - 1) * n, n, (count - 1) * (span * n));
      }
      SameTrans([Copies(e, 0, span, count * n)], [p] + [q], k + [q]);
    }
  }

  /** Blocks of one element are copies. */
  lemma {:induction false} SingleBlocks(e: Extents, span: int, count: nat, step: int)
    requires count >= 1
    ensures SameBounds([Copies(e, 0, step, count)], BlocksPlaced(e, span, count, 1, step))
    decreases count
  {
    hide SameBounds, BlocksPlaced;
    BlocksStep(e, span, count, 1, step);
    if count == 1 {
      OneCopy([], e, 0, step, span, 1, 1);
    } else {
      var k, at := BlocksPlaced(e, span, count - 1, 1, step), (count - 1) * step;
      var p, q, r := Copies(e, 0, step, count - 1), Copies(e, at, span, 1), Copies(e, at, step, 1);
      SingleBlocks(e, span, count - 1, step);
      SameNext([p], k, r);
      OneCopy(k, e, at, step, span, 1, 1);
      CopiesMerged([], e, 0, step, count - 1, 1, at);
      SameTrans([Copies(e, 0, step, count)], [p] + [r], k + [r]);
      SameTrans([Copies(e, 0, step, count)], k + [r], k + [q]);
    }
  }

  /** The copies of a block that encloses copies enclose all of those.  The lower bound of the block has to
      be an address. */
  lemma {:induction false} NestedBlocks(b: Extents, x: Extents, e: Extents, span: int, count: nat, n: nat, step: int)
    requires count >= 1 && Encloses(b, [Copies(e, 0, span, n)]) && Encloses(x, [Copies(b, 0, step, count)])
    requires e.userLb || CopiesLb(e.lb, 0, span, n) <= LONG_MAX
    ensures Encloses(x, BlocksPlaced(e, span, count, n, step))
  {
    var k := BlocksPlaced(e, span, count, n, step);
    var p, q := Copies(e, 0, span, n), Copies(b, 0, step, count);
    UserOne(p);
    UserOne(q);
    assert forall s :: UserSets(p, s) == UserSets(q, s);
    assert forall s :: SomeUser(k, s) <==> UserSets(p, s) by {
      assert forall i, s :: 0 <= i < count ==> UserSets(k[i], s) == UserSets(p, s);
      assert forall s :: UserSets(p, s) ==> UserSets(k[0], s);
    }
    NestedLower(b, x, e, span, count, n, step);
    NestedAligns(b, x, e, k, span, n, step, count);
    if x.userUb {
      NestedUpper(b, x, e, span, count, n, step);
    } else {
      NestedClears(b, x, e, span, count, n, step);
    }
    hide Outermost, Clears, Aligns, SomeUser, UserSets;
  }

  lemma {:induction false} UserOne(p: Placed)
    ensures forall s :: SomeUser([p], s) <==> UserSets(p, s)
  {
    assert [p][0] == p;
    hide UserSets;
  }

  /** Where the element `j` of the block `i` is. */
  lemma {:induction false} Reached(e: Extents, span: int, count: nat, n: nat, step: int, s: Side, i: nat, v: int)
    requires i < count
    ensures Bound(Copies(e, i * step, span, n), s, v) <==> Bound(Copies(e, 0, span, n), s, v - i * step)
  {
    var b := if s.Lower? then e.lb else e.ub;
    if Bound(Copies(e, i * step, span, n), s, v) {
      var j :| 0 <= j < Max(n, 1) && v == i * step + j * span + b;
      assert v - i * step == 0 + j * span + b;
    }
    if Bound(Copies(e, 0, span, n), s, v - i * step) {
      var j :| 0 <= j < Max(n, 1) && v - i * step == 0 + j * span + b;
      assert v == i * step + j * span + b;
    }
  }

  lemma {:induction false} CopyBound(b: Extents, step: int, count: nat, s: Side, i: nat)
    requires i < count
    ensures Bound(Copies(b, 0, step, count), s, i * step + if s.Lower? then b.lb else b.ub)
  {
    assert i * step + (if s.Lower? then b.lb else b.ub) == 0 + i * step + if s.Lower? then b.lb else b.ub;
  }

  lemma {:induction false} OutermostOne(p: Placed, s: Side, v: int)
    requires Outermost([p], s, v)
    ensures forall w :: Bound(p, s, w) ==> Beyond(s, v, w)
    ensures if UserSets(p, s) then Bound(p, s, v) else Beyond(s, v, Start(s)) && (v == Start(s) || Bound(p, s, v))
  {
    UserOne(p);
    assert [p][0] == p;
    hide Bound, UserSets, SomeUser, Beyond;
  }

  lemma {:induction false} WhichCopy(b: Extents, step: int, count: nat, s: Side, v: int) returns (i: nat)
    requires count >= 1 && Bound(Copies(b, 0, step, count), s, v)
    ensures i < count && v == i * step + if s.Lower? then b.lb else b.ub
  {
    i :| 0 <= i < Max(count, 1) && v == 0 + i * step + if s.Lower? then b.lb else b.ub;
  }

  lemma {:induction false} Uniform(k: seq<Placed>, p: Placed, s: Side)
    requires |k| > 0 && forall i :: 0 <= i < |k| ==> UserSets(k[i], s) == UserSets(p, s)
    ensures SomeUser(k, s) <==> UserSets(p, s)
  {
    assert UserSets(k[0], s) == UserSets(p, s);
    hide UserSets;
  }

  lemma {:induction false} NestedOutermost(b: Extents, e: Extents, span: int, count: nat, n: nat, step: int, s: Side,
                                           v: int)
    requires count >= 1 && Outermost([Copies(e, 0, span, n)], s, if s.Lower? then b.lb else b.ub)
    requires Outermost([Copies(b, 0, step, count)], s, v)
    requires UserSets(Copies(e, 0, span, n), s) == UserSets(Copies(b, 0, step, count), s)
    requires Bound(Copies(e, 0, span, n), s, if s.Lower? then b.lb else b.ub)
    ensures Outermost(BlocksPlaced(e, span, count, n, step), s, v)
  {
    var k, p, q := BlocksPlaced(e, span, count, n, step), Copies(e, 0, span, n), Copies(b, 0, step, count);
    var inner := if s.Lower? then b.lb else b.ub;
    assert forall i :: 0 <= i < |k| ==> UserSets(k[i], s) == UserSets(p, s);
    Uniform(k, p, s);
    OutermostOne(p, s, inner);
    OutermostOne(q, s, v);
    hide Bound, UserSets, SomeUser;
    forall i, w | 0 <= i < count && Bound(k[i], s, w) ensures Beyond(s, v, w) {
      Reached(e, span, count, n, step, s, i, w);
      CopyBound(b, step, count, s, i);
      assert Beyond(s, inner, w - i * step);
    }
    if Bound(q, s, v) {
      var i := WhichCopy(b, step, count, s, v);
      Reached(e, span, count, n, step, s, i, v);
      assert Bound(k[i], s, v);
    }
  }

  lemma {:induction false} NestedLower(b: Extents, x: Extents, e: Extents, span: int, count: nat, n: nat, step: int)
    requires count >= 1 && Outermost([Copies(e, 0, span, n)], Lower, b.lb)
    requires Outermost([Copies(b, 0, step, count)], Lower, x.lb) && (e.userLb <==> b.userLb)
    requires e.userLb || CopiesLb(e.lb, 0, span, n) <= LONG_MAX
    ensures Outermost(BlocksPlaced(e, span, count, n, step), Lower, x.lb)
  {
    EdgeOutermost(e, 0, span, n, Lower);
    OutermostOne(Copies(e, 0, span, n), Lower, b.lb);
    hide Bound, Outermost, CopiesLb;
    NestedOutermost(b, e, span, count, n, step, Lower, x.lb);
  }

  lemma {:induction false} NestedUpper(b: Extents, x: Extents, e: Extents, span: int, count: nat, n: nat, step: int)
    requires count >= 1 && Outermost([Copies(e, 0, span, n)], Upper, b.ub) && e.userUb && b.userUb
    requires Outermost([Copies(b, 0, step, count)], Upper, x.ub)
    ensures Outermost(BlocksPlaced(e, span, count, n, step), Upper, x.ub)
  {
    OutermostOne(Copies(e, 0, span, n), Upper, b.ub);
    hide Bound, Outermost;
    NestedOutermost(b, e, span, count, n, step, Upper, x.ub);
  }

  lemma {:induction false} NestedClears(b: Extents, x: Extents, e: Extents, span: int, count: nat, n: nat, step: int)
    requires count >= 1 && Clears([Copies(e, 0, span, n)], b.ub) && Clears([Copies(b, 0, step, count)], x.ub)
    ensures Clears(BlocksPlaced(e, span, count, n, step), x.ub)
  {
    var k, p, q := BlocksPlaced(e, span, count, n, step), Copies(e, 0, span, n), Copies(b, 0, step, count);
    assert [p][0] == p && [q][0] == q;
    hide Bound;
    forall i, w | 0 <= i < count && Bound(k[i], Upper, w) ensures w <= x.ub {
      Reached(e, span, count, n, step, Upper, i, w);
      CopyBound(b, step, count, Upper, i);
      assert w - i * step <= b.ub;
    }
  }

  lemma {:induction false} NestedAligns(b: Extents, x: Extents, e: Extents, k: seq<Placed>, span: int, n: nat,
                                        step: int, count: nat)
    requires |k| > 0 && forall i :: 0 <= i < |k| ==> k[i].Copies? && k[i].of == e
    requires Aligns([Copies(e, 0, span, n)], b.align) && Aligns([Copies(b, 0, step, count)], x.align)
    ensures Aligns(k, x.align)
  {
    assert [Copies(e, 0, span, n)][0].of == e && [Copies(b, 0, step, count)][0].of == b;
    assert k[0].of == e;
  }
}
