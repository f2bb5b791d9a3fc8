/** What makes a stored tree a red-black tree, and what each step of the rebalancing does to that.

    Source: openmpi-1.4.2/ompi/class/ompi_rb_tree.c. */
module RbSpec {
  import opened RbHeap

  // ----- entries in order -----

  function Flat(t: Tree): seq<Entry> {
    if t.Leaf? then [] else Flat(t.l) + [t.e] + Flat(t.r)
  }

  /** The entries before a position. */
  function Before(c: Path): seq<Entry> {
    if c.Top? then []
    else if c.d == Right then Before(c.up) + Flat(c.sib) + [c.e]
    else Before(c.up)
  }

  /** The entries after a position. */
  function After(c: Path): seq<Entry> {
    if c.Top? then []
    else if c.d == Left then [c.e] + Flat(c.sib) + After(c.up)
    else After(c.up)
  }

  function Whole(c: Path, t: Tree): seq<Entry> {
    Before(c) + Flat(t) + After(c)
  }

  /** The nodes of the whole tree. */
  function All(c: Path, t: Tree): set<nat> {
    PathIds(c) + Ids(t)
  }

  ghost predicate Sorted(s: seq<Entry>) {
    forall i, j :: 0 <= i < j < |s| ==> s[i].key <= s[j].key
  }

  lemma {:induction false} Around5(b: seq<Entry>, x: seq<Entry>, e: Entry, y: seq<Entry>, a: seq<Entry>)
    ensures b + (x + [e] + y) + a == b + x + ([e] + y + a) == (b + x + [e]) + y + a
  {}

  lemma {:induction false} AllUp(c: Path, t: Tree)
    requires c.Under?
    ensures All(c.up, Parent(c, t)) == All(c, t)
  {
    MkIds(c.id, c.color, c.e, c.d, t, c.sib);
    assert PathIds(c) == {c.id} + Ids(c.sib) + PathIds(c.up);
    hide Ids, PathIds;
  }

  lemma {:induction false} WholeUp(c: Path, t: Tree)
    requires c.Under?
    ensures Whole(c.up, Parent(c, t)) == Whole(c, t) && All(c.up, Parent(c, t)) == All(c, t)
  {
    AllUp(c, t);
    var p := Parent(c, t);
    FlatMk(p, c.d);
    hide Flat, All;
    var b, x, y, a := Before(c.up), Flat(t), Flat(c.sib), After(c.up);
    if c.d == Left { Around5(b, x, c.e, y, a); } else { Around5(b, y, c.e, x, a); }
  }

  lemma {:induction false} WholePlug(c: Path, t: Tree)
    ensures Flat(Plug(c, t)) == Whole(c, t) && Ids(Plug(c, t)) == All(c, t)
    decreases c
  {
    PlugIds(c, t);
    if c.Under? {
      WholeUp(c, t);
      WholePlug(c.up, Parent(c, t));
    }
  }

  lemma {:induction false} WholeDown(c: Path, t: Tree, d: Dir)
    requires t.N?
    ensures Whole(Below(c, t, d), Near(t, d)) == Whole(c, t) && All(Below(c, t, d), Near(t, d)) == All(c, t)
  {
    WholeUp(Below(c, t, d), Near(t, d));
  }

  lemma {:induction false} Regroup(a: seq<Entry>, x: Entry, b: seq<Entry>, y: Entry, z: seq<Entry>)
    ensures (a + [x] + b) + [y] + z == a + [x] + (b + [y] + z)
  {}

  lemma {:induction false} IdsRotated(t: Tree, d: Dir)
    requires t.N? && Far(t, d).N?
    ensures Ids(RotatedTree(t, d)) == Ids(t)
  {
    var y := Far(t, d);
    MkIds(t.id, t.color, t.e, d, Near(t, d), y);
    MkIds(y.id, y.color, y.e, d, Near(y, d), Far(y, d));
    MkIds(t.id, t.color, t.e, d, Near(t, d), Near(y, d));
    MkIds(y.id, y.color, y.e, d, Mk(t.id, t.color, t.e, d, Near(t, d), Near(y, d)), Far(y, d));
    hide Ids;
  }

  lemma {:induction false} FlatRotated(t: Tree, d: Dir)
    requires t.N? && Far(t, d).N?
    ensures Flat(RotatedTree(t, d)) == Flat(t) && Ids(RotatedTree(t, d)) == Ids(t)
  {
    IdsRotated(t, d);
    var y := Far(t, d);
    FlatMk(t, d);
    FlatMk(y, d);
    var inner := Mk(t.id, t.color, t.e, d, Near(t, d), Near(y, d));
    FlatMk(inner, d);
    FlatMk(RotatedTree(t, d), d);
    hide Flat, Ids;
    var a, b, z := Flat(Near(t, d)), Flat(Near(y, d)), Flat(Far(y, d));
    if d == Left { Regroup(a, t.e, b, y.e, z); } else { Regroup(z, y.e, b, t.e, a); }
  }

  lemma {:induction false} FlatMk(t: Tree, d: Dir)
    requires t.N?
    ensures Flat(t) == if d == Left then Flat(Near(t, d)) + [t.e] + Flat(Far(t, d))
              else Flat(Far(t, d)) + [t.e] + Flat(Near(t, d))
  {}

  /** Colors do not matter to the order. */
  lemma {:induction false} WholeColors(c: Path, t: Tree, k: Color, m: Color)
    requires c.Under?
    ensures Whole(c.(color := k, sib := Painted(c.sib, m)), t) == Whole(c, t) == Whole(c.(color := k), t)
    ensures Flat(Painted(t, k)) == Flat(t)
    ensures All(c.(color := k, sib := Painted(c.sib, m)), t) == All(c, t) == All(c.(color := k), t)
    ensures Ids(Painted(t, k)) == Ids(t)
  {
    hide Whole;
    assert Flat(Painted(c.sib, m)) == Flat(c.sib);
    WholeParts(c.(color := k, sib := Painted(c.sib, m)), t);
    WholeParts(c.(color := k), t);
    WholeParts(c, t);
  }

  lemma {:induction false} WholeParts(c: Path, t: Tree)
    requires c.Under?
    ensures Whole(c, t) == if c.d == Left then Before(c.up) + Flat(t) + ([c.e] + Flat(c.sib) + After(c.up))
                           else Before(c.up) + Flat(c.sib) + [c.e] + Flat(t) + After(c.up)
  {}

  /** The order only depends on the entries at the position. */
  lemma {:induction false} WholeSame(c: Path, t: Tree, u: Tree)
    requires Flat(t) == Flat(u)
    ensures Whole(c, t) == Whole(c, u)
    ensures Ids(t) == Ids(u) ==> All(c, t) == All(c, u)
  {}

  /** One entry is added. */
  ghost predicate OneMore(s: seq<Entry>, t: seq<Entry>, e: Entry) {
    exists k :: 0 <= k <= |s| && t == s[..k] + [e] + s[k..]
  }

  lemma {:induction false} AddedBetween(b: seq<Entry>, e: Entry, a: seq<Entry>)
    ensures OneMore(b + a, b + [e] + a, e)
  {
    assert (b + a)[..|b|] == b && (b + a)[|b|..] == a;
  }

  // ----- searching -----

  ghost predicate HasKey(s: seq<Entry>, key: int) {
    exists i :: 0 <= i < |s| && s[i].key == key
  }

  /** In a sorted tree, what comes after the left side of a node is not less than its entry, and
      what comes before the right side is not greater. */
  lemma {:induction false} Sides(c: Path, t: Tree)
    requires Sorted(Whole(c, t)) && t.N?
    ensures forall i :: 0 <= i < |After(Below(c, t, Left))| ==> t.e.key <= After(Below(c, t, Left))[i].key
    ensures forall i :: 0 <= i < |Before(Below(c, t, Right))| ==> Before(Below(c, t, Right))[i].key <= t.e.key
  {
    var b, l, r, a := Before(c), Flat(t.l), Flat(t.r), After(c);
    assert Whole(c, t) == b + (l + [t.e] + r) + a;
    SplitSorted(b, l, t.e, r, a);
    assert After(Below(c, t, Left)) == [t.e] + r + a;
    assert Before(Below(c, t, Right)) == b + l + [t.e];
    hide *;
  }

  /** A new leaf between the smaller keys and the others. */
  lemma {:induction false} LeafPlaced(c: Path, id: nat, e: Entry)
    requires Sorted(Flat(Plug(c, Leaf)))
    requires forall i :: 0 <= i < |Before(c)| ==> Before(c)[i].key < e.key
    requires forall i :: 0 <= i < |After(c)| ==> e.key <= After(c)[i].key
    ensures Before(c) + After(c) == Flat(Plug(c, Leaf)) && Sorted(Before(c) + [e] + After(c))
    ensures Ids(Plug(c, Leaf)) == PathIds(c) && All(c, N(id, Red, e, Leaf, Leaf)) == PathIds(c) + {id}
  {
    WholePlug(c, Leaf);
    hide Sorted;
    assert Before(c) + Flat(Leaf) + After(c) == Before(c) + After(c);
    SortedPlaced(Before(c), e, After(c));
    assert Ids(N(id, Red, e, Leaf, Leaf)) == {id};
  }

  lemma {:induction false} SortedPlaced(b: seq<Entry>, e: Entry, a: seq<Entry>)
    requires Sorted(b + a)
    requires forall i :: 0 <= i < |b| ==> b[i].key < e.key
    requires forall i :: 0 <= i < |a| ==> e.key <= a[i].key
    ensures Sorted(b + [e] + a)
  {
    var s := b + [e] + a;
    forall i, j | 0 <= i < j < |s| ensures s[i].key <= s[j].key {
      if j < |b| {
        assert (b + a)[i] == s[i] && (b + a)[j] == s[j];
      } else if i > |b| {
        assert (b + a)[i - 1] == s[i] && (b + a)[j - 1] == s[j];
      } else if i < |b| && j > |b| {
        assert (b + a)[i] == s[i] && (b + a)[j - 1] == s[j];
      }
    }
  }

  lemma {:induction false} SplitSorted(b: seq<Entry>, l: seq<Entry>, e: Entry, r: seq<Entry>, a: seq<Entry>)
    requires Sorted(b + (l + [e] + r) + a)
    ensures forall i :: 0 <= i < |[e] + r + a| ==> e.key <= ([e] + r + a)[i].key
    ensures forall i :: 0 <= i < |b + l + [e]| ==> (b + l + [e])[i].key <= e.key
  {
    var s, k := b + (l + [e] + r) + a, |b| + |l|;
    assert s[k] == e;
    forall i | 0 <= i < |[e] + r + a| ensures e.key <= ([e] + r + a)[i].key { assert s[k + i] == ([e] + r + a)[i]; }
    forall i | 0 <= i < |b + l + [e]| ensures (b + l + [e])[i].key <= e.key { assert s[i] == (b + l + [e])[i]; }
  }

  function Depth(t: Tree): nat {
    if t.Leaf? then 0 else 1 + if Depth(t.l) < Depth(t.r) then Depth(t.r) else Depth(t.l)
  }

  // ----- balance -----

  /** Every path to a leaf has `n` black nodes. */
  ghost predicate Bal(t: Tree, n: nat) {
    if t.Leaf? then n == 0
    else if t.color == Black then n >= 1 && Bal(t.l, n - 1) && Bal(t.r, n - 1)
    else Bal(t.l, n) && Bal(t.r, n)
  }

  /** No red node has a red child. */
  ghost predicate NoRed(t: Tree) {
    t.N? ==>
      && (t.color == Red ==> ColorOf(t.l) == Black && ColorOf(t.r) == Black)
      && NoRed(t.l) && NoRed(t.r)
  }

  /** A tree with black height `n` at this position makes the whole tree balanced. */
  ghost predicate PathBal(c: Path, n: nat) {
    c.Under? ==> Bal(c.sib, n) && PathBal(c.up, if c.color == Black then n + 1 else n)
  }

  /** No red node above the position has a red child, except possibly at the position, and the
      root is black unless the position is the root. */
  ghost predicate PathNoRed(c: Path) {
    c.Under? ==>
      && (c.color == Red ==> ColorOf(c.sib) == Black && c.up.Under? && c.up.color == Black)
      && NoRed(c.sib) && PathNoRed(c.up)
  }

  ghost predicate RedBlack(t: Tree) {
    ColorOf(t) == Black && NoRed(t) && exists n :: Bal(t, n)
  }

  lemma {:induction false} PlugRedBlack(c: Path, t: Tree, n: nat)
    requires PathBal(c, n) && PathNoRed(c) && Bal(t, n) && NoRed(t)
    requires c.Under? && c.color == Red ==> ColorOf(t) == Black
    requires c.Top? ==> ColorOf(t) == Black
    ensures RedBlack(Plug(c, t))
    decreases c
  {
    if c.Under? {
      PlugRedBlack(c.up, Parent(c, t), if c.color == Black then n + 1 else n);
    }
  }

  // ----- the rebalancing after an insert -----

  /** The position is a red node, and only that it may be the root or have a red parent is wrong. */
  ghost predicate Inserted(c: Path, t: Tree, n: nat) {
    t.N? && t.color == Red && Bal(t, n) && NoRed(t) && PathBal(c, n) && PathNoRed(c)
  }

  function Above(color: Color, n: nat): nat {
    if color == Black then n + 1 else n
  }

  lemma {:induction false} MkOK(id: nat, color: Color, e: Entry, d: Dir, a: Tree, b: Tree, n: nat)
    requires Bal(a, n) && Bal(b, n) && NoRed(a) && NoRed(b)
    requires color == Red ==> ColorOf(a) == Black && ColorOf(b) == Black
    ensures Bal(Mk(id, color, e, d, a, b), Above(color, n)) && NoRed(Mk(id, color, e, d, a, b))
  {}

  lemma {:induction false} UnderOK(up: Path, d: Dir, id: nat, color: Color, e: Entry, sib: Tree, n: nat)
    requires Bal(sib, n) && NoRed(sib) && PathBal(up, Above(color, n)) && PathNoRed(up)
    requires color == Red ==> ColorOf(sib) == Black && up.Under? && up.color == Black
    ensures PathBal(Under(up, d, id, color, e, sib), n) && PathNoRed(Under(up, d, id, color, e, sib))
  {}

  lemma {:induction false} PathParts(c: Path, n: nat)
    requires c.Under? && PathBal(c, n) && PathNoRed(c)
    ensures Bal(c.sib, n) && NoRed(c.sib) && PathBal(c.up, Above(c.color, n)) && PathNoRed(c.up)
    ensures c.color == Red ==> ColorOf(c.sib) == Black && c.up.Under? && c.up.color == Black
  {}

  lemma {:induction false} TreeParts(t: Tree, d: Dir, n: nat)
    requires t.N? && Bal(t, n) && NoRed(t)
    ensures t.color == Black ==> n >= 1
    ensures var m := if t.color == Black then n - 1 else n;
            Bal(Near(t, d), m) && Bal(Far(t, d), m) && NoRed(Near(t, d)) && NoRed(Far(t, d))
    ensures t.color == Red ==> ColorOf(Near(t, d)) == Black && ColorOf(Far(t, d)) == Black
  {}

  lemma {:induction false} PaintedBlack(t: Tree, n: nat)
    requires Bal(t, n) && NoRed(t)
    ensures NoRed(Painted(t, Black)) && ColorOf(Painted(t, Black)) == Black
    ensures Bal(Painted(t, Black), if ColorOf(t) == Red then n + 1 else n)
  {}

  /** The uncle is red: parent, uncle and grandparent change colors. */
  lemma {:induction false} RedUncle(c: Path, t: Tree, n: nat)
    requires Inserted(c, t, n) && c.Under? && c.color == Red && c.up.Under? && c.up.sib.N? && c.up.sib.color == Red
    ensures var g := c.up;
            Inserted(g.up, Mk(g.id, Red, g.e, g.d, Mk(c.id, Black, c.e, c.d, t, c.sib), Painted(g.sib, Black)), n + 1)
  {
    var g := c.up;
    PathParts(c, n);
    PathParts(g, n);
    MkOK(c.id, Black, c.e, c.d, t, c.sib, n);
    PaintedBlack(g.sib, n);
    hide Bal, NoRed, PathBal, PathNoRed;
    MkOK(g.id, Red, g.e, g.d, Mk(c.id, Black, c.e, c.d, t, c.sib), Painted(g.sib, Black), n + 1);
  }

  /** An inner node is rotated to the outside. */
  lemma {:induction false} InnerToOuter(c: Path, t: Tree, n: nat)
    requires Inserted(c, t, n) && c.Under? && c.color == Red && c.up.Under? && c.d != c.up.d
    ensures var d := c.up.d;
            Inserted(Under(c.up, d, t.id, Red, t.e, Far(t, d)), Mk(c.id, Red, c.e, d, c.sib, Near(t, d)), n)
  {
    var d := c.up.d;
    hide Bal, NoRed, PathBal, PathNoRed;
    PathParts(c, n);
    TreeParts(t, d, n);
    MkOK(c.id, Red, c.e, d, c.sib, Near(t, d), n);
    UnderOK(c.up, d, t.id, Red, t.e, Far(t, d), n);
  }

  /** The grandparent is rotated below the parent. */
  lemma {:induction false} OuterDone(c: Path, t: Tree, n: nat)
    requires Inserted(c, t, n) && c.Under? && c.color == Red && c.up.Under? && c.d == c.up.d
    requires ColorOf(c.up.sib) == Black
    ensures var g := c.up;
            Inserted(Under(g.up, c.d, c.id, Black, c.e, Mk(g.id, Red, g.e, Flip(c.d), g.sib, c.sib)), t, n)
  {
    var g := c.up;
    hide Bal, NoRed, PathBal, PathNoRed;
    PathParts(c, n);
    PathParts(g, n);
    MkOK(g.id, Red, g.e, Flip(c.d), g.sib, c.sib, n);
    UnderOK(g.up, c.d, c.id, Black, c.e, Mk(g.id, Red, g.e, Flip(c.d), g.sib, c.sib), n);
  }

  /** A position on the way down to where a new node is placed. */
  ghost predicate Placing(c: Path, t: Tree, n: nat) {
    && PathBal(c, n) && PathNoRed(c) && Bal(t, n) && NoRed(t)
    && (ColorOf(t) == Red ==> c.Under? && c.color == Black)
  }

  ghost function BlackHeight(t: Tree): nat
    requires RedBlack(t)
  {
    var n :| Bal(t, n);
    n
  }

  lemma {:induction false} StartBelow(t: Tree)
    requires RedBlack(t)
    ensures Placing(Top, t, BlackHeight(t))
  {}

  lemma {:induction false} PlacingBelow(c: Path, t: Tree, d: Dir, n: nat)
    requires t.N? && Placing(c, t, n)
    ensures t.color == Black ==> n >= 1
    ensures Placing(Below(c, t, d), Near(t, d), if t.color == Black then n - 1 else n)
  {}

  lemma {:induction false} PlacedLeaf(c: Path, id: nat, e: Entry, n: nat)
    requires Placing(c, Leaf, n)
    ensures Inserted(c, N(id, Red, e, Leaf, Leaf), 0)
  {}

  /** A red parent has a parent itself. */
  lemma {:induction false} RedParent(c: Path, t: Tree, n: nat)
    requires Inserted(c, t, n) && c.Under? && c.color == Red
    ensures c.up.Under? && c.up.color == Black
  {}

  /** When the parent is black, painting the root black finishes the insert. */
  lemma {:induction false} InsertDone(c: Path, t: Tree, n: nat)
    requires Inserted(c, t, n) && (c.Under? ==> c.color == Black)
    ensures Plug(c, t).N? && RedBlack(Painted(Plug(c, t), Black)) && Flat(Painted(Plug(c, t), Black)) == Whole(c, t)
    ensures Ids(Painted(Plug(c, t), Black)) == All(c, t)
  {
    WholePlug(c, t);
    PlugNode(c, t);
    if c.Top? {
      PaintedBlack(t, n);
    } else {
      PlugRedBlack(c, t, n);
      NoRedBlack(Plug(c, t));
    }
  }

  lemma {:induction false} PlugNode(c: Path, t: Tree)
    requires t.N? || c.Under?
    ensures Plug(c, t).N?
    decreases c
  {
    if c.Under? { PlugNode(c.up, Parent(c, t)); }
  }

  lemma {:induction false} NoRedBlack(t: Tree)
    requires ColorOf(t) == Black
    ensures Painted(t, Black) == t
  {}

  // ----- the rebalancing after a delete -----

  /** The position lacks one black node. */
  ghost predicate Short(c: Path, t: Tree, n: nat) {
    Bal(t, n) && NoRed(Painted(t, Black)) && PathBal(c, n + 1) && PathNoRed(c)
  }

  /** The sibling of a short position is a node. */
  lemma {:induction false} HasSibling(c: Path, t: Tree, n: nat)
    requires Short(c, t, n) && c.Under?
    ensures c.sib.N? && (c.sib.color == Red ==> c.color == Black)
  {}

  /** A red sibling is rotated above the parent. */
  lemma {:induction false} RedSibling(c: Path, t: Tree, n: nat)
    requires Short(c, t, n) && c.Under? && c.sib.N? && c.sib.color == Red
    ensures var w, d := c.sib, c.d;
            var q := Under(Under(c.up, d, w.id, Black, w.e, Far(w, d)), d, c.id, Red, c.e, Near(w, d));
            Short(q, t, n) && q.sib.N? && q.sib.color == Black
  {
    var w, d := c.sib, c.d;
    HasSibling(c, t, n);
    hide Bal, NoRed, PathBal, PathNoRed;
    PathParts(c, n + 1);
    TreeParts(w, d, n + 1);
    UnderOK(c.up, d, w.id, Black, w.e, Far(w, d), n + 1);
    var q := Under(c.up, d, w.id, Black, w.e, Far(w, d));
    UnderOK(q, d, c.id, Red, c.e, Near(w, d), n + 1);
    HasSibling(Under(q, d, c.id, Red, c.e, Near(w, d)), t, n);
  }

  /** A black sibling with black children turns red; the parent is short then, or red. */
  lemma {:induction false} BlackNephews(c: Path, t: Tree, n: nat)
    requires Short(c, t, n) && c.Under? && c.sib.N? && c.sib.color == Black && ColorOf(t) == Black
    requires ColorOf(c.sib.l) == Black && ColorOf(c.sib.r) == Black
    ensures Short(c.up, Mk(c.id, c.color, c.e, c.d, t, Painted(c.sib, Red)), Above(c.color, n))
  {
    var w := c.sib;
    NoRedBlack(t);
    hide Bal, NoRed, PathBal, PathNoRed;
    PathParts(c, n + 1);
    TreeParts(w, Left, n + 1);
    assert Painted(w, Red) == Mk(w.id, Red, w.e, Left, w.l, w.r);
    MkOK(w.id, Red, w.e, Left, w.l, w.r, n);
    MkOK(c.id, Black, c.e, c.d, t, Painted(w, Red), n);
    var p := Mk(c.id, c.color, c.e, c.d, t, Painted(w, Red));
    assert Painted(p, Black) == Mk(c.id, Black, c.e, c.d, t, Painted(w, Red));
    MkBal(c.id, c.color, c.e, c.d, t, Painted(w, Red), n);
  }

  lemma {:induction false} MkBal(id: nat, color: Color, e: Entry, d: Dir, a: Tree, b: Tree, n: nat)
    requires Bal(a, n) && Bal(b, n)
    ensures Bal(Mk(id, color, e, d, a, b), Above(color, n))
  {}

  /** The near nephew is red, the far one black: it is rotated above the sibling. */
  lemma {:induction false} NearNephew(c: Path, t: Tree, n: nat)
    requires Short(c, t, n) && c.Under? && c.sib.N? && c.sib.color == Black
    requires ColorOf(Far(c.sib, c.d)) == Black && Near(c.sib, c.d).N? && Near(c.sib, c.d).color == Red
    ensures var w, d := c.sib, c.d;
            var v := Near(w, d);
            var u := Mk(v.id, Black, v.e, d, Near(v, d), Mk(w.id, Red, w.e, d, Far(v, d), Far(w, d)));
            Short(c.(sib := u), t, n) && Far(u, d).N? && Far(u, d).color == Red
  {
    var w, d := c.sib, c.d;
    var v := Near(w, d);
    hide Bal, NoRed, PathBal, PathNoRed;
    PathParts(c, n + 1);
    TreeParts(w, d, n + 1);
    TreeParts(v, d, n);
    MkOK(w.id, Red, w.e, d, Far(v, d), Far(w, d), n);
    var u := Mk(v.id, Black, v.e, d, Near(v, d), Mk(w.id, Red, w.e, d, Far(v, d), Far(w, d)));
    MkOK(v.id, Black, v.e, d, Near(v, d), Mk(w.id, Red, w.e, d, Far(v, d), Far(w, d)), n);
    UnderOK(c.up, d, c.id, c.color, c.e, u, n + 1);
  }

  /** The far nephew is red: the sibling is rotated above the parent, and nothing is short. */
  lemma {:induction false} FarNephew(c: Path, t: Tree, n: nat)
    requires Short(c, t, n) && c.Under? && c.sib.N? && c.sib.color == Black && ColorOf(t) == Black
    requires Far(c.sib, c.d).N? && Far(c.sib, c.d).color == Red
    ensures var w, d := c.sib, c.d;
            var o := Mk(w.id, c.color, w.e, d, Mk(c.id, Black, c.e, d, t, Near(w, d)), Painted(Far(w, d), Black));
            && RedBlack(Plug(c.up, o))
  {
    var w, d := c.sib, c.d;
    NoRedBlack(t);
    hide Bal, NoRed, PathBal, PathNoRed, RedBlack;
    PathParts(c, n + 1);
    TreeParts(w, d, n + 1);
    PaintedBlack(Far(w, d), n);
    MkOK(c.id, Black, c.e, d, t, Near(w, d), n);
    var o := Mk(w.id, c.color, w.e, d, Mk(c.id, Black, c.e, d, t, Near(w, d)), Painted(Far(w, d), Black));
    MkOK(w.id, c.color, w.e, d, Mk(c.id, Black, c.e, d, t, Near(w, d)), Painted(Far(w, d), Black), n + 1);
    PlugRedBlack(c.up, o, Above(c.color, n + 1));
  }

  /** A short position that is red, or the root, is repaired by painting it black. */
  lemma {:induction false} ShortDone(c: Path, t: Tree, n: nat)
    requires Short(c, t, n) && (c.Top? || ColorOf(t) == Red)
    ensures RedBlack(Plug(c, Painted(t, Black))) && Flat(Plug(c, Painted(t, Black))) == Whole(c, t)
    ensures Ids(Plug(c, Painted(t, Black))) == All(c, t)
  {
    WholePlug(c, Painted(t, Black));
    assert Flat(Painted(t, Black)) == Flat(t);
    var m := if ColorOf(t) == Red then n + 1 else n;
    assert Bal(Painted(t, Black), m);
    PlugRedBlack(c, Painted(t, Black), m);
  }

  /** The order of the entries through the steps of case 3. */
  lemma {:induction false} FlatNephew(w: Tree, v: Tree, w1: Tree, w2: Tree, r: Tree, d: Dir)
    requires w.N? && Near(w, d).N? && v == Painted(Near(w, d), Black) && w1 == Parent(Below(Top, w, d), v)
    requires w2 == Painted(w1, Red) && r == RotatedTree(w2, Flip(d))
    ensures Flat(r) == Flat(w) && Ids(r) == Ids(w)
  {
    FlatRotated(w2, Flip(d));
    assert Flat(v) == Flat(Near(w, d));
    assert Flat(w2) == Flat(w1);
    FlatMk(w, d);
    FlatMk(w1, d);
  }

  lemma {:induction false} WholeSibling(c: Path, t: Tree, r: Tree)
    requires c.Under? && Flat(r) == Flat(c.sib)
    ensures Whole(c.(sib := r), t) == Whole(c, t)
    ensures Ids(r) == Ids(c.sib) ==> All(c.(sib := r), t) == All(c, t)
  {
    hide Whole;
    WholeParts(c.(sib := r), t);
    WholeParts(c, t);
  }

  /** The order of the entries through the steps of case 4. */
  lemma {:induction false} FlatRaised(c: Path, t: Tree, w1: Tree, w2: Tree, p2: Tree, o: Tree, d: Dir)
    requires c.Under? && c.sib.N? && c.d == d && w1 == Painted(c.sib, c.color) && Far(c.sib, d).N?
    requires w2 == Mk(w1.id, w1.color, w1.e, d, Near(w1, d), Painted(Far(c.sib, d), Black))
    requires p2 == Mk(c.id, Black, c.e, d, t, w2) && o == RotatedTree(p2, d)
    ensures Whole(c.up, o) == Whole(c, t) && All(c.up, o) == All(c, t)
  {
    assert Flat(Painted(Far(c.sib, d), Black)) == Flat(Far(c.sib, d));
    FlatMk(w2, d);
    FlatMk(c.sib, d);
    assert Flat(w2) == Flat(c.sib);
    var c2 := c.(color := Black, sib := w2);
    assert p2 == Parent(c2, t);
    hide Whole;
    WholeParts(c2, t);
    WholeParts(c, t);
    WholeUp(c2, t);
    FlatRotated(p2, d);
    WholeSame(c.up, p2, o);
    MkIds(c.sib.id, c.sib.color, c.sib.e, d, Near(c.sib, d), Far(c.sib, d));
    MkIds(c.sib.id, c.color, c.sib.e, d, Near(c.sib, d), Painted(Far(c.sib, d), Black));
    assert Ids(Painted(Far(c.sib, d), Black)) == Ids(Far(c.sib, d));
    assert Ids(w2) == Ids(c.sib);
    assert All(c2, t) == All(c, t);
  }

  /** The node the fake root leads to is the root, wherever the position is. */
  lemma {:induction false} TopChild(h: Heap, c: Path, t: Tree)
    requires At(h, c, t)
    ensures ROOT in h && h[ROOT].left == Id(Plug(c, t))
  {
    GoTop(h, c, t);
    hide At;
    Around(h, Top, Plug(c, t));
  }

  lemma {:induction false} RootColor(h: Heap, c: Path, t: Tree)
    requires At(h, c, t)
    ensures Id(t) in h && h[Id(t)].color == ColorOf(t)
  {
    RootStored(h, t, PathId(c));
  }

  /** The root of a finished tree is stored as black. */
  lemma {:induction false} RootIsBlack(h: Heap, c: Path, t: Tree, root: nat)
    requires At(h, c, t) && RedBlack(Plug(c, t))
    ensures c.Under? && root == OuterId(c) ==> root in h && h[root].color == Black
  {
    GoTop(h, c, t);
    PlugId(c, t);
    hide At;
    RootColor(h, Top, Plug(c, t));
  }

  // ----- removing an entry -----

  /** One entry with the given key is removed. */
  ghost predicate OneLess(s: seq<Entry>, t: seq<Entry>, key: int) {
    exists k :: 0 <= k < |s| && s[k].key == key && t == s[..k] + s[k + 1..]
  }

  lemma {:induction false} RemovedBetween(b: seq<Entry>, e: Entry, a: seq<Entry>)
    ensures OneLess(b + [e] + a, b + a, e.key)
    ensures Sorted(b + [e] + a) ==> Sorted(b + a)
  {
    var s := b + [e] + a;
    assert s[|b|] == e && s[..|b|] == b && s[|b| + 1..] == a;
    if Sorted(s) {
      forall i, j | 0 <= i < j < |b + a| ensures (b + a)[i].key <= (b + a)[j].key {
        var i', j' := if i < |b| then i else i + 1, if j < |b| then j else j + 1;
        assert s[i'] == (b + a)[i] && s[j'] == (b + a)[j];
      }
    }
  }

  /** Every position of a red-black tree can be continued downwards. */
  lemma {:induction false} Unplug(c: Path, t: Tree) returns (n: nat)
    requires RedBlack(Plug(c, t))
    ensures Placing(c, t, n)
    decreases c
  {
    if c.Top? {
      n := BlackHeight(t);
      StartBelow(t);
    } else {
      var m := Unplug(c.up, Parent(c, t));
      PlacingBelow(c.up, Parent(c, t), c.d, m);
      n := if c.color == Black then m - 1 else m;
    }
  }

  /** Taking a node out that has an empty child: a black one leaves its position short, a red one
      leaves the tree a red-black tree. */
  lemma {:induction false} TakeOut(c: Path, t: Tree, d: Dir, n: nat)
    requires Placing(c, t, n) && t.N? && Near(t, d).Leaf?
    ensures t.color == Black ==> n >= 1 && Short(c, Far(t, d), n - 1)
    ensures t.color == Red ==> RedBlack(Plug(c, Far(t, d)))
  {
    if t.color == Black {
      PaintedBlack(Far(t, d), n - 1);
    } else {
      PlugRedBlack(c, Far(t, d), n);
    }
  }

  /** `c` leads from `base` to the left, and only there. */
  ghost predicate LeftOf(c: Path, base: Path) {
    c == base || (c.Under? && c.d == Left && LeftOf(c.up, base))
  }

  /** Giving the node above the leftmost position another entry. */
  lemma {:induction false} LeftmostEntry(c: Path, base: Path, e: Entry)
    requires base.Under? && base.d == Right && LeftOf(c, base) && PathDistinct(c)
    ensures c.Under? && base.id in Ancestors(c)
    ensures Before(c) == Before(base.up) + Flat(base.sib) + [base.e]
    ensures Before(PathWith(c, base.id, e)) == Before(base.up) + Flat(base.sib) + [e]
    ensures After(PathWith(c, base.id, e)) == After(c)
    decreases c
  {
    if c != base {
      AncestorsIn(c.up);
      LeftmostEntry(c.up, base, e);
    }
  }

  lemma {:induction false} AncestorsIn(c: Path)
    ensures Ancestors(c) <= PathIds(c)
  {
    if c.Under? { AncestorsIn(c.up); }
  }

  /** Entries do not matter to the balance. */
  lemma {:induction false} PathWithBalanced(c: Path, id: nat, e: Entry, n: nat)
    ensures PathBal(PathWith(c, id, e), n) == PathBal(c, n) && PathNoRed(PathWith(c, id, e)) == PathNoRed(c)
    ensures PathId(PathWith(c, id, e)) == PathId(c) && PathWith(c, id, e).Under? == c.Under?
    ensures c.Under? ==> PathWith(c, id, e).color == c.color
    decreases c
  {
    if c.Under? && c.id != id {
      PathWithBalanced(c.up, id, e, if c.color == Black then n + 1 else n);
    }
  }

  // ----- the height -----

  function Pow2(n: nat): nat {
    if n == 0 then 1 else 2 * Pow2(n - 1)
  }

  lemma {:induction false} Pow2Sum(a: nat, b: nat)
    ensures Pow2(a + b) == Pow2(a) * Pow2(b)
  {
    if a > 0 {
      Pow2Sum(a - 1, b);
      assert Pow2(a + b) == 2 * Pow2(a - 1 + b);
    }
  }

  lemma {:induction false} Pow2Mono(a: nat, b: nat)
    requires a <= b
    ensures 1 <= Pow2(a) <= Pow2(b)
  {
    if b > 0 { Pow2Mono(if a < b then a else b - 1, b - 1); }
  }

  /** Red nodes at most double the depth, and the black ones fill the tree. */
  lemma {:induction false} DepthAndSize(t: Tree, n: nat)
    requires Bal(t, n) && NoRed(t)
    ensures Depth(t) <= 2 * n + if ColorOf(t) == Red then 1 else 0
    ensures Pow2(n) <= |Flat(t)| + 1
  {
    if t.N? {
      var m := if t.color == Black then n - 1 else n;
      DepthAndSize(t.l, m);
      DepthAndSize(t.r, m);
    }
  }

  /** The depth of a red-black tree with `k` entries is at most twice the logarithm of k + 1. */
  lemma {:induction false} DepthBound(t: Tree)
    requires RedBlack(t)
    ensures var k := |Flat(t)| + 1; Pow2(Depth(t)) <= k * k
  {
    var n := BlackHeight(t);
    DepthAndSize(t, n);
    Pow2Mono(Depth(t), n + n);
    Pow2Sum(n, n);
    Squares(Pow2(n), |Flat(t)| + 1);
  }

  lemma {:induction false} Squares(a: nat, b: nat)
    requires a <= b
    ensures a * a <= b * b
  {}

  // ----- deleting at a position -----

  lemma {:induction false} KeyInside(c: Path, t: Tree)
    requires t.N?
    ensures t.e in Whole(c, t) && HasKey(Whole(c, t), t.e.key)
  {
    assert Whole(c, t)[|Before(c)| + |Flat(t.l)|] == t.e;
  }

  /** Where a search ends without success there is no equal key. */
  lemma {:induction false} KeyOutside(c: Path, key: int)
    requires forall i :: 0 <= i < |Before(c)| ==> Before(c)[i].key < key
    requires forall i :: 0 <= i < |After(c)| ==> After(c)[i].key > key
    ensures !HasKey(Whole(c, Leaf), key)
  {
    assert Flat(Leaf) == [];
    assert Whole(c, Leaf) == Before(c) + After(c);
  }

  lemma {:induction false} FlatEnd(t: Tree, d: Dir)
    requires t.N? && Near(t, d).Leaf?
    ensures Flat(t) == if d == Left then [t.e] + Flat(Far(t, d)) else Flat(Far(t, d)) + [t.e]
  {
    FlatMk(t, d);
    assert Flat(Near(t, d)) == [];
  }

  lemma {:induction false} TakenHere(c: Path, t: Tree, d: Dir)
    requires t.N? && Near(t, d).Leaf?
    ensures OneLess(Whole(c, t), Whole(c, Far(t, d)), t.e.key)
    ensures Sorted(Whole(c, t)) ==> Sorted(Whole(c, Far(t, d)))
    ensures |Whole(c, t)| == |Whole(c, Far(t, d))| + 1
  {
    var f := Flat(Far(t, d));
    FlatEnd(t, d);
    hide Sorted, OneLess, Flat;
    if d == Left {
      assert Whole(c, t) == Before(c) + [t.e] + (f + After(c));
      assert Whole(c, Far(t, d)) == Before(c) + (f + After(c));
      RemovedBetween(Before(c), t.e, f + After(c));
    } else {
      assert Whole(c, t) == (Before(c) + f) + [t.e] + After(c);
      assert Whole(c, Far(t, d)) == (Before(c) + f) + After(c);
      RemovedBetween(Before(c) + f, t.e, After(c));
    }
  }

  /** One node is taken out of the tree. */
  lemma {:induction false} TakenNode(h: Heap, c: Path, t: Tree, d: Dir)
    requires At(h, c, t) && t.N? && Near(t, d).Leaf?
    ensures t.id in All(c, t) && All(c, Far(t, d)) == All(c, t) - {t.id}
  {
    assert Ids(t) == {t.id} + Ids(Far(t, d)) && t.id !in Ids(Far(t, d)) && t.id !in PathIds(c);
  }

  lemma {:induction false} PathWithIds(c: Path, id: nat, e: Entry)
    ensures PathIds(PathWith(c, id, e)) == PathIds(c)
    decreases c
  {
    if c.Under? && c.id != id { PathWithIds(c.up, id, e); }
  }

  lemma {:induction false} SameNodes(c: Path, id: nat, e: Entry, t: Tree)
    ensures All(PathWith(c, id, e), t) == All(c, t)
  {
    PathWithIds(c, id, e);
  }

  lemma {:induction false} PathsDistinct(h: Heap, c: Path, t: Tree)
    requires At(h, c, t)
    ensures PathDistinct(c)
  {}

  lemma {:induction false} EnterSpares(h: Heap, c: Path, t: Tree, id: nat, e: Entry)
    requires At(h, c, t) && id in Ancestors(c)
    ensures id in h && id !in Ids(t) && id != Id(t) && id != NILL
  {
    AncestorsIn(c);
    PathBig(c);
    PathStoresIds(h, c, Id(t));
    RootOf(t);
  }

  /** The path above the successor with the entry moved up is as short as before. */
  lemma {:induction false} PathWithTaken(c: Path, id: nat, e: Entry, t: Tree, n: nat)
    requires t.N? && (t.color == Black ==> n >= 1 && Short(c, t.r, n - 1))
    requires t.color == Red ==> RedBlack(Plug(c, t.r)) && Placing(c, t, n) && t.l.Leaf?
    ensures t.color == Black ==> Short(PathWith(c, id, e), t.r, n - 1)
    ensures t.color == Red ==> RedBlack(Plug(PathWith(c, id, e), t.r))
    ensures PathId(PathWith(c, id, e)) == PathId(c)
  {
    PathWithBalanced(c, id, e, n);
    if t.color == Red {
      PlugRedBlack(PathWith(c, id, e), t.r, n);
    }
  }

  /** The deleted entry is the one just before the successor's. */
  lemma {:induction false} TakenAbove(c: Path, c': Path, e: Entry, t: Tree, b: seq<Entry>)
    requires t.N? && t.l.Leaf? && Before(c) == b + [e] && Before(c') == b + [t.e] && After(c') == After(c)
    ensures OneLess(Whole(c, t), Whole(c', t.r), e.key)
    ensures Sorted(Whole(c, t)) ==> Sorted(Whole(c', t.r))
    ensures |Whole(c, t)| == |Whole(c', t.r)| + 1
  {
    hide Sorted, OneLess;
    var a := [t.e] + Flat(t.r) + After(c);
    assert Flat(t) == [t.e] + Flat(t.r);
    assert Whole(c, t) == b + [e] + a;
    assert Whole(c', t.r) == b + a;
    RemovedBetween(b, e, a);
  }
}
