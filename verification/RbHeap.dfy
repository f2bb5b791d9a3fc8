/** Red-black trees as the library stores them: nodes with parent pointers, one shared sentinel
    whose parent is scratch, and a fake root.  The nodes are an arena, a map from node addresses
    to their fields.

    A position in the tree is a subtree together with the path above it.  The algorithms move such
    a position and change nodes near it; the lemmas here say what stays true elsewhere.

    Source: openmpi-1.4.2/ompi/class/ompi_rb_tree.c and .h. */
module RbHeap {

  datatype Color = Red | Black

  datatype Entry = Entry(key: int, value: int)

  datatype Node = Node(color: Color, e: Entry, left: nat, right: nat, parent: nat)

  type Heap = map<nat, Node>

  /** The sentinel `nill` and the fake root `root_ptr`. */
  const NILL: nat := 0
  const ROOT: nat := 1

  /** The source writes every case twice, once per side; here the side is a parameter. */
  datatype Dir = Left | Right

  function Flip(d: Dir): Dir {
    if d == Left then Right else Left
  }

  function Child(n: Node, d: Dir): nat {
    if d == Left then n.left else n.right
  }

  function WithChild(n: Node, d: Dir, c: nat): Node {
    if d == Left then n.(left := c) else n.(right := c)
  }

  // ----- the tree that is stored -----

  datatype Tree = Leaf | N(id: nat, color: Color, e: Entry, l: Tree, r: Tree)

  function Id(t: Tree): nat {
    if t.Leaf? then NILL else t.id
  }

  function ColorOf(t: Tree): Color {
    if t.Leaf? then Black else t.color
  }

  /** A node with `near` on side `d` and `far` on the other side. */
  function Mk(id: nat, color: Color, e: Entry, d: Dir, near: Tree, far: Tree): Tree {
    if d == Left then N(id, color, e, near, far) else N(id, color, e, far, near)
  }

  function Near(t: Tree, d: Dir): Tree
    requires t.N?
  {
    if d == Left then t.l else t.r
  }

  function Far(t: Tree, d: Dir): Tree
    requires t.N?
  {
    Near(t, Flip(d))
  }

  /** The path above a position: on which side of its parent it is, the parent, the sibling. */
  datatype Path = Top | Under(up: Path, d: Dir, id: nat, color: Color, e: Entry, sib: Tree)

  function PathId(c: Path): nat {
    if c.Top? then ROOT else c.id
  }

  function Parent(c: Path, t: Tree): Tree
    requires c.Under?
  {
    Mk(c.id, c.color, c.e, c.d, t, c.sib)
  }

  /** The whole tree. */
  function Plug(c: Path, t: Tree): Tree {
    if c.Top? then t else Plug(c.up, Parent(c, t))
  }

  // ----- the nodes that store it -----

  function Ids(t: Tree): set<nat> {
    if t.Leaf? then {} else {t.id} + Ids(t.l) + Ids(t.r)
  }

  function PathIds(c: Path): set<nat> {
    if c.Top? then {} else {c.id} + Ids(c.sib) + PathIds(c.up)
  }

  /** The nodes of a tree are different ones. */
  ghost predicate Distinct(t: Tree) {
    t.N? ==>
      && t.id >= 2 && t.id !in Ids(t.l) && t.id !in Ids(t.r) && Ids(t.l) !! Ids(t.r)
      && Distinct(t.l) && Distinct(t.r)
  }

  ghost predicate PathDistinct(c: Path) {
    c.Under? ==>
      && c.id >= 2 && c.id !in Ids(c.sib) && c.id !in PathIds(c.up) && Ids(c.sib) !! PathIds(c.up)
      && Distinct(c.sib) && PathDistinct(c.up)
  }

  /** The nodes below parent `p` store the tree `t`. */
  ghost predicate Stores(h: Heap, t: Tree, p: nat) {
    t.N? ==>
      && t.id in h && h[t.id] == Node(t.color, t.e, Id(t.l), Id(t.r), p)
      && Stores(h, t.l, t.id) && Stores(h, t.r, t.id)
  }

  /** The nodes above a position store its path; `hole` is the node at the position. */
  ghost predicate PathStores(h: Heap, c: Path, hole: nat) {
    if c.Top? then ROOT in h && h[ROOT].left == hole
    else
      && c.id in h
      && h[c.id] == WithChild(WithChild(Node(c.color, c.e, 0, 0, PathId(c.up)), c.d, hole), Flip(c.d), Id(c.sib))
      && Stores(h, c.sib, c.id) && PathStores(h, c.up, c.id)
  }

  /** A position in a stored tree. */
  ghost predicate At(h: Heap, c: Path, t: Tree) {
    && Stores(h, t, PathId(c)) && PathStores(h, c, Id(t))
    && Distinct(t) && PathDistinct(c) && Ids(t) !! PathIds(c)
    && NILL in h && h[NILL].color == Black && ROOT in h && h[ROOT].color == Black
  }

  // ----- what does not change elsewhere -----

  lemma {:induction false} StoresIds(h: Heap, t: Tree, p: nat)
    requires Stores(h, t, p)
    ensures forall i :: i in Ids(t) ==> i in h
  {
    if t.N? {
      StoresIds(h, t.l, t.id);
      StoresIds(h, t.r, t.id);
    }
  }

  lemma {:induction false} StoresFrame(h: Heap, g: Heap, t: Tree, p: nat)
    requires Stores(h, t, p) && forall i :: i in Ids(t) ==> i in g && i in h && g[i] == h[i]
    ensures Stores(g, t, p)
  {
    if t.N? {
      StoresFrame(h, g, t.l, t.id);
      StoresFrame(h, g, t.r, t.id);
    }
  }

  lemma {:induction false} PathStoresIds(h: Heap, c: Path, hole: nat)
    requires PathStores(h, c, hole)
    ensures ROOT in h && forall i :: i in PathIds(c) ==> i in h
  {
    if c.Under? {
      StoresIds(h, c.sib, c.id);
      PathStoresIds(h, c.up, c.id);
    }
  }

  lemma {:induction false} PathFrame(h: Heap, g: Heap, c: Path, hole: nat)
    requires PathStores(h, c, hole) && forall i :: i in PathIds(c) && i in h ==> i in g && g[i] == h[i]
    requires ROOT in g && ROOT in h && g[ROOT].left == h[ROOT].left
    ensures PathStores(g, c, hole)
  {
    PathStoresIds(h, c, hole);
    if c.Under? {
      StoresFrame(h, g, c.sib, c.id);
      PathFrame(h, g, c.up, c.id);
    }
  }

  // ----- moving the position -----

  lemma {:induction false} MkIds(id: nat, color: Color, e: Entry, d: Dir, near: Tree, far: Tree)
    ensures Ids(Mk(id, color, e, d, near, far)) == {id} + Ids(near) + Ids(far)
  {}

  /** Up to the parent. */
  lemma {:induction false} GoUp(h: Heap, c: Path, t: Tree)
    requires At(h, c, t) && c.Under?
    ensures At(h, c.up, Parent(c, t)) && Plug(c.up, Parent(c, t)) == Plug(c, t)
  {
    MkIds(c.id, c.color, c.e, c.d, t, c.sib);
  }

  function PathLength(c: Path): nat {
    if c.Top? then 0 else 1 + PathLength(c.up)
  }

  /** The path of the child on side `d`. */
  function Below(c: Path, t: Tree, d: Dir): Path
    requires t.N?
  {
    Under(c, d, t.id, t.color, t.e, Far(t, d))
  }

  /** Down to a child. */
  lemma {:induction false} GoDown(h: Heap, c: Path, t: Tree, d: Dir)
    requires At(h, c, t) && t.N?
    ensures At(h, Below(c, t, d), Near(t, d)) && Plug(Below(c, t, d), Near(t, d)) == Plug(c, t)
  {}

  lemma {:induction false} GoTop(h: Heap, c: Path, t: Tree)
    requires At(h, c, t)
    ensures At(h, Top, Plug(c, t))
    decreases c
  {
    if c.Under? {
      GoUp(h, c, t);
      GoTop(h, c.up, Parent(c, t));
    }
  }

  lemma {:induction false} PlugIds(c: Path, t: Tree)
    ensures Ids(Plug(c, t)) == PathIds(c) + Ids(t)
    decreases c
  {
    if c.Under? {
      PlugIds(c.up, Parent(c, t));
      MkIds(c.id, c.color, c.e, c.d, t, c.sib);
    }
  }

  /** The fields of the nodes around a position. */
  lemma {:induction false} Around(h: Heap, c: Path, t: Tree)
    requires At(h, c, t)
    ensures NILL in h && ROOT in h && h[ROOT].color == Black && h[NILL].color == Black && PathId(c) in h
    ensures c.Top? ==> h[ROOT].left == Id(t)
    ensures c.Under? ==> h[c.id].color == c.color && h[c.id].e == c.e && h[c.id].parent == PathId(c.up) && c.id >= 2
                         && Child(h[c.id], c.d) == Id(t) && Child(h[c.id], Flip(c.d)) == Id(c.sib)
    ensures t.N? ==>
              t.id in h && h[t.id].color == t.color && h[t.id].e == t.e && h[t.id].parent == PathId(c) && t.id >= 2
                     && h[t.id].left == Id(t.l) && h[t.id].right == Id(t.r)
  {}

  /** The sentinel at a position is an empty subtree. */
  lemma {:induction false} EmptyAtSentinel(h: Heap, c: Path, t: Tree)
    requires At(h, c, t)
    ensures Id(t) == NILL <==> t.Leaf?
  {}

  // ----- changing nodes -----

  function SetColor(h: Heap, id: nat, color: Color): Heap
    requires id in h
  {
    h[id := h[id].(color := color)]
  }

  function Painted(t: Tree, color: Color): Tree {
    if t.Leaf? then t else t.(color := color)
  }

  lemma {:induction false} PaintHere(h: Heap, c: Path, t: Tree, color: Color)
    requires At(h, c, t) && t.N?
    ensures t.id in h && At(SetColor(h, t.id, color), c, Painted(t, color))
  {
    var g := SetColor(h, t.id, color);
    StoresIds(h, t.l, t.id);
    StoresIds(h, t.r, t.id);
    StoresFrame(h, g, t.l, t.id);
    StoresFrame(h, g, t.r, t.id);
    PathFrame(h, g, c, t.id);
  }

  lemma {:induction false} PaintParent(h: Heap, c: Path, t: Tree, color: Color)
    requires At(h, c, t) && c.Under?
    ensures c.id in h && At(SetColor(h, c.id, color), c.(color := color), t)
  {
    GoUp(h, c, t);
    PaintHere(h, c.up, Parent(c, t), color);
    hide At;
    GoDown(SetColor(h, c.id, color), c.up, Painted(Parent(c, t), color), c.d);
  }

  lemma {:induction false} PaintSibling(h: Heap, c: Path, t: Tree, color: Color)
    requires At(h, c, t) && c.Under? && c.sib.N?
    ensures c.sib.id in h && At(SetColor(h, c.sib.id, color), c.(sib := Painted(c.sib, color)), t)
  {
    hide At;
    var p, d := Parent(c, t), Flip(c.d);
    GoUp(h, c, t);
    GoDown(h, c.up, p, d);
    PaintHere(h, Below(c.up, p, d), c.sib, color);
    var g := SetColor(h, c.sib.id, color);
    GoUp(g, Below(c.up, p, d), Painted(c.sib, color));
    GoDown(g, c.up, Parent(c.(sib := Painted(c.sib, color)), t), c.d);
  }

  lemma {:induction false} PaintGrandparent(h: Heap, c: Path, t: Tree, color: Color)
    requires At(h, c, t) && c.Under? && c.up.Under?
    ensures c.up.id in h && At(SetColor(h, c.up.id, color), c.(up := c.up.(color := color)), t)
  {
    hide At;
    GoUp(h, c, t);
    PaintParent(h, c.up, Parent(c, t), color);
    GoDown(SetColor(h, c.up.id, color), c.up.(color := color), Parent(c, t), c.d);
  }

  /** The grandparent is known where the parent is, and on which side of it the parent is. */
  lemma {:induction false} AroundParent(h: Heap, c: Path, t: Tree)
    requires At(h, c, t) && c.Under? && c.up.Under?
    ensures c.up.id in h && h[c.id].parent == c.up.id && (c.id == h[c.up.id].left) == (c.up.d == Left)
    ensures Child(h[c.up.id], Flip(c.up.d)) == Id(c.up.sib) && Id(c.up.sib) in h
    ensures h[Id(c.up.sib)].color == ColorOf(c.up.sib)
  {
    hide At;
    GoUp(h, c, t);
    Around(h, c.up, Parent(c, t));
    Around(h, c, t);
    SideOfParent(h, c.up, Parent(c, t));
    AroundSibling(h, c.up, Parent(c, t));
  }

  lemma {:induction false} RootStored(h: Heap, t: Tree, p: nat)
    requires Stores(h, t, p) && NILL in h && h[NILL].color == Black
    ensures Id(t) in h && h[Id(t)].color == ColorOf(t)
    ensures t.N? ==> h[t.id].left == Id(t.l) && h[t.id].right == Id(t.r) && Stores(h, t.l, t.id) && Stores(h, t.r, t.id)
  {}

  lemma {:induction false} AroundSibling(h: Heap, c: Path, t: Tree)
    requires At(h, c, t) && c.Under?
    ensures c.id in h && Id(c.sib) in h && h[Id(c.sib)].color == ColorOf(c.sib)
    ensures Child(h[c.id], Flip(c.d)) == Id(c.sib)
    ensures c.sib.N? ==> h[c.sib.id].left == Id(c.sib.l) && h[c.sib.id].right == Id(c.sib.r)
    ensures c.sib.N? ==> Id(c.sib.l) in h && h[Id(c.sib.l)].color == ColorOf(c.sib.l)
    ensures c.sib.N? ==> Id(c.sib.r) in h && h[Id(c.sib.r)].color == ColorOf(c.sib.r)
  {
    RootStored(h, c.sib, c.id);
    if c.sib.N? {
      RootStored(h, c.sib.l, c.sib.id);
      RootStored(h, c.sib.r, c.sib.id);
    }
  }

  /** On which side of its parent a node is, if it is not the sentinel. */
  lemma {:induction false} SideOfNode(h: Heap, c: Path, t: Tree, d: Dir)
    requires At(h, c, t) && c.Under? && t.N?
    ensures c.id in h && (t.id == Child(h[c.id], d)) == (c.d == d)
  {
    SideOfParent(h, c, t);
    if c.sib.N? {
      assert c.sib.id in PathIds(c) && t.id in Ids(t);
    }
  }

  // ----- rotations -----

  /** The node that is below `x` on the side away from `d` takes the place of `x`. */
  function RotatedTree(t: Tree, d: Dir): Tree
    requires t.N? && Far(t, d).N?
  {
    var y := Far(t, d);
    Mk(y.id, y.color, y.e, d, Mk(t.id, t.color, t.e, d, Near(t, d), Near(y, d)), Far(y, d))
  }

  /** What a rotation needs of the nodes it touches. */
  predicate CanRotate(h: Heap, x: nat, d: Dir) {
    && x in h && h[x].parent in h
    && var y := Child(h[x], Flip(d));
       y in h && y != x && y != h[x].parent && x != h[x].parent
       && (Child(h[y], d) != NILL ==> Child(h[y], d) in h && Child(h[y], d) !in {x, y, h[x].parent})
  }

  /** The nodes after a rotation. */
  function Rotated(h: Heap, x: nat, d: Dir): Heap
    requires CanRotate(h, x, d)
  {
    var y := Child(h[x], Flip(d));
    var b := Child(h[y], d);
    var p := h[x].parent;
    var h1 := if b != NILL then h[b := h[b].(parent := x)] else h;
    var h2 := h1[p := WithChild(h1[p], if x == h1[p].left then Left else Right, y)];
    var h3 := h2[x := WithChild(h2[x].(parent := y), Flip(d), b)];
    h3[y := WithChild(h3[y].(parent := p), d, x)]
  }

  /** Field by field updates of two nodes. */
  lemma {:induction false} TwoNodes(h: Heap, x: nat, y: nat, d: Dir, p: nat, b: nat)
    requires x in h && y in h && x != y
    ensures var g1 := h[y := h[y].(parent := p)];
            var g2 := g1[x := g1[x].(parent := y)];
            var g3 := g2[x := WithChild(g2[x], Flip(d), b)];
            var g4 := g3[y := WithChild(g3[y], d, x)];
            var k := h[x := WithChild(h[x].(parent := y), Flip(d), b)];
            g4 == k[y := WithChild(k[y].(parent := p), d, x)]
  {}

  /** Replacing the node at the position changes one link above it. */
  lemma {:induction false} Relink(h: Heap, g: Heap, c: Path, x: nat, y: nat)
    requires PathStores(h, c, x) && PathDistinct(c) && ROOT in h && PathId(c) in g && ROOT in g
    requires forall i :: i in PathIds(c) && i in h && i != PathId(c) ==> i in g && g[i] == h[i]
    requires PathId(c) in h && g[PathId(c)] == WithChild(h[PathId(c)], if c.Top? then Left else c.d, y)
    requires c.Under? ==> g[ROOT].left == h[ROOT].left
    ensures PathStores(g, c, y)
  {
    if c.Under? {
      StoresIds(h, c.sib, c.id);
      StoresFrame(h, g, c.sib, c.id);
      PathStoresIds(h, c.up, c.id);
      PathFrame(h, g, c.up, c.id);
    }
  }

  lemma {:induction false} PathBig(c: Path)
    requires PathDistinct(c)
    ensures forall i :: i in PathIds(c) ==> i >= 2
  {
    if c.Under? {
      IdsBig(c.sib);
      PathBig(c.up);
    }
  }

  lemma {:induction false} IdsBig(t: Tree)
    requires Distinct(t)
    ensures forall i :: i in Ids(t) ==> i >= 2
  {
    if t.N? {
      IdsBig(t.l);
      IdsBig(t.r);
    }
  }

  /** The side of its parent on which the node at the position is. */
  lemma {:induction false} SideOfParent(h: Heap, c: Path, t: Tree)
    requires At(h, c, t) && t.N?
    ensures PathId(c) in h && h[t.id].parent == PathId(c)
    ensures (t.id == h[PathId(c)].left) == (c.Top? || c.d == Left)
  {
    if c.Under? && c.d == Right && c.sib.N? {
      assert c.sib.id in PathIds(c) && t.id in Ids(t);
    }
  }

  /** The parts of a tree that is about to be rotated: `t` is (a, x, (b, y, z)) seen from side `d`. */
  ghost predicate Parts(h: Heap, c: Path, t: Tree, y: Tree, a: Tree, b: Tree, z: Tree, d: Dir) {
    && t.N? && y.N? && t.id != y.id && t.id >= 2 && y.id >= 2
    && t == Mk(t.id, t.color, t.e, d, a, y) && y == Mk(y.id, y.color, y.e, d, b, z)
    && t.id in h && h[t.id] == WithChild(WithChild(Node(t.color, t.e, 0, 0, PathId(c)), d, Id(a)), Flip(d), y.id)
    && y.id in h && h[y.id] == WithChild(WithChild(Node(y.color, y.e, 0, 0, t.id), d, Id(b)), Flip(d), Id(z))
    && Stores(h, a, t.id) && Stores(h, b, y.id) && Stores(h, z, y.id)
    && Distinct(a) && Distinct(b) && Distinct(z)
    && Ids(a) !! Ids(b) && Ids(a) !! Ids(z) && Ids(b) !! Ids(z)
    && {t.id, y.id} !! Ids(a) && {t.id, y.id} !! Ids(b) && {t.id, y.id} !! Ids(z)
    && t.id !in PathIds(c) && y.id !in PathIds(c)
    && PathIds(c) !! Ids(a) && PathIds(c) !! Ids(b) && PathIds(c) !! Ids(z)
  }

  lemma {:induction false} GetParts(h: Heap, c: Path, t: Tree, d: Dir)
    requires At(h, c, t) && t.N? && Far(t, d).N?
    ensures var y := Far(t, d); Parts(h, c, t, y, Near(t, d), Near(y, d), Far(y, d), d)
  {
    var y := Far(t, d);
    assert Stores(h, y, t.id) && Distinct(y);
    var a, b, z := Near(t, d), Near(y, d), Far(y, d);
    assert Stores(h, a, t.id) && Stores(h, b, y.id) && Stores(h, z, y.id) && Distinct(a) && Distinct(b) && Distinct(z);
    MkIds(t.id, t.color, t.e, d, a, y);
    MkIds(y.id, y.color, y.e, d, b, z);
    assert Ids(t) == {t.id} + Ids(a) + Ids(y) && Ids(y) == {y.id} + Ids(b) + Ids(z);
    hide Stores, Ids, PathStores, PathIds;
  }

  lemma {:induction false} RootOf(t: Tree)
    ensures t.N? ==> t.id in Ids(t)
    ensures Distinct(t) ==> NILL !in Ids(t) && ROOT !in Ids(t)
  {
    if Distinct(t) { IdsBig(t); }
  }

  lemma {:induction false} PathRoot(c: Path)
    requires PathDistinct(c)
    ensures c.Under? ==> c.id in PathIds(c) && c.id >= 2
    ensures NILL !in PathIds(c) && ROOT !in PathIds(c)
  {
    PathBig(c);
  }

  lemma {:induction false} Rotatable(h: Heap, c: Path, t: Tree, d: Dir)
    requires At(h, c, t) && t.N? && Far(t, d).N?
    ensures CanRotate(h, t.id, d) && h[t.id].parent == PathId(c)
    ensures var y := Far(t, d); Child(h[t.id], Flip(d)) == y.id && Child(h[y.id], d) == Id(Near(y, d))
  {
    GetParts(h, c, t, d);
    SideOfParent(h, c, t);
    PathRoot(c);
    RootOf(Near(Far(t, d), d));
    assert Near(Far(t, d), d).N? ==> Near(Far(t, d), d).id in h;
    hide At, Stores, Ids, PathIds, Distinct, PathDistinct;
  }

  /** What a rotation leaves in each node. */
  predicate NodesRotated(h: Heap, g: Heap, x: nat, d: Dir)
    requires CanRotate(h, x, d)
  {
    var y, p := Child(h[x], Flip(d)), h[x].parent;
    var b := Child(h[y], d);
    && x in g && y in g && p in g
    && g[x] == WithChild(h[x].(parent := y), Flip(d), b)
    && g[y] == WithChild(h[y].(parent := p), d, x)
    && g[p] == WithChild(h[p], if x == h[p].left then Left else Right, y)
    && (b != NILL ==> b in g && g[b] == h[b].(parent := x))
    && forall i :: i in h && i != x && i != y && i != p && (b == NILL || i != b) ==> i in g && g[i] == h[i]
  }

  lemma {:induction false} RotatedNodes(h: Heap, x: nat, d: Dir)
    requires CanRotate(h, x, d)
    ensures NodesRotated(h, Rotated(h, x, d), x, d)
  {}

  /** Nodes outside `changed` keep their contents. */
  ghost predicate Keeps(h: Heap, g: Heap, changed: set<nat>) {
    forall i :: i in h && i !in changed ==> i in g && g[i] == h[i]
  }

  lemma {:induction false} StoresKept(h: Heap, g: Heap, t: Tree, p: nat, changed: set<nat>)
    requires Stores(h, t, p) && Ids(t) !! changed && Keeps(h, g, changed)
    ensures Stores(g, t, p)
  {
    StoresIds(h, t, p);
    StoresFrame(h, g, t, p);
  }

  /** Only the parent of the subtree that changes sides is different. */
  lemma {:induction false} Adopted(h: Heap, g: Heap, t: Tree, p: nat, q: nat, changed: set<nat>)
    requires Stores(h, t, p) && Distinct(t) && Keeps(h, g, changed + {Id(t)}) && Ids(t) !! changed
    requires t.N? ==> t.id in h && t.id in g && g[t.id] == h[t.id].(parent := q)
    ensures Stores(g, t, q)
  {
    if t.N? {
      StoresKept(h, g, t.l, t.id, changed + {t.id});
      StoresKept(h, g, t.r, t.id, changed + {t.id});
    }
  }

  lemma {:induction false} RotateBelow(h: Heap, g: Heap, c: Path, t: Tree, y: Tree, a: Tree, b: Tree, z: Tree, d: Dir)
    requires Parts(h, c, t, y, a, b, z, d) && CanRotate(h, t.id, d) && NodesRotated(h, g, t.id, d)
    requires PathId(c) !in Ids(a) + Ids(b) + Ids(z) + {t.id, y.id}
    ensures Stores(g, Mk(y.id, y.color, y.e, d, Mk(t.id, t.color, t.e, d, a, b), z), PathId(c))
    ensures Keeps(h, g, {t.id, y.id, PathId(c), Id(b)})
  {
    RootOf(a);
    RootOf(b);
    RootOf(z);
    hide Ids, Distinct;
    Adopted(h, g, b, y.id, t.id, {t.id, y.id, PathId(c)});
    StoresKept(h, g, a, t.id, {t.id, y.id, PathId(c), Id(b)});
    StoresKept(h, g, z, y.id, {t.id, y.id, PathId(c), Id(b)});
    assert Stores(g, Mk(t.id, t.color, t.e, d, a, b), y.id);
  }

  lemma {:induction false} RotateAbove(h: Heap, g: Heap, c: Path, t: Tree, y: Tree, a: Tree, b: Tree, z: Tree, d: Dir)
    requires Parts(h, c, t, y, a, b, z, d) && CanRotate(h, t.id, d) && NodesRotated(h, g, t.id, d)
    requires PathStores(h, c, t.id) && PathDistinct(c) && NILL in h && ROOT in h && PathId(c) in h
    requires (t.id == h[PathId(c)].left) == (c.Top? || c.d == Left)
    ensures PathStores(g, c, y.id)
    ensures NILL in g && g[NILL].color == h[NILL].color && ROOT in g && g[ROOT].color == h[ROOT].color
  {
    RootOf(b);
    PathRoot(c);
    hide Ids, Distinct, PathDistinct, Stores, PathStores, PathIds;
    Relink(h, g, c, t.id, y.id);
  }

  lemma {:induction false} RotatedDistinct(h: Heap, c: Path, t: Tree, y: Tree, a: Tree, b: Tree, z: Tree, d: Dir)
    requires Parts(h, c, t, y, a, b, z, d)
    ensures var o := Mk(y.id, y.color, y.e, d, Mk(t.id, t.color, t.e, d, a, b), z); Distinct(o) && Ids(o) !! PathIds(c)
  {
    MkIds(t.id, t.color, t.e, d, a, b);
    MkIds(y.id, y.color, y.e, d, Mk(t.id, t.color, t.e, d, a, b), z);
    hide Stores, Ids, PathIds;
    assert Distinct(Mk(t.id, t.color, t.e, d, a, b));
  }

  /** A rotation at the position. */
  lemma {:induction false} RotateHere(h: Heap, c: Path, t: Tree, d: Dir)
    requires At(h, c, t) && t.N? && Far(t, d).N?
    ensures CanRotate(h, t.id, d) && At(Rotated(h, t.id, d), c, RotatedTree(t, d))
  {
    var y := Far(t, d);
    var a, b, z := Near(t, d), Near(y, d), Far(y, d);
    GetParts(h, c, t, d);
    Rotatable(h, c, t, d);
    var g := Rotated(h, t.id, d);
    RotatedNodes(h, t.id, d);
    SideOfParent(h, c, t);
    PathRoot(c);
    RootOf(a);
    RootOf(b);
    RootOf(z);
    hide Rotated, CanRotate, NodesRotated, Stores, PathStores, Ids, PathIds, Distinct, PathDistinct;
    RotateBelow(h, g, c, t, y, a, b, z, d);
    RotateAbove(h, g, c, t, y, a, b, z, d);
    RotatedDistinct(h, c, t, y, a, b, z, d);
  }

  // ----- linking and unlinking -----

  /** A new node hangs below the parent. */
  function Linked(h: Heap, id: nat, n: Node, d: Dir): Heap
    requires n.parent in h
  {
    h[n.parent := WithChild(h[n.parent], d, id)][id := n]
  }

  function SideOf(c: Path): Dir {
    if c.Top? then Left else c.d
  }

  /** A leaf is replaced by a new red node. */
  lemma {:induction false} LinkHere(h: Heap, c: Path, id: nat, e: Entry)
    requires At(h, c, Leaf) && id >= 2 && id !in PathIds(c)
    ensures PathId(c) in h
    ensures At(Linked(h, id, Node(Red, e, NILL, NILL, PathId(c)), SideOf(c)), c, N(id, Red, e, Leaf, Leaf))
  {
    PathRoot(c);
    PathStoresIds(h, c, NILL);
    var g := Linked(h, id, Node(Red, e, NILL, NILL, PathId(c)), SideOf(c));
    Relink(h, g, c, NILL, id);
  }

  /** A node with one child at most is replaced by that child. */
  function Unlinked(h: Heap, id: nat, y: nat, d: Dir): Heap
    requires id in h && h[id].parent in h && y in h && y != h[id].parent
  {
    h[y := h[y].(parent := h[id].parent)][h[id].parent := WithChild(h[h[id].parent], d, y)]
  }

  lemma {:induction false} UnlinkHere(h: Heap, c: Path, t: Tree, d: Dir)
    requires At(h, c, t) && t.N? && Near(t, d).Leaf?
    ensures t.id in h && h[t.id].parent == PathId(c) && PathId(c) in h && Id(Far(t, d)) in h
    ensures Id(Far(t, d)) != PathId(c)
    ensures At(Unlinked(h, t.id, Id(Far(t, d)), SideOf(c)), c, Far(t, d))
    ensures Unlinked(h, t.id, Id(Far(t, d)), SideOf(c))[NILL].parent == if Far(t, d).Leaf? then PathId(c)
              else h[NILL].parent
  {
    var y := Far(t, d);
    SideOfParent(h, c, t);
    PathRoot(c);
    RootOf(t);
    RootOf(y);
    assert Stores(h, y, t.id) && Distinct(y);
    MkIds(t.id, t.color, t.e, d, Near(t, d), y);
    assert Ids(t) == {t.id} + Ids(Near(t, d)) + Ids(y);
    PathStoresIds(h, c, t.id);
    StoresIds(h, y, t.id);
    var g := Unlinked(h, t.id, Id(y), SideOf(c));
    hide Stores, PathStores, Ids, PathIds, Distinct, PathDistinct;
    Adopted(h, g, y, t.id, PathId(c), {PathId(c)});
    Relink(h, g, c, t.id, Id(y));
  }

  // ----- replacing an entry -----

  function SetEntry(h: Heap, id: nat, e: Entry): Heap
    requires id in h
  {
    h[id := h[id].(e := e)]
  }

  lemma {:induction false} EnterHere(h: Heap, c: Path, t: Tree, e: Entry)
    requires At(h, c, t) && t.N?
    ensures t.id in h && At(SetEntry(h, t.id, e), c, t.(e := e))
  {
    var g := SetEntry(h, t.id, e);
    StoresIds(h, t.l, t.id);
    StoresIds(h, t.r, t.id);
    StoresFrame(h, g, t.l, t.id);
    StoresFrame(h, g, t.r, t.id);
    PathFrame(h, g, c, t.id);
  }

  /** The ancestors of a position. */
  function Ancestors(c: Path): set<nat> {
    if c.Top? then {} else {c.id} + Ancestors(c.up)
  }

  /** The path with another entry in one of its nodes. */
  function PathWith(c: Path, id: nat, e: Entry): Path {
    if c.Top? then c
    else if c.id == id then c.(e := e)
    else c.(up := PathWith(c.up, id, e))
  }

  lemma {:induction false} EnterAbove(h: Heap, c: Path, t: Tree, id: nat, e: Entry)
    requires At(h, c, t) && id in Ancestors(c)
    ensures id in h && At(SetEntry(h, id, e), PathWith(c, id, e), t)
    decreases c
  {
    hide At;
    GoUp(h, c, t);
    if c.id == id {
      EnterHere(h, c.up, Parent(c, t), e);
      GoDown(SetEntry(h, id, e), c.up, Parent(c, t).(e := e), c.d);
    } else {
      EnterAbove(h, c.up, Parent(c, t), id, e);
      GoDown(SetEntry(h, id, e), PathWith(c.up, id, e), Parent(c, t), c.d);
    }
  }

  // ----- the root of the whole tree -----

  function OuterId(c: Path): nat
    requires c.Under?
  {
    if c.up.Top? then c.id else OuterId(c.up)
  }

  lemma {:induction false} PlugId(c: Path, t: Tree)
    ensures Id(Plug(c, t)) == if c.Top? then Id(t) else OuterId(c)
    decreases c
  {
    if c.Under? { PlugId(c.up, Parent(c, t)); }
  }

  lemma {:induction false} OuterIn(c: Path)
    requires c.Under?
    ensures OuterId(c) in PathIds(c)
  {
    if c.up.Under? { OuterIn(c.up); }
  }

  /** Only at the root is a node the root. */
  lemma {:induction false} RootIsTop(h: Heap, c: Path, t: Tree)
    requires At(h, c, t) && Id(t) == Id(Plug(c, t))
    ensures c.Top?
  {
    PlugId(c, t);
    PathBig(c);
    if c.Under? { OuterIn(c); RootOf(t); }
  }

  /** A rotation leaves the sentinel alone. */
  lemma {:induction false} RotationSparesSentinel(h: Heap, c: Path, t: Tree, d: Dir)
    requires At(h, c, t) && t.N? && Far(t, d).N?
    ensures CanRotate(h, t.id, d) && NILL in h && NILL in Rotated(h, t.id, d) && Rotated(h, t.id, d)[NILL] == h[NILL]
  {
    GetParts(h, c, t, d);
    Rotatable(h, c, t, d);
    PathRoot(c);
    RotatedNodes(h, t.id, d);
    hide Stores, PathStores, Ids, PathIds, Distinct, PathDistinct, Rotated;
  }

  /** On which side a position is whose sibling is a node. */
  lemma {:induction false} SideOfShort(h: Heap, c: Path, t: Tree)
    requires At(h, c, t) && c.Under? && c.sib.N?
    ensures c.id in h && (Id(t) == h[c.id].left) == (c.d == Left)
  {
    PathBig(c);
    if t.N? { SideOfNode(h, c, t, Left); }
  }
}
