/** The red-black tree of the memory pools: lookup, insert and delete on nodes with parent pointers.

    Source: openmpi-1.4.2/ompi/class/ompi_rb_tree.c. */
module RbTree {
  import opened RbHeap
  import opened RbSpec

  class RbTree {
    var nodes: Heap
    var treeSize: int
    ghost var tree: Tree

    ghost predicate Valid()
      reads this
    {
      At(nodes, Top, tree) && RedBlack(tree) && Sorted(Flat(tree)) && treeSize == |Flat(tree)|
    }

    /** The entries in order. */
    ghost function Contents(): seq<Entry>
      reads this
    {
      Flat(tree)
    }

    /** `ompi_rb_tree_init`. */
    constructor ()
      ensures Valid() && Contents() == []
    {
      nodes := map[NILL := Node(Black, Entry(0, 0), NILL, NILL, NILL),
                   ROOT := Node(Black, Entry(0, 0), NILL, NILL, NILL)];
      treeSize := 0;
      tree := Leaf;
      new;
      assert Bal(Leaf, 0);
    }

    // ----- single node updates -----

    method Paint(id: nat, color: Color)
      requires id in nodes
      modifies this`nodes
      ensures nodes == SetColor(old(nodes), id, color)
    {
      nodes := nodes[id := nodes[id].(color := color)];
    }

    /** `left_rotate` and `right_rotate`. */
    method Rotate(x: nat, d: Dir, ghost c: Path, ghost t: Tree)
      requires At(nodes, c, t) && t.N? && t.id == x && Far(t, d).N?
      modifies this`nodes
      ensures At(nodes, c, RotatedTree(t, d)) && NILL in nodes && NILL in old(nodes) && nodes[NILL] == old(nodes)[NILL]
    {
      RotationSparesSentinel(nodes, c, t, d);
      RotateHere(nodes, c, t, d);
      Rotatable(nodes, c, t, d);
      hide At;
      ghost var h := nodes;
      var y := Child(nodes[x], Flip(d));
      var below := Child(nodes[y], d);
      if below != NILL {
        nodes := nodes[below := nodes[below].(parent := x)];
      }
      var p := nodes[x].parent;
      if x == nodes[p].left {
        nodes := nodes[p := nodes[p].(left := y)];
      } else {
        nodes := nodes[p := nodes[p].(right := y)];
      }
      TwoNodes(nodes, x, y, d, p, below);
      nodes := nodes[y := nodes[y].(parent := p)];
      nodes := nodes[x := nodes[x].(parent := y)];
      nodes := nodes[x := WithChild(nodes[x], Flip(d), below)];
      nodes := nodes[y := WithChild(nodes[y], d, x)];
      assert nodes == Rotated(h, x, d);
    }

    // ----- lookup -----

    /** `ompi_rb_tree_find_with` and `ompi_rb_tree_find_node`: the node of an entry with an equal
        key, or the sentinel. */
    method FindNode(key: int) returns (node: nat, ghost c: Path, ghost t: Tree, ghost visits: nat)
      requires Valid()
      ensures At(nodes, c, t) && Plug(c, t) == tree && Id(t) == node
      ensures t.N? <==> node != NILL
      ensures node != NILL <==> HasKey(Contents(), key)
      ensures node != NILL ==> node in nodes && nodes[node].e == t.e && nodes[node].e.key == key
      ensures visits <= Depth(tree)
    {
      node := nodes[ROOT].left;
      c, t, visits := Top, tree, 0;
      while node != NILL
        invariant At(nodes, c, t) && Plug(c, t) == tree && Id(t) == node
        invariant forall i :: 0 <= i < |Before(c)| ==> Before(c)[i].key < key
        invariant forall i :: 0 <= i < |After(c)| ==> After(c)[i].key > key
        invariant visits + Depth(t) <= Depth(tree)
        decreases t
      {
        visits := visits + 1;
        if key == nodes[node].e.key {
          WholePlug(c, t);
          KeyInside(c, t);
          return;
        }
        ghost var d := if key < t.e.key then Left else Right;
        WholePlug(c, t);
        Sides(c, t);
        GoDown(nodes, c, t, d);
        node := if key < nodes[node].e.key then nodes[node].left else nodes[node].right;
        c, t := Below(c, t, d), Near(t, d);
      }
      WholePlug(c, t);
      KeyOutside(c, key);
    }

    // ----- insert -----

    /** `btree_insert`: the new node becomes a red leaf; equal keys go to the left. */
    method PlaceLeaf(item: nat, e: Entry) returns (ghost c: Path)
      requires Valid() && item >= 2 && item !in Ids(tree)
      modifies this`nodes, this`treeSize
      ensures At(nodes, c, N(item, Red, e, Leaf, Leaf)) && Inserted(c, N(item, Red, e, Leaf, Leaf), 0)
      ensures Before(c) + After(c) == Contents() && Sorted(Before(c) + [e] + After(c)) && treeSize == old(treeSize) + 1
      ensures All(c, N(item, Red, e, Leaf, Leaf)) == old(Ids(tree)) + {item}
    {
      hide At, Bal, NoRed, PathBal, PathNoRed, Sorted, All;
      var parent := ROOT;
      Around(nodes, Top, tree);
      var n := nodes[ROOT].left;
      ghost var t, m: nat := tree, BlackHeight(tree);
      c := Top;
      StartBelow(tree);
      while n != NILL
        invariant At(nodes, c, t) && Plug(c, t) == tree && Id(t) == n && PathId(c) == parent
        invariant forall i :: 0 <= i < |Before(c)| ==> Before(c)[i].key < e.key
        invariant forall i :: 0 <= i < |After(c)| ==> e.key <= After(c)[i].key
        invariant nodes == old(nodes) && treeSize == old(treeSize)
        invariant Placing(c, t, m) && (c.Under? ==> (c.d == Left <==> e.key <= c.e.key))
        decreases t
      {
        parent := n;
        ghost var d := if e.key <= t.e.key then Left else Right;
        Around(nodes, c, t);
        WholePlug(c, t);
        Sides(c, t);
        GoDown(nodes, c, t, d);
        PlacingBelow(c, t, d, m);
        n := if e.key <= nodes[n].e.key then nodes[n].left else nodes[n].right;
        m := if t.color == Black then m - 1 else m;
        c, t := Below(c, t, d), Near(t, d);
      }
      EmptyAtSentinel(nodes, c, t);
      Around(nodes, c, t);
      LeafPlaced(c, item, e);
      LinkHere(nodes, c, item, e);
      PlacedLeaf(c, item, e, m);
      var side := if parent == ROOT || e.key <= nodes[parent].e.key then Left else Right;
      nodes := nodes[parent := WithChild(nodes[parent], side, item)];
      nodes := nodes[item := Node(Red, e, NILL, NILL, parent)];
      treeSize := treeSize + 1;
    }

    /** A red uncle: parent, uncle and grandparent change colors. */
    method Recolor(node: nat, d: Dir, ghost c: Path, ghost t: Tree, ghost n: nat) returns (ghost u: Path, ghost o: Tree)
      requires At(nodes, c, t) && Inserted(c, t, n) && t.N? && t.id == node && c.Under? && c.color == Red && c.up.Under?
      requires c.up.d == d
      requires ColorOf(c.up.sib) == Red
      modifies this`nodes
      ensures At(nodes, u, o) && Inserted(u, o, n + 1) && Whole(u, o) == Whole(c, t) && All(u, o) == All(c, t)
      ensures u == c.up.up && o.N? && o.id == c.up.id
    {
      hide At, Inserted, Whole, All;
      Around(nodes, c, t);
      AroundParent(nodes, c, t);
      ghost var g := c.up;
      ghost var p := Mk(c.id, Black, c.e, c.d, t, c.sib);
      ghost var g' := g.(sib := Painted(g.sib, Black));
      ghost var g'' := g'.(color := Red);
      RedUncle(c, t, n);
      var parent := nodes[node].parent;
      var grandparent := nodes[parent].parent;
      var uncle := Child(nodes[grandparent], Flip(d));
      PaintParent(nodes, c, t, Black);
      Paint(parent, Black);
      GoUp(nodes, c.(color := Black), t);
      PaintSibling(nodes, g, p, Black);
      Paint(uncle, Black);
      PaintParent(nodes, g', p, Red);
      Paint(grandparent, Red);
      GoUp(nodes, g'', p);
      u, o := g.up, Parent(g'', p);
      WholeColors(c, t, Black, ColorOf(c.sib));
      WholeUp(c.(color := Black), t);
      WholeColors(g, p, Red, Black);
      WholeUp(g'', p);
    }

    /** An inner node is rotated to the outside. */
    method RotateInner(node: nat, d: Dir, ghost c: Path, ghost t: Tree, ghost n: nat)
      returns (lower: nat, ghost u: Path, ghost o: Tree)
      requires At(nodes, c, t) && Inserted(c, t, n) && t.N? && t.id == node && c.Under? && c.color == Red && c.up.Under?
      requires c.up.d == d && c.d != d
      modifies this`nodes
      ensures At(nodes, u, o) && Inserted(u, o, n) && Whole(u, o) == Whole(c, t) && All(u, o) == All(c, t) && o.N?
      ensures o.id == lower
      ensures u.Under? && u.d == d && u.color == Red && u.up == c.up
    {
      hide At, Whole, All;
      Around(nodes, c, t);
      InnerToOuter(c, t, n);
      hide Inserted;
      GoUp(nodes, c, t);
      WholeUp(c, t);
      ghost var p := Parent(c, t);
      lower := nodes[node].parent;
      Rotate(lower, d, c.up, p);
      FlatRotated(p, d);
      ghost var r := RotatedTree(p, d);
      WholeSame(c.up, p, r);
      GoDown(nodes, c.up, r, d);
      WholeDown(c.up, r, d);
      u, o := Below(c.up, r, d), Near(r, d);
    }

    /** An outer node: the grandparent is rotated below the parent. */
    method RotateOuter(node: nat, d: Dir, ghost c: Path, ghost t: Tree, ghost n: nat) returns (ghost u: Path)
      requires At(nodes, c, t) && Inserted(c, t, n) && t.N? && t.id == node && c.Under? && c.color == Red && c.up.Under?
      requires c.up.d == d && c.d == d
      requires ColorOf(c.up.sib) == Black
      modifies this`nodes
      ensures At(nodes, u, t) && Inserted(u, t, n) && Whole(u, t) == Whole(c, t) && All(u, t) == All(c, t) && u.Under?
      ensures u.color == Black && u.up == c.up.up
    {
      hide At, Whole, All;
      Around(nodes, c, t);
      AroundParent(nodes, c, t);
      OuterDone(c, t, n);
      hide Inserted;
      ghost var g := c.up;
      ghost var c' := c.(color := Black);
      ghost var c'' := c'.(up := g.(color := Red));
      var parent := nodes[node].parent;
      var grandparent := nodes[parent].parent;
      PaintParent(nodes, c, t, Black);
      Paint(parent, Black);
      PaintGrandparent(nodes, c', t, Red);
      Paint(grandparent, Red);
      GoUp(nodes, c'', t);
      ghost var p := Parent(c'', t);
      GoUp(nodes, c''.up, p);
      ghost var q := Parent(c''.up, p);
      Rotate(grandparent, Flip(d), g.up, q);
      ghost var r := RotatedTree(q, Flip(d));
      GoDown(nodes, g.up, r, d);
      u := Below(g.up, r, d);
      WholeColors(c, t, Black, ColorOf(c.sib));
      WholeUp(c', t);
      WholeColors(g, p, Red, ColorOf(g.sib));
      WholeUp(c''.up, p);
      FlatRotated(q, Flip(d));
      WholeSame(g.up, q, r);
      WholeDown(g.up, r, d);
    }

    /** The rebalancing loop of an insert. */
    method InsertFixup(item: nat, ghost c0: Path, ghost t0: Tree)
      requires At(nodes, c0, t0) && Inserted(c0, t0, 0) && t0.N? && t0.id == item
      modifies this`nodes, this`tree
      ensures At(nodes, Top, tree) && RedBlack(tree) && Flat(tree) == Whole(c0, t0) && Ids(tree) == All(c0, t0)
    {
      hide At, Inserted, Whole, All, RedBlack;
      var node := item;
      ghost var c, t, n: nat := c0, t0, 0;
      Around(nodes, c, t);
      while nodes[nodes[node].parent].color == Red
        invariant At(nodes, c, t) && Inserted(c, t, n) && t.N? && t.id == node && Whole(c, t) == Whole(c0, t0)
        invariant All(c, t) == All(c0, t0)
        invariant node in nodes && nodes[node].parent == PathId(c) && PathId(c) in nodes
        invariant nodes[PathId(c)].color == if c.Top? then Black else c.color
        decreases PathLength(c)
      {
        Around(nodes, c, t);
        RedParent(c, t, n);
        AroundParent(nodes, c, t);
        assert PathLength(c) == 1 + PathLength(c.up) == 2 + PathLength(c.up.up);
        var parent := nodes[node].parent;
        var grandparent := nodes[parent].parent;
        var d := if parent == nodes[grandparent].left then Left else Right;
        var y := Child(nodes[grandparent], Flip(d));
        if nodes[y].color == Red {
          c, t := Recolor(node, d, c, t, n);
          n := n + 1;
          node := grandparent;
        } else {
          SideOfNode(nodes, c, t, Flip(d));
          if node == Child(nodes[parent], Flip(d)) {
            node, c, t := RotateInner(node, d, c, t, n);
          }
          c := RotateOuter(node, d, c, t, n);
        }
        Around(nodes, c, t);
      }
      Around(nodes, c, t);
      InsertDone(c, t, n);
      GoTop(nodes, c, t);
      tree := Plug(c, t);
      Around(nodes, Top, tree);
      PaintHere(nodes, Top, tree, Black);
      Paint(nodes[ROOT].left, Black);
      tree := Painted(tree, Black);
    }

    /** `ompi_rb_tree_insert`.  A node comes from the free list, or there is none. */
    method Insert(supplied: bool, item: nat, key: int, value: int) returns (ok: bool)
      requires Valid() && item >= 2 && item !in Ids(tree)
      modifies this
      ensures Valid() && ok == supplied
      ensures !ok ==> unchanged(this)
      ensures ok ==> OneMore(old(Contents()), Contents(), Entry(key, value)) && Ids(tree) == old(Ids(tree)) + {item}
    {
      if !supplied {
        return false;
      }
      hide At, Inserted, RedBlack, Sorted;
      ghost var c := PlaceLeaf(item, Entry(key, value));
      ghost var t := N(item, Red, Entry(key, value), Leaf, Leaf);
      assert Flat(t) == [Entry(key, value)];
      assert Whole(c, t) == Before(c) + [Entry(key, value)] + After(c);
      InsertFixup(item, c, t);
      AddedBetween(Before(c), Entry(key, value), After(c));
      ok := true;
    }

    // ----- delete -----

    /** A position during the rebalancing after a delete: the parent is found even from the
        sentinel, whose parent field serves as scratch. */
    ghost predicate Fixing(x: nat, c: Path, t: Tree, n: nat)
      reads this
    {
      At(nodes, c, t) && Id(t) == x && Short(c, t, n) && x in nodes && nodes[x].parent == PathId(c)
    }

    /** Case 1: a red sibling is rotated above the parent. */
    method LiftSibling(x: nat, d: Dir, ghost c: Path, ghost t: Tree, ghost n: nat) returns (ghost q: Path)
      requires Fixing(x, c, t, n) && c.Under? && c.d == d && c.sib.N? && c.sib.color == Red
      modifies this`nodes
      ensures Fixing(x, q, t, n) && q.Under? && q.d == d && q.sib.N? && q.sib.color == Black && q.color == Red
      ensures q.id == c.id && q.up.Under? && q.up.up == c.up && Whole(q, t) == Whole(c, t) && All(q, t) == All(c, t)
    {
      hide At, Short, Whole, All;
      Around(nodes, c, t);
      AroundSibling(nodes, c, t);
      HasSibling(c, t, n);
      RedSibling(c, t, n);
      ghost var w := c.sib;
      ghost var c' := c.(sib := Painted(w, Black));
      ghost var c'' := c'.(color := Red);
      var parent := nodes[x].parent;
      PaintSibling(nodes, c, t, Black);
      Paint(Child(nodes[parent], Flip(d)), Black);
      PaintParent(nodes, c', t, Red);
      Paint(parent, Red);
      GoUp(nodes, c'', t);
      ghost var p := Parent(c'', t);
      Rotate(parent, d, c.up, p);
      ghost var r := RotatedTree(p, d);
      GoDown(nodes, c.up, r, d);
      ghost var k := Below(c.up, r, d);
      GoDown(nodes, k, Near(r, d), d);
      q := Below(k, Near(r, d), d);
      WholeColors(c, t, Red, Black);
      WholeUp(c'', t);
      FlatRotated(p, d);
      WholeSame(c.up, p, r);
      WholeDown(c.up, r, d);
      WholeDown(k, Near(r, d), d);
      Around(nodes, q, t);
    }

    /** Case 2: a black sibling with black children turns red. */
    method ShortenSibling(x: nat, d: Dir, ghost c: Path, ghost t: Tree, ghost n: nat)
      returns (parent: nat, ghost o: Tree, ghost m: nat)
      requires Fixing(x, c, t, n) && c.Under? && c.d == d && c.sib.N? && c.sib.color == Black && ColorOf(t) == Black
      requires ColorOf(c.sib.l) == Black && ColorOf(c.sib.r) == Black
      modifies this`nodes
      ensures Fixing(parent, c.up, o, m) && parent == c.id && ColorOf(o) == c.color && Whole(c.up, o) == Whole(c, t)
      ensures All(c.up, o) == All(c, t)
    {
      hide At, Short, Whole, All;
      Around(nodes, c, t);
      AroundSibling(nodes, c, t);
      BlackNephews(c, t, n);
      ghost var c' := c.(sib := Painted(c.sib, Red));
      PaintSibling(nodes, c, t, Red);
      Paint(Child(nodes[nodes[x].parent], Flip(d)), Red);
      Around(nodes, c', t);
      parent := nodes[x].parent;
      GoUp(nodes, c', t);
      o, m := Parent(c', t), Above(c.color, n);
      WholeColors(c, t, c.color, Red);
      WholeUp(c', t);
      Around(nodes, c.up, o);
    }

    /** Case 3: the near nephew is rotated above the sibling. */
    method TurnNephew(x: nat, d: Dir, ghost c: Path, ghost t: Tree, ghost n: nat) returns (ghost q: Path)
      requires Fixing(x, c, t, n) && c.Under? && c.d == d && c.sib.N? && c.sib.color == Black && ColorOf(t) == Black
      requires ColorOf(Far(c.sib, d)) == Black && ColorOf(Near(c.sib, d)) == Red
      modifies this`nodes
      ensures Fixing(x, q, t, n) && q.Under? && q.d == d && q.sib.N? && q.sib.color == Black
      ensures ColorOf(Far(q.sib, d)) == Red
      ensures q.id == c.id && q.up == c.up && q.color == c.color && Whole(q, t) == Whole(c, t) && All(q, t) == All(c, t)
    {
      hide At, Short, Whole, All;
      Around(nodes, c, t);
      AroundSibling(nodes, c, t);
      NearNephew(c, t, n);
      ghost var w := c.sib;
      var sibling := Child(nodes[nodes[x].parent], Flip(d));
      GoUp(nodes, c, t);
      ghost var p := Parent(c, t);
      GoDown(nodes, c.up, p, Flip(d));
      ghost var k := Below(c.up, p, Flip(d));
      GoDown(nodes, k, w, d);
      PaintHere(nodes, Below(k, w, d), Near(w, d), Black);
      Paint(Child(nodes[sibling], d), Black);
      ghost var v := Painted(Near(w, d), Black);
      GoUp(nodes, Below(k, w, d), v);
      ghost var w' := Parent(Below(k, w, d), v);
      PaintHere(nodes, k, w', Red);
      Paint(sibling, Red);
      ghost var w'' := Painted(w', Red);
      Rotate(sibling, Flip(d), k, w'');
      ghost var r := RotatedTree(w'', Flip(d));
      GoUp(nodes, k, r);
      q := c.(sib := r);
      GoDown(nodes, c.up, Parent(k, r), d);
      FlatNephew(w, v, w', w'', r, d);
      WholeSibling(c, t, r);
      Around(nodes, q, t);
    }

    /** Case 4: the sibling is rotated above the parent and the far nephew turns black. */
    method RaiseSibling(x: nat, d: Dir, ghost c: Path, ghost t: Tree, ghost n: nat) returns (ghost o: Tree)
      requires Fixing(x, c, t, n) && c.Under? && c.d == d && c.sib.N? && c.sib.color == Black && ColorOf(t) == Black
      requires ColorOf(Far(c.sib, d)) == Red
      modifies this`nodes
      ensures At(nodes, c.up, o) && RedBlack(Plug(c.up, o)) && Whole(c.up, o) == Whole(c, t)
      ensures All(c.up, o) == All(c, t)
      ensures c.id in nodes && nodes[c.id].color == Black
    {
      hide At, Short, Whole, All, RedBlack;
      Around(nodes, c, t);
      AroundSibling(nodes, c, t);
      FarNephew(c, t, n);
      ghost var w := c.sib;
      var parent := nodes[x].parent;
      var sibling := Child(nodes[parent], Flip(d));
      ghost var c1 := c.(sib := Painted(w, c.color));
      ghost var c2 := c1.(color := Black);
      PaintSibling(nodes, c, t, c.color);
      Paint(sibling, nodes[parent].color);
      Around(nodes, c1, t);
      PaintParent(nodes, c1, t, Black);
      Paint(parent, Black);
      GoUp(nodes, c2, t);
      ghost var p := Parent(c2, t);
      GoDown(nodes, c.up, p, Flip(d));
      ghost var k := Below(c.up, p, Flip(d));
      ghost var w1 := Painted(w, c.color);
      GoDown(nodes, k, w1, Flip(d));
      ghost var f := Far(w, d);
      Around(nodes, k, w1);
      PaintHere(nodes, Below(k, w1, Flip(d)), f, Black);
      Paint(Child(nodes[sibling], Flip(d)), Black);
      GoUp(nodes, Below(k, w1, Flip(d)), Painted(f, Black));
      ghost var w2 := Parent(Below(k, w1, Flip(d)), Painted(f, Black));
      GoUp(nodes, k, w2);
      ghost var p2 := Parent(k, w2);
      Rotate(parent, d, c.up, p2);
      o := RotatedTree(p2, d);
      GoDown(nodes, c.up, o, d);
      Around(nodes, Below(c.up, o, d), Near(o, d));
      FlatRaised(c, t, w1, w2, p2, o, d);
    }

    /** The cached root is the root, or the parent that a rotation moved down from there. */
    ghost predicate CachedRoot(root: nat, c: Path)
    {
      c.Under? && (root == c.id || (c.up.Under? && root == OuterId(c.up)))
    }

    /** The black sibling of a short position: cases 2 to 4. */
    method FixSibling(x: nat, d: Dir, root: nat, ghost c: Path, ghost t: Tree, ghost n: nat)
      returns (next: nat, ghost done: bool, ghost o: Tree, ghost m: nat)
      requires Fixing(x, c, t, n) && c.Under? && c.d == d && c.sib.N? && c.sib.color == Black && ColorOf(t) == Black
      requires CachedRoot(root, c)
      modifies this`nodes
      ensures Whole(c.up, o) == Whole(c, t) && All(c.up, o) == All(c, t)
      ensures !done ==> Fixing(next, c.up, o, m) && next == c.id && ColorOf(o) == c.color
      ensures done ==>
                next == root && At(nodes, c.up, o) && RedBlack(Plug(c.up, o)) && root in nodes
                && nodes[root].color == Black
    {
      hide At, Short, Whole, All, RedBlack;
      Around(nodes, c, t);
      AroundSibling(nodes, c, t);
      var w := Child(nodes[nodes[x].parent], Flip(d));
      if nodes[nodes[w].left].color == Black && nodes[nodes[w].right].color == Black {
        next, o, m := ShortenSibling(x, d, c, t, n);
        done := false;
      } else {
        ghost var q := c;
        if nodes[Child(nodes[w], Flip(d))].color == Black {
          q := TurnNephew(x, d, c, t, n);
        }
        o := RaiseSibling(x, d, q, t, n);
        next, done, m := root, true, 0;
        RootIsBlack(nodes, c.up, o, root);
      }
    }

    /** `btree_delete_fixup`: `x` lacks one black node; the root is read once, before the loop. */
    method DeleteFixup(start: nat, ghost c0: Path, ghost t0: Tree, ghost n0: nat)
      requires Fixing(start, c0, t0, n0)
      modifies this`nodes, this`tree
      ensures At(nodes, Top, tree) && RedBlack(tree) && Flat(tree) == Whole(c0, t0) && Ids(tree) == All(c0, t0)
    {
      hide At, Short, Whole, All, RedBlack;
      TopChild(nodes, c0, t0);
      var root := nodes[ROOT].left;
      var x := start;
      ghost var c, t, n, done := c0, t0, n0, false;
      while x != root && nodes[x].color == Black
        invariant x in nodes && Whole(c, t) == Whole(c0, t0) && All(c, t) == All(c0, t0)
        invariant !done ==> Fixing(x, c, t, n) && (root == Id(Plug(c, t)) || ColorOf(t) == Red)
        invariant done ==> x == root && At(nodes, c, t) && RedBlack(Plug(c, t)) && nodes[root].color == Black
        decreases PathLength(c) + if !done && ColorOf(t) == Black then 1 else 0
      {
        EmptyAtSentinel(nodes, c, t);
        Around(nodes, c, t);
        RootColor(nodes, c, t);
        PlugId(c, t);
        HasSibling(c, t, n);
        SideOfShort(nodes, c, t);
        AroundSibling(nodes, c, t);
        var d := if x == nodes[nodes[x].parent].left then Left else Right;
        var w := Child(nodes[nodes[x].parent], Flip(d));
        ghost var q := c;
        if nodes[w].color == Red {
          q := LiftSibling(x, d, c, t, n);
        }
        assert CachedRoot(root, q);
        ghost var o, m;
        x, done, o, m := FixSibling(x, d, root, q, t, n);
        PlugId(q.up, o);
        Around(nodes, q.up, o);
        c, t, n := q.up, o, m;
      }
      FinishFixup(x, root, c, t, n, done);
    }

    /** After the loop `x` is painted black. */
    method FinishFixup(x: nat, root: nat, ghost c: Path, ghost t: Tree, ghost n: nat, ghost done: bool)
      requires x in nodes && (x == root || nodes[x].color == Red)
      requires !done ==> Fixing(x, c, t, n) && (root == Id(Plug(c, t)) || ColorOf(t) == Red)
      requires done ==> x == root && At(nodes, c, t) && RedBlack(Plug(c, t)) && nodes[root].color == Black
      modifies this`nodes, this`tree
      ensures At(nodes, Top, tree) && RedBlack(tree) && Flat(tree) == Whole(c, t) && Ids(tree) == All(c, t)
    {
      hide At, Short, Whole, All, RedBlack;
      ghost var final := if done then Plug(c, t) else Plug(c, Painted(t, Black));
      if done {
        GoTop(nodes, c, t);
        WholePlug(c, t);
        assert SetColor(nodes, x, Black) == nodes;
      } else {
        RootColor(nodes, c, t);
        if ColorOf(t) == Black { RootIsTop(nodes, c, t); }
        ShortDone(c, t, n);
        if t.N? {
          PaintHere(nodes, c, t, Black);
        } else {
          assert SetColor(nodes, x, Black) == nodes;
        }
        GoTop(SetColor(nodes, x, Black), c, Painted(t, Black));
      }
      Paint(x, Black);
      tree := final;
    }

    /** `btree_successor` of a node that has a right child: the leftmost node below that. */
    method Successor(node: nat, ghost c: Path, ghost t: Tree) returns (p: nat, ghost u: Path, ghost o: Tree)
      requires At(nodes, c, t) && t.N? && t.id == node && t.r.N?
      ensures At(nodes, u, o) && Id(o) == p && o.N? && o.l.Leaf? && Plug(u, o) == Plug(c, t)
      ensures LeftOf(u, Below(c, t, Right)) && p in nodes && nodes[p].left == NILL
    {
      hide At;
      Around(nodes, c, t);
      GoDown(nodes, c, t, Right);
      p := nodes[node].right;
      u, o := Below(c, t, Right), t.r;
      Around(nodes, u, o);
      while nodes[p].left != NILL
        invariant At(nodes, u, o) && o.N? && o.id == p && p in nodes && nodes[p].left == Id(o.l)
        invariant Plug(u, o) == Plug(c, t)
        invariant LeftOf(u, Below(c, t, Right))
        decreases o
      {
        GoDown(nodes, u, o, Left);
        EmptyAtSentinel(nodes, Below(u, o, Left), o.l);
        p := nodes[p].left;
        u, o := Below(u, o, Left), o.l;
        Around(nodes, u, o);
      }
      GoDown(nodes, u, o, Left);
      EmptyAtSentinel(nodes, Below(u, o, Left), o.l);
    }

    /** A node with an empty child is replaced by its other child. */
    method Unlink(node: nat, ghost c: Path, ghost t: Tree) returns (y: nat, ghost d: Dir)
      requires At(nodes, c, t) && t.N? && t.id == node && (t.l.Leaf? || t.r.Leaf?)
      modifies this`nodes
      ensures Near(t, d).Leaf? && At(nodes, c, Far(t, d)) && Id(Far(t, d)) == y && y in nodes
      ensures nodes[y].parent == PathId(c)
      ensures d == (if t.l.Leaf? then Left else Right) && node in nodes && nodes[node].e == t.e
    {
      Around(nodes, c, t);
      SideOfParent(nodes, c, t);
      d := if t.l.Leaf? then Left else Right;
      UnlinkHere(nodes, c, t, d);
      GoDown(nodes, c, t, Left);
      EmptyAtSentinel(nodes, Below(c, t, Left), t.l);
      hide At;
      ghost var h := nodes;
      y := if nodes[node].left == NILL then nodes[node].right else nodes[node].left;
      assert y == Id(Far(t, d));
      nodes := nodes[y := nodes[y].(parent := nodes[node].parent)];
      var parent := nodes[y].parent;
      if parent == ROOT || node == nodes[parent].left {
        nodes := nodes[parent := nodes[parent].(left := y)];
      } else {
        nodes := nodes[parent := nodes[parent].(right := y)];
      }
      assert nodes == Unlinked(h, node, y, SideOf(c));
      Around(nodes, c, Far(t, d));
    }

    /** After a node was taken out at the position, the tree is rebalanced if the node was black. */
    method Rebalance(color: Color, y: nat, ghost c: Path, ghost o: Tree, ghost n: nat)
      requires At(nodes, c, o) && Id(o) == y && y in nodes && nodes[y].parent == PathId(c)
      requires color == Black ==> n >= 1 && Short(c, o, n - 1)
      requires color == Red ==> RedBlack(Plug(c, o))
      modifies this`nodes, this`tree
      ensures At(nodes, Top, tree) && RedBlack(tree) && Flat(tree) == Whole(c, o) && Ids(tree) == All(c, o)
    {
      hide At, Short, RedBlack, Whole, All;
      if color == Black {
        DeleteFixup(y, c, o, n - 1);
      } else {
        GoTop(nodes, c, o);
        WholePlug(c, o);
        tree := Plug(c, o);
      }
    }

    /** A node with an empty child is deleted itself. */
    method DeleteHere(node: nat, ghost c: Path, ghost t: Tree)
      requires Valid() && At(nodes, c, t) && Plug(c, t) == tree && t.N? && t.id == node && (t.l.Leaf? || t.r.Leaf?)
      modifies this
      ensures Valid() && OneLess(old(Contents()), Contents(), t.e.key)
      ensures node in old(Ids(tree)) && Ids(tree) == old(Ids(tree)) - {node}
    {
      hide At, Short, RedBlack, Sorted, Placing, Before, After, All;
      Around(nodes, c, t);
      ghost var n := Unplug(c, t);
      WholePlug(c, t);
      var color := nodes[node].color;
      var y; ghost var d;
      y, d := Unlink(node, c, t);
      TakeOut(c, t, d, n);
      TakenHere(c, t, d);
      TakenNode(old(nodes), c, t, d);
      Rebalance(color, y, c, Far(t, d), n);
      treeSize := treeSize - 1;
    }

    /** A node with two children takes over the entry of its successor, which is deleted. */
    method DeleteSuccessor(node: nat, ghost c: Path, ghost t: Tree) returns (succ: nat)
      requires Valid() && At(nodes, c, t) && Plug(c, t) == tree && t.N? && t.id == node && t.l.N? && t.r.N?
      modifies this
      ensures Valid() && OneLess(old(Contents()), Contents(), t.e.key)
      ensures succ in old(Ids(tree)) && Ids(tree) == old(Ids(tree)) - {succ}
    {
      hide At, Short, RedBlack, Sorted, Placing, Before, After, All;
      ghost var u, o;
      succ, u, o := Successor(node, c, t);
      ghost var base := Below(c, t, Right);
      Around(nodes, u, o);
      ghost var n := Unplug(u, o);
      WholePlug(u, o);
      PathsDistinct(nodes, u, o);
      LeftmostEntry(u, base, o.e);
      var color := nodes[succ].color;
      var y; ghost var d;
      y, d := Unlink(succ, u, o);
      TakeOut(u, o, Left, n);
      EnterAbove(nodes, u, o.r, node, o.e);
      EnterSpares(nodes, u, o.r, node, o.e);
      nodes := nodes[node := nodes[node].(e := nodes[succ].e)];
      ghost var u' := PathWith(u, node, o.e);
      PathWithTaken(u, node, o.e, o, n);
      TakenAbove(u, u', t.e, o, Before(c) + Flat(t.l));
      TakenNode(old(nodes), u, o, Left);
      SameNodes(u, node, o.e, o.r);
      Rebalance(color, y, u', o.r, n);
      treeSize := treeSize - 1;
    }

    /** `ompi_rb_tree_delete`.  One node, no longer part of the tree, goes back to the free list. */
    method Delete(key: int) returns (ok: bool, freed: nat)
      requires Valid()
      modifies this
      ensures Valid()
      ensures ok == HasKey(old(Contents()), key)
      ensures !ok ==> unchanged(this)
      ensures ok ==> OneLess(old(Contents()), Contents(), key)
      ensures ok ==> freed in old(Ids(tree)) && Ids(tree) == old(Ids(tree)) - {freed}
    {
      var p; ghost var c, t, visits;
      p, c, t, visits := FindNode(key);
      hide At, RedBlack, Sorted, HasKey;
      EmptyAtSentinel(nodes, c, t);
      WholePlug(c, t);
      if p == NILL {
        return false, NILL;
      }
      KeyInside(c, t);
      Around(nodes, c, t);
      GoDown(nodes, c, t, Left);
      EmptyAtSentinel(nodes, Below(c, t, Left), t.l);
      GoDown(nodes, c, t, Right);
      EmptyAtSentinel(nodes, Below(c, t, Right), t.r);
      if nodes[p].left == NILL || nodes[p].right == NILL {
        DeleteHere(p, c, t);
        freed := p;
      } else {
        freed := DeleteSuccessor(p, c, t);
      }
      ok := true;
    }

    /** `ompi_rb_tree_find_with`: a value stored under an equal key, if there is one; at most
        twice the logarithm of the number of entries plus one nodes are visited. */
    method Find(key: int) returns (found: bool, value: int, ghost visits: nat)
      requires Valid()
      ensures found == HasKey(Contents(), key)
      ensures found ==> Entry(key, value) in Contents()
      ensures Pow2(visits) <= (|Contents()| + 1) * (|Contents()| + 1)
    {
      var p; ghost var c, t;
      p, c, t, visits := FindNode(key);
      DepthBound(tree);
      Pow2Mono(visits, Depth(tree));
      hide At, RedBlack, Sorted, HasKey;
      EmptyAtSentinel(nodes, c, t);
      WholePlug(c, t);
      if p == NILL {
        return false, 0, visits;
      }
      KeyInside(c, t);
      Around(nodes, c, t);
      found, value := true, nodes[p].e.value;
    }
  }
}
