/** The red-black tree engine on the heap (src/engines/kvs_rbtree.c). The nodes hold exactly what
    the ghost graph `g` records; every statement of the C code updates both. */
module RbTree {
  import opened Bytes
  import opened Store
  import opened Strings
  import opened RbGraph
  import opened RbInsert
  import opened RbDelete

  /** The node at each position owns the key and value of that position. */
  ghost predicate Holds(order: seq<Node>, keys: seq<ByteString>, vals: seq<ByteString>)
    requires |keys| == |vals| == |order|
    reads order
  {
    forall i :: 0 <= i < |order| ==> order[i].key == Some(keys[i]) && order[i].value == Some(vals[i])
  }

  class Tree {
    const nil: Node
    var root: Node
    ghost var g: Graph
    ghost var keys: seq<ByteString>
    ghost var vals: seq<ByteString>

    // ------------------------------------------------------------- heap and graph

    ghost predicate Agrees(n: Node, c: Cell)
      reads n
    {
      n.color == c.color && n.left == c.left && n.right == c.right && n.parent == c.parent
    }

    /** The sentinel stays BLACK without key and value; its `parent` is left open. */
    ghost predicate Coupled()
      reads this, nil, g.cells.Keys
    {
      && g.nil == nil && g.root == root && nil !in g.cells
      && nil.color == BLACK && nil.key == None && nil.value == None
      && forall n {:trigger Agrees(n, g.cells[n])} :: n in g.cells ==> Agrees(n, g.cells[n])
    }

    ghost predicate Contents()
      reads this, g.order
    {
      |keys| == |vals| == |g.order| && Sorted(keys) && Holds(g.order, keys, vals)
    }

    /** A red-black search tree over exactly the bindings of `keys` and `vals`. */
    ghost predicate Valid()
      reads this, nil, g.cells.Keys, g.order
    {
      Coupled() && Balanced(g) && Contents()
    }

    constructor ()
      ensures Valid() && fresh(nil) && keys == [] && g.cells == map[]
    {
      var n := new Node.Nil();
      nil, root := n, n;
      g := Graph(n, n, map[], []);
      keys, vals := [], [];
    }

    // ------------------------------------------------------ one field at a time

    /** What the heap holds at a node. */
    lemma Look(n: Node)
      requires Coupled() && n in g.cells
      ensures Agrees(n, g.cells[n])
    {
    }

    method SetColor(n: Node, color: Color, ghost bh: int)
      requires Coupled() && n in g.cells
      modifies this`g, n`color
      ensures Coupled() && g == Paint(old(g), n, color, bh)
    {
      n.color := color;
      g := Paint(g, n, color, bh);
      forall m | m in g.cells ensures Agrees(m, g.cells[m]) {
        assert old(Agrees(m, g.cells[m]));
      }
    }

    method SetLeft(n: Node, child: Node)
      requires Coupled() && n in g.cells
      modifies this`g, n`left
      ensures Coupled() && g == WithCell(old(g), n, old(g).cells[n].(left := child))
    {
      n.left := child;
      g := WithCell(g, n, g.cells[n].(left := child));
      forall m | m in g.cells ensures Agrees(m, g.cells[m]) {
        assert old(Agrees(m, g.cells[m]));
      }
    }

    method SetRight(n: Node, child: Node)
      requires Coupled() && n in g.cells
      modifies this`g, n`right
      ensures Coupled() && g == WithCell(old(g), n, old(g).cells[n].(right := child))
    {
      n.right := child;
      g := WithCell(g, n, g.cells[n].(right := child));
      forall m | m in g.cells ensures Agrees(m, g.cells[m]) {
        assert old(Agrees(m, g.cells[m]));
      }
    }

    method SetParent(n: Node, parent: Node)
      requires Coupled() && n in g.cells
      modifies this`g, n`parent
      ensures Coupled() && g == WithCell(old(g), n, old(g).cells[n].(parent := parent))
    {
      n.parent := parent;
      g := WithCell(g, n, g.cells[n].(parent := parent));
      forall m | m in g.cells ensures Agrees(m, g.cells[m]) {
        assert old(Agrees(m, g.cells[m]));
      }
    }

    method SetRoot(n: Node)
      requires Coupled()
      modifies this`g, this`root
      ensures Coupled() && g == old(g).(root := n)
    {
      root := n;
      g := g.(root := n);
      forall m | m in g.cells ensures Agrees(m, g.cells[m]) {
        assert old(Agrees(m, g.cells[m]));
      }
    }

    /** Positions and black heights exist only in the graph. */
    ghost method Replace(h: Graph)
      requires Coupled() && SamePointers(g, h)
      modifies this`g
      ensures Coupled() && g == h
    {
      g := h;
      forall m | m in g.cells ensures Agrees(m, g.cells[m]) {
        assert old(Agrees(m, g.cells[m]));
      }
    }

    /** `p` gets `n` in place of its child `child`; without a parent, `n` is the new root. */
    method ReplaceChild(p: Node, child: Node, n: Node)
      requires Coupled() && (p == nil || p in g.cells)
      modifies this`g, this`root, g.cells.Keys`left, g.cells.Keys`right
      ensures Coupled() && g == ReplacedChild(old(g), p, child, n)
    {
      hide Coupled;
      if p == nil {
        SetRoot(n);
      } else {
        Look(p);
        if child == p.left {
          SetLeft(p, n);
        } else {
          SetRight(p, n);
        }
      }
    }

    // ------------------------------------------------------------------ rotations

    /** `rbtree_left_rotate`. */
    method LeftRotate(x: Node)
      requires Coupled() && Shape(g) && x in g.cells && g.cells[x].right in g.cells
      modifies this`root, this`g, g.cells.Keys`left, g.cells.Keys`right, g.cells.Keys`parent
      ensures g == RotateLeft(old(g), x) && Coupled()
    {
      hide Shape, RotateLeft, Coupled, RotationSite;
      ghost var before := g;
      Site(g, x);
      RotationNeighbours(g, x);
      Look(x);
      var y := x.right;
      Look(y);
      var inner := y.left;
      SetRight(x, inner);
      if inner != nil {
        SetParent(inner, x);
      }
      Look(x);
      var p := x.parent;
      SetParent(y, p);
      ReplaceChild(p, x, y);
      SetLeft(y, x);
      SetParent(x, y);
      LeftTurned(before, x);
      Replace(RotateLeft(before, x));
    }

    /** The same with the right child looked at first. */
    method ReplaceChildRight(p: Node, child: Node, n: Node)
      requires Coupled() && (p == nil || p in g.cells)
      modifies this`g, this`root, g.cells.Keys`left, g.cells.Keys`right
      ensures Coupled() && g == ReplacedRight(old(g), p, child, n)
    {
      hide Coupled;
      if p == nil {
        SetRoot(n);
      } else {
        Look(p);
        if child == p.right {
          SetRight(p, n);
        } else {
          SetLeft(p, n);
        }
      }
    }

    /** `rbtree_right_rotate`. */
    method RightRotate(y: Node)
      requires Coupled() && Shape(g) && y in g.cells && g.cells[y].left in g.cells
      modifies this`root, this`g, g.cells.Keys`left, g.cells.Keys`right, g.cells.Keys`parent
      ensures g == RotateRight(old(g), y) && Coupled()
    {
      hide Shape, RotateRight, Coupled;
      ghost var before := g;
      RightNeighbours(g, y);
      Look(y);
      var x := y.left;
      Look(x);
      var inner := x.right;
      SetLeft(y, inner);
      if inner != nil {
        SetParent(inner, y);
      }
      Look(y);
      var p := y.parent;
      SetParent(x, p);
      ReplaceChildRight(p, y, x);
      SetRight(x, y);
      SetParent(y, x);
      RightTurned(before, y);
      Replace(RotateRight(before, y));
    }

    // ------------------------------------------------------------------ insertion

    /** The colour the code sees, also at the sentinel. */
    lemma LookColor(n: Node)
      requires Coupled() && (n == nil || n in g.cells)
      ensures n.color == ColorOf(g, n)
    {
      if n in g.cells {
        assert Agrees(n, g.cells[n]);
      }
    }

    method Recolor(p: Node, y: Node, gp: Node)
      requires Coupled() && RedPair(g, p, y, gp)
      modifies this`g, g.cells.Keys`color
      ensures Coupled() && g == Recolored(old(g), p, y, gp)
    {
      hide Coupled;
      ghost var before := g;
      SetColor(p, BLACK, before.cells[p].bh + 1);
      SetColor(y, BLACK, before.cells[y].bh + 1);
      SetColor(gp, RED, before.cells[gp].bh);
    }

    /** Black parent, red grandparent, before the last rotation. */
    method SwapColors(p: Node, gp: Node)
      requires Coupled() && p in g.cells && gp in g.cells && p != gp
      modifies this`g, g.cells.Keys`color
      ensures Coupled() && g == Swapped(old(g), p, gp)
    {
      hide Coupled;
      ghost var before := g;
      SetColor(p, BLACK, before.cells[p].bh + 1);
      SetColor(gp, RED, before.cells[gp].bh - 1);
    }

    /** One round of the fixup below a left child. */
    method FixLeft(z0: Node) returns (z: Node)
      requires Coupled() && InsertInv(g, z0) && ColorOf(g, g.cells[z0].parent) == RED
      requires g.cells[z0].parent in g.cells && g.cells[g.cells[z0].parent].parent in g.cells
      requires g.cells[g.cells[g.cells[z0].parent].parent].left == g.cells[z0].parent
      modifies this`root, this`g, g.cells.Keys`color, g.cells.Keys`left, g.cells.Keys`right, g.cells.Keys`parent
      ensures Coupled() && InsertInv(g, z) && g.order == old(g.order) && g.cells.Keys == old(g.cells.Keys)
      ensures z in g.cells && (ColorOf(g, g.cells[z].parent) == BLACK || Width(g, z) > Width(old(g), z0))
    {
      hide Coupled, InsertInv, Recolored, Swapped, RotateLeft, RotateRight, LastCase, Shape, Paint, Linked;
      z := z0;
      InTree(g, z);
      Grandparent(g, z);
      GrandWider(g, z);
      ShapeOf(g, z);
      Look(z);
      var p := z.parent;
      Look(p);
      var gp := p.parent;
      Look(gp);
      ChildIn(g, gp);
      var y := gp.right;
      LookRoot();
      LookColor(y);
      if y.color == RED {
        RedPairOf(g, z, y);
        RecolorOk(g, z, p, y, gp);
        RecolorAround(g, p, y, gp);
        Recolor(p, y, gp);
        z := gp;
        InTree(g, z);
      } else {
        OuterFacts(g, z, p, gp);
        if z == p.right {
          InnerOk(g, z, p);
          InnerFacts(g, z, p, gp);
          SameNodes(g, p);
          LeftRotate(p);
          z, p := p, z;
        }
        LastLeft(z, p, gp);
      }
    }

    /** The last rotation below a left child. */
    method LastLeft(z: Node, p: Node, gp: Node)
      requires Coupled() && InsertInv(g, z) && p in g.cells && gp in g.cells && LastCase(Mirror(g), z, p, gp)
      modifies this`root, this`g, g.cells.Keys`color, g.cells.Keys`left, g.cells.Keys`right, g.cells.Keys`parent
      ensures Coupled() && InsertInv(g, z) && g.order == old(g.order) && g.cells.Keys == old(g.cells.Keys)
      ensures z in g.cells && ColorOf(g, g.cells[z].parent) == BLACK
    {
      hide Coupled, InsertInv, Swapped, RotateRight, Shape;
      ghost var before := g;
      LastOkLeft(g, z, p, gp);
      ShapeOf(g, z);
      SwappedShape(g, p, gp);
      SwappedFacts(g, p, gp);
      SwappedOrder(g, p, gp);
      SwapColors(p, gp);
      RightRotate(gp);
      SameOrder(Swapped(before, p, gp), gp);
      InTree(g, z);
    }

    /** The last rotation below a right child. */
    method LastRight(z: Node, p: Node, gp: Node)
      requires Coupled() && InsertInv(g, z) && p in g.cells && gp in g.cells && LastCase(g, z, p, gp)
      modifies this`root, this`g, g.cells.Keys`color, g.cells.Keys`left, g.cells.Keys`right, g.cells.Keys`parent
      ensures Coupled() && InsertInv(g, z) && g.order == old(g.order) && g.cells.Keys == old(g.cells.Keys)
      ensures z in g.cells && ColorOf(g, g.cells[z].parent) == BLACK
    {
      hide Coupled, InsertInv, Swapped, RotateLeft, Shape;
      ghost var before := g;
      LastOk(g, z, p, gp);
      ShapeOf(g, z);
      SwappedShape(g, p, gp);
      SwappedFacts(g, p, gp);
      SwappedOrder(g, p, gp);
      SwapColors(p, gp);
      LeftRotate(gp);
      SameNodes(Swapped(before, p, gp), gp);
      InTree(g, z);
    }

    /** One round of the fixup below a right child. */
    method FixRight(z0: Node) returns (z: Node)
      requires Coupled() && InsertInv(g, z0) && ColorOf(g, g.cells[z0].parent) == RED
      requires g.cells[z0].parent in g.cells && g.cells[g.cells[z0].parent].parent in g.cells
      requires g.cells[g.cells[g.cells[z0].parent].parent].left != g.cells[z0].parent
      modifies this`root, this`g, g.cells.Keys`color, g.cells.Keys`left, g.cells.Keys`right, g.cells.Keys`parent
      ensures Coupled() && InsertInv(g, z) && g.order == old(g.order) && g.cells.Keys == old(g.cells.Keys)
      ensures z in g.cells && (ColorOf(g, g.cells[z].parent) == BLACK || Width(g, z) > Width(old(g), z0))
    {
      hide Coupled, InsertInv, Recolored, Swapped, RotateLeft, RotateRight, LastCase, Shape, Paint, Linked;
      z := z0;
      InTree(g, z);
      Grandparent(g, z);
      GrandWider(g, z);
      ShapeOf(g, z);
      Look(z);
      var p := z.parent;
      Look(p);
      var gp := p.parent;
      Look(gp);
      ChildIn(g, gp);
      var y := gp.left;
      LookRoot();
      LookColor(y);
      if y.color == RED {
        RedPairOf(g, z, y);
        RecolorOk(g, z, p, y, gp);
        RecolorAround(g, p, y, gp);
        Recolor(p, y, gp);
        z := gp;
        InTree(g, z);
      } else {
        OuterFacts(g, z, p, gp);
        if z == p.left {
          InnerOkRight(g, z, p);
          InnerFactsRight(g, z, p, gp);
          SameOrder(g, p);
          RightRotate(p);
          z, p := p, z;
        }
        LastRight(z, p, gp);
      }
    }

    /** `rbtree_insert_fixup`. */
    method InsertFixup(start: Node)
      requires Coupled() && InsertInv(g, start)
      modifies this`root, this`g, g.cells.Keys`color, g.cells.Keys`left, g.cells.Keys`right, g.cells.Keys`parent
      ensures Coupled() && Balanced(g) && g.order == old(g.order) && g.cells.Keys == old(g.cells.Keys)
    {
      hide Coupled, InsertInv, Balanced, Shape, Paint, Linked;
      var z := start;
      ghost var bound := |g.order|;
      InTree(g, z);
      LookParent(z);
      while z.parent.color == RED
        invariant Coupled() && InsertInv(g, z) && z in g.cells && g.order == old(g.order)
                  && g.cells.Keys == old(g.cells.Keys)
        invariant z.parent == g.cells[z].parent && z.parent.color == ColorOf(g, g.cells[z].parent)
        decreases if ColorOf(g, g.cells[z].parent) == RED then 1 + bound - Width(g, z) else 0
      {
        Grandparent(g, z);
        WidthBound(g, z);
        Look(z.parent);
        Look(z.parent.parent);
        if z.parent == z.parent.parent.left {
          z := FixLeft(z);
        } else {
          z := FixRight(z);
        }
        WidthBound(g, z);
        LookParent(z);
      }
      InsertDone(g, z);
      LookRoot();
      LookColor(root);
      PaintFrame(g, root, BLACK, if ColorOf(g, g.root) == RED then g.cells[g.root].bh + 1 else g.cells[g.root].bh);
      SetColor(root, BLACK, if ColorOf(g, g.root) == RED then g.cells[g.root].bh + 1 else g.cells[g.root].bh);
    }

    lemma LookParent(z: Node)
      requires Coupled() && InsertInv(g, z)
      ensures z in g.cells && z.parent == g.cells[z].parent && z.parent.color == ColorOf(g, g.cells[z].parent)
    {
      InTree(g, z);
      ShapeOf(g, z);
      ChildIn(g, z);
      Look(z);
      LookColor(z.parent);
    }

    lemma LookRoot()
      requires Coupled()
      ensures root == g.root && nil == g.nil && nil !in g.cells
    {
    }

    // ------------------------------------------------------------------- deletion

    /** A red sibling on the right is rotated up. */
    method RedSiblingRight(x: Node, px: Node)
      requires Coupled() && DeleteInv(g, x, px) && x != g.root && px in g.cells && g.cells[px].left == x
               && ColorOf(g, x) == BLACK
      requires ColorOf(g, g.cells[px].right) == RED
      modifies this`root, this`g, g.cells.Keys`color, g.cells.Keys`left, g.cells.Keys`right, g.cells.Keys`parent
      ensures Coupled() && DeleteInv(g, x, px) && x != g.root && px in g.cells && g.cells[px].left == x
      ensures ColorOf(g, x) == BLACK && ColorOf(g, g.cells[px].right) == BLACK && Width(g, x) == Width(old(g), x)
      ensures g.order == old(g.order) && g.cells.Keys == old(g.cells.Keys)
    {
      hide Coupled, DeleteInv, RotateLeft, Swapped, Shape;
      ghost var before := g;
      DeficitFacts(g, x, px);
      InvShape(g, x, px);
      Case1Ok(g, x, px);
      Look(px);
      var w := px.right;
      SwappedShape(g, w, px);
      SwappedFacts(g, w, px);
      SwappedOrder(g, w, px);
      SwapColors(w, px);
      LeftRotate(px);
      SameNodes(Swapped(before, w, px), px);
      WidthLeft(before, w, px, x);
    }

    method RedSiblingLeft(x: Node, px: Node)
      requires Coupled() && DeleteInv(g, x, px) && x != g.root && px in g.cells && g.cells[px].right == x
               && g.cells[px].left != x
      requires ColorOf(g, x) == BLACK && ColorOf(g, g.cells[px].left) == RED
      modifies this`root, this`g, g.cells.Keys`color, g.cells.Keys`left, g.cells.Keys`right, g.cells.Keys`parent
      ensures Coupled() && DeleteInv(g, x, px) && x != g.root && px in g.cells && g.cells[px].right == x
              && g.cells[px].left != x
      ensures ColorOf(g, x) == BLACK && ColorOf(g, g.cells[px].left) == BLACK && Width(g, x) == Width(old(g), x)
      ensures g.order == old(g.order) && g.cells.Keys == old(g.cells.Keys)
    {
      hide Coupled, DeleteInv, RotateRight, Swapped, Shape;
      ghost var before := g;
      DeficitFacts(g, x, px);
      InvShape(g, x, px);
      Case1OkRight(g, x, px);
      Look(px);
      var w := px.left;
      SwappedShape(g, w, px);
      SwappedFacts(g, w, px);
      SwappedOrder(g, w, px);
      SwapColors(w, px);
      RightRotate(px);
      SameOrder(Swapped(before, w, px), px);
      WidthRight(before, w, px, x);
    }

    /** A sibling that gives up its level: the deficit moves to the parent. */
    method PullDown(x: Node, px: Node, w: Node)
      requires Coupled() && DeleteInv(g, x, px) && x != g.root && px in g.cells && ColorOf(g, x) == BLACK
      requires w == (if g.cells[px].left == x then g.cells[px].right else g.cells[px].left)
      requires w in g.cells && ColorOf(g, w) == BLACK && ColorOf(g, g.cells[w].left) == BLACK
               && ColorOf(g, g.cells[w].right) == BLACK
      modifies this`g, g.cells.Keys`color
      ensures Coupled() && px in g.cells && DeleteInv(g, px, g.cells[px].parent)
      ensures g.order == old(g.order) && g.cells.Keys == old(g.cells.Keys) && Width(g, px) == Width(old(g), px)
    {
      hide Coupled, DeleteInv, Drained;
      ghost var before := g;
      Case2Ok(g, x, px);
      DrainedOrder(g, px, w);
      DrainedFacts(g, px, w);
      SetColor(w, RED, before.cells[w].bh - 1);
      DrainTail(before, px, w);
      Replace(Drained(before, px, w));
    }

    /** The colours of the last case. */
    method RaiseColors(px: Node, w: Node, outer: Node)
      requires Coupled() && px in g.cells && w in g.cells && outer in g.cells
      modifies this`g, g.cells.Keys`color
      ensures Coupled() && g == RaisedColors(old(g), px, w, outer)
    {
      hide Coupled;
      ghost var before := g;
      Look(px);
      SetColor(w, px.color, before.cells[px].bh);
      SetColor(px, BLACK, before.cells[w].bh);
      SetColor(outer, BLACK, before.cells[outer].bh + 1);
    }

    /** The last case on the right-hand side: `w` takes over the parent's place and colour. */
    method TakeOverRight(x: Node, px: Node)
      requires Coupled() && DeleteInv(g, x, px) && x != g.root && px in g.cells && g.cells[px].left == x
               && ColorOf(g, x) == BLACK
      requires g.cells[px].right in g.cells && ColorOf(g, g.cells[px].right) == BLACK
      requires var w := g.cells[px].right; g.cells[w].right in g.cells && ColorOf(g, g.cells[w].right) == RED
      modifies this`root, this`g, g.cells.Keys`color, g.cells.Keys`left, g.cells.Keys`right, g.cells.Keys`parent
      ensures Coupled() && DeleteInv(g, g.root, px) && g.root in g.cells
      ensures g.order == old(g.order) && g.cells.Keys == old(g.cells.Keys)
    {
      hide Coupled, DeleteInv, RotateLeft, Shape;
      ghost var before := g;
      DeficitFacts(g, x, px);
      InvShape(g, x, px);
      Case4Ok(g, x, px);
      OuterOf(g, x, px);
      Look(px);
      var w := px.right;
      Look(w);
      Raised4Shape(g, px, w);
      Raised4Facts(g, px, w);
      Raised4Order(g, px, w);
      RaiseColors(px, w, w.right);
      Raised4Same(before, px, w);
      hide Raised4;
      LeftRotate(px);
      SameNodes(Raised4(before, px, w), px);
    }

    method TakeOverLeft(x: Node, px: Node)
      requires Coupled() && DeleteInv(g, x, px) && x != g.root && px in g.cells && g.cells[px].right == x
               && ColorOf(g, x) == BLACK
      requires g.cells[px].left in g.cells && ColorOf(g, g.cells[px].left) == BLACK
      requires var w := g.cells[px].left; g.cells[w].left in g.cells && ColorOf(g, g.cells[w].left) == RED
      modifies this`root, this`g, g.cells.Keys`color, g.cells.Keys`left, g.cells.Keys`right, g.cells.Keys`parent
      ensures Coupled() && DeleteInv(g, g.root, px) && g.root in g.cells
      ensures g.order == old(g.order) && g.cells.Keys == old(g.cells.Keys)
    {
      hide Coupled, DeleteInv, RotateRight, Shape;
      ghost var before := g;
      DeficitFacts(g, x, px);
      InvShape(g, x, px);
      Case4OkRight(g, x, px);
      Look(px);
      var w := px.left;
      Look(w);
      Raised4RightShape(g, px, w);
      Raised4RightFacts(g, px, w);
      RaiseColors(px, w, w.left);
      Raised4RightSame(before, px, w);
      hide Raised4Right;
      RightRotate(px);
      SameOrder(Raised4Right(before, px, w), px);
    }

    /** One round with the missing level on the left. */
    method RefillLeft(x: Node, ghost px0: Node) returns (next: Node)
      requires Coupled() && DeleteInv(g, x, px0) && x != g.root && px0 in g.cells && g.cells[px0].left == x
               && ColorOf(g, x) == BLACK
      requires x.parent == px0
      modifies this`root, this`g, g.cells.Keys`color, g.cells.Keys`left, g.cells.Keys`right, g.cells.Keys`parent
      ensures Coupled() && next in g.cells && DeleteInv(g, next, if next == g.root then px0 else g.cells[next].parent)
      ensures g.order == old(g.order) && g.cells.Keys == old(g.cells.Keys)
      ensures next == g.root || Width(g, next) > Width(old(g), x)
    {
      hide Coupled, DeleteInv, RotateLeft, RotateRight, Swapped, Shape, LastCase, Linked;
      var px := x.parent;
      DeficitFacts(g, x, px);
      InvShape(g, x, px);
      Look(px);
      LookRoot();
      LookColor(px.right);
      if px.right.color == RED {
        RedSiblingRight(x, px);
      }
      DeficitFacts(g, x, px);
      InvShape(g, x, px);
      Look(px);
      var w := px.right;
      ChildIn(g, w);
      Look(w);
      LookRoot();
      LookColor(w.left);
      LookColor(w.right);
      if w.left.color == BLACK && w.right.color == BLACK {
        PullDown(x, px, w);
        next := px;
        RootInside(g, next);
      } else {
        if w.right.color == BLACK {
          BlackSiblingTurn(x, px, w);
          Look(px);
          w := px.right;
        }
        TakeOverRight(x, px);
        LookRoot();
        next := root;
        RootInv(g, px, px0);
      }
    }

    /** A red inner child of the right sibling is rotated outwards. */
    method BlackSiblingTurn(x: Node, px: Node, w: Node)
      requires Coupled() && DeleteInv(g, x, px) && x != g.root && px in g.cells && g.cells[px].left == x
               && ColorOf(g, x) == BLACK
      requires w in g.cells && g.cells[px].right == w && ColorOf(g, w) == BLACK && ColorOf(g, g.cells[w].right) == BLACK
      requires g.cells[w].left in g.cells && ColorOf(g, g.cells[w].left) == RED
      modifies this`root, this`g, g.cells.Keys`color, g.cells.Keys`left, g.cells.Keys`right, g.cells.Keys`parent
      ensures Coupled() && DeleteInv(g, x, px) && x != g.root && px in g.cells && g.cells[px].left == x
              && ColorOf(g, x) == BLACK
      ensures g.cells[px].right in g.cells && ColorOf(g, g.cells[px].right) == BLACK
      ensures g.cells[g.cells[px].right].right in g.cells && ColorOf(g, g.cells[g.cells[px].right].right) == RED
      ensures g.order == old(g.order) && g.cells.Keys == old(g.cells.Keys)
    {
      hide Coupled, DeleteInv, RotateRight, Swapped, Shape;
      ghost var before := g;
      InvShape(g, x, px);
      Case3OkLeft(g, x, px);
      ShapeInside(g, x, px, w);
      Look(w);
      var inner := w.left;
      SwappedShape(g, inner, w);
      SwappedFacts(g, inner, w);
      SwappedOrder(g, inner, w);
      SwapColors(inner, w);
      RightRotate(w);
      SameOrder(Swapped(before, inner, w), w);
    }

    method BlackSiblingTurnLeft(x: Node, px: Node, w: Node)
      requires Coupled() && DeleteInv(g, x, px) && x != g.root && px in g.cells && g.cells[px].left == w
               && ColorOf(g, x) == BLACK && w != x
      requires w in g.cells && ColorOf(g, w) == BLACK && ColorOf(g, g.cells[w].left) == BLACK
      requires g.cells[w].right in g.cells && ColorOf(g, g.cells[w].right) == RED
      modifies this`root, this`g, g.cells.Keys`color, g.cells.Keys`left, g.cells.Keys`right, g.cells.Keys`parent
      ensures Coupled() && DeleteInv(g, x, px) && x != g.root && px in g.cells && g.cells[px].right == x
              && ColorOf(g, x) == BLACK
      ensures g.cells[px].left in g.cells && ColorOf(g, g.cells[px].left) == BLACK
      ensures g.cells[g.cells[px].left].left in g.cells && ColorOf(g, g.cells[g.cells[px].left].left) == RED
      ensures g.order == old(g.order) && g.cells.Keys == old(g.cells.Keys)
    {
      hide Coupled, DeleteInv, RotateLeft, Swapped, Shape;
      ghost var before := g;
      InvShape(g, x, px);
      Case3Ok(g, x, px);
      ShapeInside(g, x, px, w);
      Look(w);
      var inner := w.right;
      SwappedShape(g, inner, w);
      SwappedFacts(g, inner, w);
      SwappedOrder(g, inner, w);
      SwapColors(inner, w);
      LeftRotate(w);
      SameNodes(Swapped(before, inner, w), w);
    }

    /** One round with the missing level on the right. */
    method RefillRight(x: Node, ghost px0: Node) returns (next: Node)
      requires Coupled() && DeleteInv(g, x, px0) && x != g.root && px0 in g.cells && g.cells[px0].left != x
               && ColorOf(g, x) == BLACK
      requires x.parent == px0
      modifies this`root, this`g, g.cells.Keys`color, g.cells.Keys`left, g.cells.Keys`right, g.cells.Keys`parent
      ensures Coupled() && next in g.cells && DeleteInv(g, next, if next == g.root then px0 else g.cells[next].parent)
      ensures g.order == old(g.order) && g.cells.Keys == old(g.cells.Keys)
      ensures next == g.root || Width(g, next) > Width(old(g), x)
    {
      hide Coupled, DeleteInv, RotateLeft, RotateRight, Swapped, Shape, LastCase, Linked;
      var px := x.parent;
      DeficitFacts(g, x, px);
      InvShape(g, x, px);
      Look(px);
      LookRoot();
      LookColor(px.left);
      if px.left.color == RED {
        RedSiblingLeft(x, px);
      }
      DeficitFacts(g, x, px);
      InvShape(g, x, px);
      Look(px);
      var w := px.left;
      ChildIn(g, w);
      Look(w);
      LookRoot();
      LookColor(w.left);
      LookColor(w.right);
      if w.left.color == BLACK && w.right.color == BLACK {
        PullDown(x, px, w);
        next := px;
        RootInside(g, next);
      } else {
        if w.left.color == BLACK {
          BlackSiblingTurnLeft(x, px, w);
          Look(px);
          w := px.left;
        }
        TakeOverLeft(x, px);
        LookRoot();
        next := root;
        RootInv(g, px, px0);
      }
    }

    /** `rbtree_delete_fixup`: `x` may be the sentinel, whose `parent` then is the scratch `p`. */
    method DeleteFixup(start: Node, ghost p: Node)
      requires Coupled() && DeleteInv(g, start, p) && (start != g.root ==> start.parent == p)
      modifies this`root, this`g, g.cells.Keys`color, g.cells.Keys`left, g.cells.Keys`right, g.cells.Keys`parent,
               nil`color
      ensures Coupled() && Balanced(g) && g.order == old(g.order) && g.cells.Keys == old(g.cells.Keys)
    {
      hide Coupled, DeleteInv, Balanced, Shape, Linked, Paint;
      var x: Node := start;
      ghost var px: Node := p;
      InvShape(g, x, px);
      LookRoot();
      LookColor(x);
      while x != root && x.color == BLACK
        invariant Coupled() && DeleteInv(g, x, px) && (x != g.root ==> x.parent == px)
        invariant g.order == old(g.order) && g.cells.Keys == old(g.cells.Keys)
        invariant root == g.root && nil == g.nil && (x == nil || x in g.cells) && x.color == ColorOf(g, x)
        decreases if x == root then 0 else 1 + |g.order| - Width(g, x)
      {
        DeficitFacts(g, x, px);
        InvShape(g, x, px);
        Look(px);
        ghost var was := g;
        ghost var child := x;
        if x == x.parent.left {
          x := RefillLeft(x, px);
        } else {
          x := RefillRight(x, px);
        }
        Look(x);
        px := if x == g.root then px else g.cells[x].parent;
        InvShape(g, x, px);
        LookRoot();
        LookColor(x);
      }
      InvShape(g, x, px);
      DeleteDone(g, x, px);
      if x in g.cells {
        PaintFrame(g, x, BLACK, if g.cells[x].color == RED then g.cells[x].bh + 1 else g.cells[x].bh);
      }
      FinishNode(x);
    }

    /** The last assignment of the fixup, on a node or on the sentinel. */
    method FinishNode(x: Node)
      requires Coupled() && (x == nil || x in g.cells)
      modifies this`g, g.cells.Keys`color, nil`color
      ensures Coupled() && g == Finished(old(g), x)
    {
      if x == nil {
        x.color := BLACK;
        forall m | m in g.cells ensures Agrees(m, g.cells[m]) {
          assert old(Agrees(m, g.cells[m]));
        }
      } else {
        hide Coupled;
        SetColor(x, BLACK, if g.cells[x].color == RED then g.cells[x].bh + 1 else g.cells[x].bh);
      }
    }

    // --------------------------------------------------------------------- search

    /** The key and the value of a node, and the node's part of the key order. */
    lemma LookKey(n: Node)
      requires Valid() && n in g.cells
      ensures var c := g.cells[n];
              && 0 <= c.lo <= c.pos < c.hi <= |keys| && g.order[c.pos] == n
              && n.key == Some(keys[c.pos]) && n.value == Some(vals[c.pos])
    {
      SpanEnds(g, n);
      assert Linked(g, n);
    }

    lemma ValidParts()
      requires Valid()
      ensures Coupled() && Shape(g) && Balanced(g) && Sorted(keys) && |keys| == |vals| == |g.order|
      ensures root == g.root && nil == g.nil && nil !in g.cells && (root == nil || root in g.cells)
      ensures if root == nil then keys == [] && g.cells == map[]
              else g.cells[root].lo == 0 && g.cells[root].hi == |keys|
    {
      if root == nil {
        NilRoot(g);
      }
    }

    /** `rbtree_search`. A lookup makes at most two comparisons per black level. */
    method Search(key: ByteString) returns (node: Node, ghost steps: nat)
      requires Valid()
      ensures node == nil ==> key !in keys
      ensures node != nil ==> node in g.cells && 0 <= g.cells[node].pos < |keys| && keys[g.cells[node].pos] == key
      ensures steps <= 2 * HeightOf(g, g.root)
    {
      hide Valid, Compare, Sorted, Between, Shape, Balanced, Coupled, Linked;
      ValidParts();
      node := root;
      steps := 0;
      ghost var lo, hi := 0, |keys|;
      WholeGap(keys, key);
      RootBudget(g);
      while node != nil
        invariant Coupled() && Balanced(g) && (node == nil || node in g.cells)
        invariant Between(keys, lo, hi, key)
        invariant if node == nil then lo == hi else g.cells[node].lo == lo && g.cells[node].hi == hi
        invariant steps + Budget(g, node) <= 2 * HeightOf(g, g.root)
        decreases hi - lo
      {
        LookKey(node);
        Look(node);
        Children(g, node);
        BudgetFalls(g, node);
        ghost var pos := g.cells[node].pos;
        steps := steps + 1;
        Trichotomy(key, keys[pos]);
        if Compare(key, node.key.value) < 0 {
          GoLeft(keys, lo, hi, key, pos);
          hi := pos;
          node := node.left;
        } else if Compare(key, node.key.value) > 0 {
          GoRight(keys, lo, hi, key, pos);
          lo := pos + 1;
          node := node.right;
        } else {
          return;
        }
      }
      EmptyGap(keys, lo, key);
      BudgetNil(g);
    }

    /** `rbtree_mini`. */
    method Mini(start: Node) returns (x: Node)
      requires Coupled() && Shape(g) && start in g.cells
      ensures x in g.cells && g.cells[x].left == g.nil && g.cells[x].pos == g.cells[x].lo == g.cells[start].lo
    {
      hide Coupled, Shape, Linked;
      x := start;
      LookRoot();
      Look(x);
      Children(g, x);
      while x.left != nil
        invariant x in g.cells && x.left == g.cells[x].left && g.cells[x].lo == g.cells[start].lo
        decreases g.cells[x].hi - g.cells[x].lo
      {
        Children(g, x);
        x := x.left;
        Look(x);
        Children(g, x);
      }
      Children(g, x);
    }

    /** `rbtree_successor`: the next node in key order, or the sentinel after the last. */
    method Successor(start: Node) returns (y: Node)
      requires Coupled() && Shape(g) && start in g.cells
      ensures y == nil <==> g.cells[start].pos + 1 == |g.order|
      ensures y != nil ==> y in g.cells && g.cells[y].pos == g.cells[start].pos + 1
      ensures g.cells[start].right != g.nil ==> y in g.cells && g.cells[y].left == g.nil
    {
      hide Coupled, Shape, Linked;
      var x: Node := start;
      LookRoot();
      Look(x);
      Children(g, x);
      y := x.parent;
      if x.right != nil {
        y := Mini(x.right);
        PositionBound(g, y);
        return;
      }
      PositionBound(g, start);
      if y != nil { Look(y); }
      while y != nil && x == y.right
        invariant x in g.cells && y == g.cells[x].parent && (y == nil || y in g.cells)
        invariant g.cells[x].hi == g.cells[start].pos + 1 && g.cells[x].lo < g.cells[x].hi
        invariant y != nil ==> y.right == g.cells[y].right
        decreases |g.order| - Width(g, x)
      {
        Children(g, y);
        WidthOf(g, y);
        x := y;
        Look(x);
        Children(g, x);
        y := y.parent;
        if y != nil { Look(y); }
      }
      Children(g, x);
      if y != nil {
        Children(g, y);
        PositionBound(g, y);
      } else {
        TopSpan(g, x);
      }
    }

    // ------------------------------------------------------------------ insertion

    /** A detached node joins: the graph gains one cell. */
    ghost method Adopt(h: Graph, z: Node)
      requires Coupled() && z !in g.cells && z != nil
      requires h.nil == g.nil && h.root == g.root && h.cells.Keys == g.cells.Keys + {z} && Agrees(z, h.cells[z])
      requires forall n :: n in g.cells ==> SameLinks(g.cells[n], h.cells[n])
      modifies this`g
      ensures Coupled() && g == h
    {
      g := h;
      forall m | m in g.cells ensures Agrees(m, g.cells[m]) {
        if m != z {
          assert old(Agrees(m, g.cells[m]));
        }
      }
    }

    /** A node leaves. */
    ghost method Drop(h: Graph, y: Node)
      requires Coupled() && y in g.cells
      requires h.nil == g.nil && h.root == g.root && h.cells.Keys == g.cells.Keys - {y}
      requires forall n :: n in h.cells ==> SameLinks(g.cells[n], h.cells[n])
      modifies this`g
      ensures Coupled() && g == h
    {
      g := h;
      forall m | m in g.cells ensures Agrees(m, g.cells[m]) {
        assert old(Agrees(m, g.cells[m]));
      }
    }

    /** The descent of `rbtree_insert`: the last node on the way, or an equal key. */
    method Descend(key: ByteString) returns (y: Node, found: bool, ghost slot: int)
      requires Valid()
      ensures found <==> key in keys
      ensures !found ==> Between(keys, slot, slot, key)
      ensures !found && y == nil ==> root == nil
      ensures !found && y != nil ==>
                && y in g.cells && 0 <= g.cells[y].pos < |keys| && keys[g.cells[y].pos] != key
                && (if Less(key, keys[g.cells[y].pos]) then g.cells[y].left == g.nil && slot == g.cells[y].pos
                    else g.cells[y].right == g.nil && slot == g.cells[y].pos + 1)
    {
      hide Valid, Compare, Less, Sorted, Between, Shape, Balanced, Coupled, Linked;
      ValidParts();
      y, found := nil, false;
      var x: Node := root;
      ghost var lo, hi := 0, |keys|;
      WholeGap(keys, key);
      while x != nil
        invariant x == nil || x in g.cells
        invariant Between(keys, lo, hi, key)
        invariant if x == nil then lo == hi else g.cells[x].lo == lo && g.cells[x].hi == hi
        invariant y == nil ==> x == root
        invariant y != nil ==> y in g.cells && 0 <= g.cells[y].pos < |keys| && keys[g.cells[y].pos] != key
        invariant y != nil ==> if Less(key, keys[g.cells[y].pos]) then x == g.cells[y].left && hi == g.cells[y].pos
                               else x == g.cells[y].right && lo == g.cells[y].pos + 1
        decreases hi - lo
      {
        LookKey(x);
        Look(x);
        Children(g, x);
        y := x;
        ghost var pos := g.cells[x].pos;
        Trichotomy(key, keys[pos]);
        if Compare(key, x.key.value) < 0 {
          GoLeft(keys, lo, hi, key, pos);
          hi := pos;
          x := x.left;
        } else if Compare(key, x.key.value) > 0 {
          GoRight(keys, lo, hi, key, pos);
          lo := pos + 1;
          x := x.right;
        } else {
          return y, true, 0;
        }
      }
      EmptyGap(keys, lo, key);
      slot := lo;
    }

    /** Linking the new leaf below `y`. */
    method Attach(z: Node, y: Node, right: bool)
      requires Coupled() && Balanced(g) && z !in g.cells && z != nil
      requires if y == nil then root == nil
               else y in g.cells && (if right then g.cells[y].right == g.nil else g.cells[y].left == g.nil)
      modifies this`root, this`g, g.cells.Keys`left, g.cells.Keys`right, z`left, z`right, z`parent, z`color
      ensures Coupled() && InsertInv(g, z) && g.cells.Keys == old(g.cells.Keys) + {z}
      ensures y != nil ==> 0 <= Slot(old(g), y, right) <= |old(g).order| && g == Attached(old(g), y, z, right)
      ensures y == nil ==> old(g).order == [] && g.order == [z]
    {
      hide Coupled, Balanced, InsertInv, Attached;
      ghost var before := g;
      LookRoot();
      z.parent := y;
      if y == nil {
        EmptyTree(g);
        SetRoot(z);
        z.left, z.right, z.color := nil, nil, RED;
        SingleOk(before, z);
        Adopt(Single(before, z), z);
      } else {
        AttachOk(before, y, z, right);
        if right {
          SetRight(y, z);
        } else {
          SetLeft(y, z);
        }
        z.left, z.right, z.color := nil, nil, RED;
        AttachSame(before, y, z, right);
        Adopt(Attached(before, y, z, right), z);
      }
    }

    /** The lists change, the tree does not. */
    ghost method Record(ks: seq<ByteString>, vs: seq<ByteString>)
      requires Coupled()
      modifies this`keys, this`vals
      ensures Coupled() && keys == ks && vals == vs
    {
      keys, vals := ks, vs;
      forall m | m in g.cells ensures Agrees(m, g.cells[m]) {
        assert old(Agrees(m, g.cells[m]));
      }
    }

    /** Linking touches no key and no value. */
    method AttachHolding(z: Node, y: Node, right: bool, ghost ks: seq<ByteString>, ghost vs: seq<ByteString>)
      requires Coupled() && Balanced(g) && z !in g.cells && z != nil
      requires if y == nil then root == nil
               else y in g.cells && (if right then g.cells[y].right == g.nil else g.cells[y].left == g.nil)
      requires |ks| == |vs| == |g.order| && Holds(g.order, ks, vs)
      modifies this`root, this`g, g.cells.Keys`left, g.cells.Keys`right, z`left, z`right, z`parent, z`color
      ensures Coupled() && InsertInv(g, z) && g.cells.Keys == old(g.cells.Keys) + {z}
      ensures y != nil ==> 0 <= Slot(old(g), y, right) <= |old(g).order| && g == Attached(old(g), y, z, right)
      ensures y == nil ==> old(g).order == [] && g.order == [z]
      ensures Holds(old(g).order, ks, vs)
    {
      hide Coupled, Balanced, InsertInv, Attached, Slot;
      Attach(z, y, right);
    }

    /** The new leaf with its place in the lists. */
    method Place(z: Node, y: Node, right: bool, ghost slot: int)
      requires Valid() && z !in g.cells && z != nil && z.key.Some? && z.value.Some?
      requires if y == nil then root == nil
               else y in g.cells && (if right then g.cells[y].right == g.nil else g.cells[y].left == g.nil)
                    && slot == Slot(g, y, right)
      requires Between(keys, slot, slot, z.key.value)
      modifies this, g.cells.Keys`left, g.cells.Keys`right, z`left, z`right, z`parent, z`color
      ensures Coupled() && InsertInv(g, z) && Contents() && g.cells.Keys == old(g.cells.Keys) + {z}
      ensures keys == old(keys)[..slot] + [z.key.value] + old(keys)[slot..]
              && vals == old(vals)[..slot] + [z.value.value] + old(vals)[slot..]
    {
      hide Compare, Less, Balanced, InsertInv, Coupled, Attached, Sorted, Between, Holds, Shape, Slot;
      ghost var before, ks, vs := g, keys, vals;
      ValidParts();
      InsertSorted(ks, slot, z.key.value);
      GapInside(ks, slot, z.key.value);
      AttachHolding(z, y, right, ks, vs);
      OrderWith(before, g, y, z, right, slot);
      PlacedContents(before.order, z, slot, ks, vs);
      RecordMore(slot, z.key.value, z.value.value);
    }

    ghost method RecordMore(slot: int, key: ByteString, value: ByteString)
      requires Coupled() && |keys| == |vals| && 0 <= slot <= |keys|
      modifies this`keys, this`vals
      ensures Coupled() && keys == old(keys)[..slot] + [key] + old(keys)[slot..]
              && vals == old(vals)[..slot] + [value] + old(vals)[slot..]
    {
      hide Coupled;
      Record(keys[..slot] + [key] + keys[slot..], vals[..slot] + [value] + vals[slot..]);
    }

    /** The fixup touches no key and no value. */
    method InsertFixupHolding(z: Node, ghost ks: seq<ByteString>, ghost vs: seq<ByteString>)
      requires Coupled() && InsertInv(g, z) && |ks| == |vs| == |g.order| && Holds(g.order, ks, vs)
      modifies this`root, this`g, g.cells.Keys`color, g.cells.Keys`left, g.cells.Keys`right, g.cells.Keys`parent
      ensures Coupled() && Balanced(g) && g.order == old(g.order) && g.cells.Keys == old(g.cells.Keys)
      ensures Holds(g.order, ks, vs)
    {
      hide Coupled, InsertInv, Balanced;
      InsertFixup(z);
    }

    /** `rbtree_insert`; an equal key leaves everything as it is. */
    method Insert(z: Node)
      requires Valid() && z !in g.cells && z != nil && z.key.Some? && z.value.Some?
      modifies this, g.cells.Keys`color, g.cells.Keys`left, g.cells.Keys`right, g.cells.Keys`parent,
               z`left, z`right, z`parent, z`color
      ensures Valid()
      ensures z.key.value in old(keys) ==> g == old(g) && keys == old(keys) && vals == old(vals)
      ensures z.key.value !in old(keys) ==>
                && g.cells.Keys == old(g.cells.Keys) + {z}
                && Bindings(keys, vals) == Bindings(old(keys), old(vals))[z.key.value := z.value.value]
    {
      hide Compare, Less, Balanced, InsertInv, Coupled, Bindings, Sorted, Between, Shape, Holds;
      ValidParts();
      var y, found, slot := Descend(z.key.value);
      if found { return; }
      var right := false;
      if y != nil {
        LookKey(y);
        Trichotomy(z.key.value, keys[g.cells[y].pos]);
        right := !(Compare(z.key.value, y.key.value) < 0);
      }
      BindingsInsert(keys, vals, slot, z.key.value, z.value.value);
      Place(z, y, right, slot);
      InsertFixupHolding(z, keys, vals);
    }

    // ------------------------------------------------------------------- deletion

    /** `nil->parent` is scratch. */
    method SetScratch(p: Node)
      requires Coupled()
      modifies nil`parent
      ensures Coupled() && nil.parent == p
    {
      nil.parent := p;
      forall m | m in g.cells ensures Agrees(m, g.cells[m]) {
        assert old(Agrees(m, g.cells[m]));
      }
    }

    /** Taking a node with at most one child out of the tree. */
    method SpliceOut(y: Node) returns (x: Node)
      requires Coupled() && Shape(g) && y in g.cells && (g.cells[y].left == g.nil || g.cells[y].right == g.nil)
      modifies this`root, this`g, g.cells.Keys`left, g.cells.Keys`right, g.cells.Keys`parent, nil`parent
      ensures 0 <= old(g).cells[y].pos < |old(g).order| && Coupled() && g == Spliced(old(g), y)
      ensures x == OnlyChild(old(g), y) && x.parent == old(g).cells[y].parent
    {
      hide Coupled, Shape, Spliced, SpliceSite;
      ghost var before := g;
      PositionBound(g, y);
      SpliceReady(g, y);
      SpliceNeighbours(g, y);
      SpliceOk(g, y);
      Look(y);
      LookRoot();
      x := nil;
      if y.left != nil {
        x := y.left;
      } else if y.right != nil {
        x := y.right;
      }
      var p := y.parent;
      if x == nil {
        SetScratch(p);
      } else {
        SetParent(x, p);
      }
      ReplaceChild(p, y, x);
      SpliceSame(before, y);
      Drop(Spliced(before, y), y);
      if x != nil {
        Look(x);
        SpliceTop(before, y);
      }
    }

    /** The same, seen from the lists. */
    method SpliceOutHolding(y: Node, ghost ks: seq<ByteString>, ghost vs: seq<ByteString>) returns (x: Node)
      requires Coupled() && Shape(g) && y in g.cells && (g.cells[y].left == g.nil || g.cells[y].right == g.nil)
      requires |ks| == |vs| == |g.order| && Holds(g.order, ks, vs)
      modifies this`root, this`g, g.cells.Keys`left, g.cells.Keys`right, g.cells.Keys`parent, nil`parent
      ensures 0 <= old(g).cells[y].pos < |old(g).order| && Coupled() && g == Spliced(old(g), y)
      ensures x == OnlyChild(old(g), y) && x.parent == old(g).cells[y].parent
      ensures Holds(old(g).order, ks, vs)
    {
      hide Coupled, Shape, Spliced, SpliceSite;
      x := SpliceOut(y);
    }

    method DeleteFixupHolding(start: Node, ghost p: Node, ghost ks: seq<ByteString>, ghost vs: seq<ByteString>)
      requires Coupled() && DeleteInv(g, start, p) && (start != g.root ==> start.parent == p)
      requires |ks| == |vs| == |g.order| && Holds(g.order, ks, vs)
      modifies this`root, this`g, g.cells.Keys`color, g.cells.Keys`left, g.cells.Keys`right, g.cells.Keys`parent,
               nil`color
      ensures Coupled() && Balanced(g) && g.order == old(g.order) && g.cells.Keys == old(g.cells.Keys)
      ensures Holds(g.order, ks, vs)
    {
      hide Coupled, DeleteInv, Balanced;
      DeleteFixup(start, p);
    }

    /** The removed node takes the removed key and value with it. */
    method SwapContents(z: Node, y: Node, ghost order: seq<Node>, ghost zi: int, ghost yi: int)
      requires Coupled() && z != nil && y != nil
      requires |keys| == |vals| == |order| && Holds(order, keys, vals) && Distinct(order)
      requires 0 <= zi < |order| && 0 <= yi < |order| && order[zi] == z && order[yi] == y && (zi == yi || yi == zi + 1)
      modifies this`keys, this`vals, z`key, z`value, y`key, y`value
      ensures Coupled() && keys == old(keys)[..zi] + old(keys)[zi + 1..]
              && vals == old(vals)[..zi] + old(vals)[zi + 1..]
      ensures Holds(order[..yi] + order[yi + 1..], keys, vals)
      ensures y.key == Some(old(keys)[zi]) && y.value == Some(old(vals)[zi])
    {
      if y != z {
        z.key, y.key := y.key, z.key;
        z.value, y.value := y.value, z.value;
      }
      keys, vals := keys[..zi] + keys[zi + 1..], vals[..zi] + vals[zi + 1..];
      ghost var o := order[..yi] + order[yi + 1..];
      forall i | 0 <= i < |o| ensures o[i].key == Some(keys[i]) && o[i].value == Some(vals[i]) {
        assert o[i] == order[if i < yi then i else i + 1];
      }
      forall m | m in g.cells ensures Agrees(m, g.cells[m]) {
        assert old(Agrees(m, g.cells[m]));
      }
    }

    /** The node that leaves the tree: `z` itself, or its successor. */
    method Victim(z: Node) returns (y: Node)
      requires Coupled() && Shape(g) && z in g.cells
      ensures y in g.cells && (g.cells[y].left == g.nil || g.cells[y].right == g.nil)
      ensures y == z || g.cells[y].pos == g.cells[z].pos + 1
    {
      hide Coupled, Shape;
      LookRoot();
      Look(z);
      if z.left == nil || z.right == nil {
        y := z;
      } else {
        y := Successor(z);
      }
    }

    /** The tree without `y`, balanced again. */
    method Unlink(y: Node, ghost ks: seq<ByteString>, ghost vs: seq<ByteString>) returns (x: Node)
      requires Coupled() && Balanced(g) && y in g.cells && (g.cells[y].left == g.nil || g.cells[y].right == g.nil)
      requires |ks| == |vs| == |g.order| && Holds(g.order, ks, vs)
      modifies this`root, this`g, g.cells.Keys`left, g.cells.Keys`right, g.cells.Keys`parent, nil`parent
      ensures Coupled() && g == Spliced(old(g), y) && x.parent == old(g).cells[y].parent
              && g.cells.Keys == old(g.cells.Keys) - {y}
      ensures if old(g).cells[y].color == RED then Balanced(g)
              else DeleteInv(g, x, old(g).cells[y].parent)
      ensures Holds(old(g).order, ks, vs)
    {
      hide Coupled, Balanced, Shape, Holds, Spliced, DeleteInv;
      ShapeIn(g);
      PositionBound(g, y);
      SpliceDomain(g, y);
      if g.cells[y].color == RED {
        SpliceRed(g, y);
      } else {
        SpliceBlack(g, y);
      }
      x := SpliceOutHolding(y, ks, vs);
    }

    /** Everything after the choice of `y`. */
    method Remove(z: Node, y: Node)
      requires Valid() && z in g.cells && y in g.cells && (g.cells[y].left == g.nil || g.cells[y].right == g.nil)
      requires y == z || g.cells[y].pos == g.cells[z].pos + 1
      modifies this, g.cells.Keys, nil`parent, nil`color
      ensures 0 <= old(g).cells[z].pos < |old(keys)| && |old(keys)| == |old(vals)|
      ensures var zi := old(g).cells[z].pos;
              && keys == old(keys)[..zi] + old(keys)[zi + 1..] && vals == old(vals)[..zi] + old(vals)[zi + 1..]
              && y.key == Some(old(keys)[zi]) && y.value == Some(old(vals)[zi])
      ensures Coupled() && Balanced(g) && |keys| == |vals| == |g.order| && Holds(g.order, keys, vals)
      ensures g.cells.Keys == old(g.cells.Keys) - {y}
    {
      hide Coupled, Balanced, Shape, Sorted, Holds, Spliced, DeleteInv;
      ghost var before, ks, vs := g, keys, vals;
      ValidParts();
      OrderFacts(g, y);
      OrderFacts(g, z);
      SplicedOrderIs(g, y);
      Look(y);
      var x := Unlink(y, ks, vs);
      SwapContents(z, y, before.order, before.cells[z].pos, before.cells[y].pos);
      if y.color == BLACK {
        DeleteFixupHolding(x, before.cells[y].parent, keys, vals);
      }
    }

    /** `rbtree_delete`: exactly the binding of `z` goes; the detached node carries it. */
    method Delete(z: Node) returns (y: Node)
      requires Valid() && z in g.cells
      modifies this, g.cells.Keys, nil`parent, nil`color
      ensures Valid() && nil.color == BLACK && nil.key == None && nil.value == None
      ensures y in old(g.cells.Keys) && y != nil && g.cells.Keys == old(g.cells.Keys) - {y}
      ensures old(z.key).Some? && old(z.key).value in old(keys) && y.key == old(z.key) && y.value == old(z.value)
      ensures Bindings(keys, vals) == Bindings(old(keys), old(vals)) - {old(z.key).value} && |keys| == |old(keys)| - 1
    {
      hide Coupled, Balanced, Shape, Sorted, Holds, Bindings;
      ValidParts();
      LookKey(z);
      BindingsRemove(keys, vals, g.cells[z].pos);
      y := Victim(z);
      Remove(z, y);
      LookNil();
    }

    lemma LookNil()
      requires Coupled()
      ensures nil.color == BLACK && nil.key == None && nil.value == None
    {
    }

    // ----------------------------------------------------------------- the engine

    /** The map the engine stores. */
    ghost function Contained(): Table
      requires |keys| == |vals|
      reads this
    {
      Bindings(keys, vals)
    }

    lemma Found(n: Node)
      requires Valid() && n in g.cells
      ensures |keys| == |vals| && n.key.Some? && n.key.value in Contained()
      ensures 0 <= g.cells[n].pos < |keys| && keys[g.cells[n].pos] == n.key.value
      ensures n.value == Some(Contained()[n.key.value])
    {
      LookKey(n);
      BindingsFacts(keys, vals);
    }

    lemma Missing(key: ByteString)
      requires Valid()
      ensures |keys| == |vals| && (key in Contained() <==> key in keys)
    {
      BindingsFacts(keys, vals);
    }

    /** Replacing the value of an existing node. */
    method Overwrite(n: Node, value: ByteString)
      requires Valid() && n in g.cells && n.key.Some?
      modifies this`vals, n`value
      ensures Valid() && Contained() == old(Contained())[n.key.value := value] && g == old(g)
    {
      hide Balanced, Sorted, Bindings;
      LookKey(n);
      OrderOnce(g, n);
      ghost var i := g.cells[n].pos;
      BindingsUpdate(keys, vals, i, value);
      n.value := Some(value);
      vals := vals[i := value];
      forall m | m in g.cells ensures Agrees(m, g.cells[m]) {
        assert old(Agrees(m, g.cells[m]));
      }
    }

    /** `kvs_rbtree_set`. */
    method Set(key: ByteString, value: ByteString) returns (code: int)
      requires Valid()
      modifies this, g.cells.Keys
      ensures Valid() && fresh(g.cells.Keys - old(g.cells.Keys))
      ensures code == 0 && Contained() == old(Contained())[key := value]
      ensures EngineResult(Contained(), code) == RunSet(TreeEngine, old(Contained()), key, value)
    {
      hide Valid, Bindings;
      ValidLists();
      Missing(key);
      var existing, _ := Search(key);
      NilKnown();
      if existing != nil {
        Found(existing);
        Overwrite(existing, value);
        ValidLists();
        return 0;
      }
      var node := new Node(key, value);
      Insert(node);
      ValidLists();
      return 0;
    }

    lemma ValidLists()
      requires Valid()
      ensures |keys| == |vals|
    {
    }

    lemma NilKnown()
      requires Valid()
      ensures nil !in g.cells && nil.value == None
    {
    }

    /** `kvs_rbtree_get`; a missing key ends at the sentinel, which has no value. */
    method Get(key: ByteString) returns (value: Option<ByteString>)
      requires Valid()
      ensures |keys| == |vals|
      ensures value == if key in Contained() then Some(Contained()[key]) else None
    {
      hide Valid, Bindings;
      ValidLists();
      Missing(key);
      NilKnown();
      var node, _ := Search(key);
      if node in g.cells {
        Found(node);
      }
      return node.value;
    }

    /** `kvs_rbtree_del`. */
    method Del(key: ByteString) returns (code: int)
      requires Valid()
      modifies this, g.cells.Keys, nil`parent, nil`color
      ensures Valid() && g.cells.Keys <= old(g.cells.Keys)
      ensures code == (if key in old(Contained()) then 0 else 1) && Contained() == old(Contained()) - {key}
      ensures EngineResult(Contained(), code) == RunDel(TreeEngine, old(Contained()), key)
    {
      hide Valid, Bindings;
      ValidLists();
      Missing(key);
      NilKnown();
      var node, _ := Search(key);
      if node == nil {
        return 1;
      }
      Found(node);
      var removed := Delete(node);
      ValidLists();
      return 0;
    }

    /** `kvs_rbtree_mod`. */
    method Mod(key: ByteString, value: ByteString) returns (code: int)
      requires Valid()
      modifies this, g.cells.Keys
      ensures Valid() && g.cells.Keys == old(g.cells.Keys)
      ensures code == (if key in old(Contained()) then 0 else 1)
      ensures Contained() == if key in old(Contained()) then old(Contained())[key := value] else old(Contained())
      ensures EngineResult(Contained(), code) == RunMod(old(Contained()), key, value)
    {
      hide Valid, Bindings;
      ValidLists();
      Missing(key);
      NilKnown();
      var node, _ := Search(key);
      if node == nil {
        return 1;
      }
      Found(node);
      Overwrite(node, value);
      ValidLists();
      return 0;
    }

    /** `kvs_rbtree_exist`. */
    method Exist(key: ByteString) returns (code: int)
      requires Valid()
      ensures |keys| == |vals| && code == (if key in Contained() then 0 else 1)
      ensures EngineResult(Contained(), code) == RunExist(Contained(), key)
    {
      hide Valid, Bindings;
      ValidLists();
      Missing(key);
      NilKnown();
      var node, _ := Search(key);
      return if node == nil then 1 else 0;
    }

    /** `kvs_rbtree_destory`: removes the smallest node until none is left. */
    method Destroy()
      requires Valid()
      modifies this, g.cells.Keys, nil`parent, nil`color
      ensures Valid() && Contained() == map[] && g.cells == map[]
    {
      hide Valid, Bindings, Shape, Balanced, Coupled;
      ghost var all := g.cells.Keys;
      ValidParts();
      while root != nil
        invariant Valid() && g.cells.Keys <= all
        decreases |keys|
      {
        ValidParts();
        var smallest := Mini(root);
        var removed := Delete(smallest);
      }
      ValidParts();
      NoBindings(keys, vals);
    }

    /** The nodes of the subtree are those at positions `lo` to `hi`. */
    ghost predicate Spans(n: Node, lo: int, hi: int)
      reads this
    {
      && 0 <= lo <= hi <= |keys| && |keys| == |vals|
      && if n == nil then lo == hi else n in g.cells && g.cells[n].lo == lo && g.cells[n].hi == hi && lo < hi
    }

    lemma ChildSpans(n: Node, lo: int, hi: int) returns (pos: int)
      requires Valid() && Spans(n, lo, hi) && n != nil
      ensures lo <= pos < hi && Spans(n.left, lo, pos) && Spans(n.right, pos + 1, hi)
      ensures n.key == Some(keys[pos]) && n.value == Some(vals[pos])
    {
      hide Valid, Shape, Balanced, Coupled, Sorted;
      ValidParts();
      LookKey(n);
      Look(n);
      Children(g, n);
      pos := g.cells[n].pos;
      if n.left != nil {
        Children(g, n.left);
      }
      if n.right != nil {
        Children(g, n.right);
      }
    }

    /** `kvs_rbtree_foreach_node`: the bindings of a subtree in key order, up to the call that the
        visitor refuses. */
    method VisitNode(n: Node, accepts: nat, ghost lo: int, ghost hi: int)
      returns (result: int, ks: seq<ByteString>, vs: seq<ByteString>)
      requires Valid() && Spans(n, lo, hi)
      ensures |keys| == |vals| && 0 <= lo <= hi <= |keys|
      ensures result == if accepts < hi - lo then -1 else 0
      ensures ks == keys[lo..lo + Visits(hi - lo, accepts)] && vs == vals[lo..lo + Visits(hi - lo, accepts)]
      decreases hi - lo
    {
      hide Valid, Visits;
      VisitsRange(hi - lo, accepts);
      if n == nil {
        return 0, [], [];
      }
      ghost var pos := ChildSpans(n, lo, hi);
      VisitsRange(pos - lo, accepts);
      var lks, lvs, rks, rvs;
      result, lks, lvs := VisitNode(n.left, accepts, lo, pos);
      LeftVisited(keys, lo, pos, hi, accepts);
      LeftVisited(vals, lo, pos, hi, accepts);
      if result < 0 { return result, lks, lvs; }
      if |lks| == accepts {
        RootVisited(keys, lo, pos, hi, accepts);
        RootVisited(vals, lo, pos, hi, accepts);
        return -1, lks + [n.key.value], lvs + [n.value.value];
      }
      result, rks, rvs := VisitNode(n.right, accepts - |lks| - 1, pos + 1, hi);
      RightVisited(keys, lo, pos, hi, accepts);
      RightVisited(vals, lo, pos, hi, accepts);
      ks, vs := lks + [n.key.value] + rks, lvs + [n.value.value] + rvs;
    }

    /** `kvs_rbtree_foreach` with a visitor that answers `accepts` calls before it refuses one:
        every binding once, in key order, up to that call. */
    method ForEach(accepts: nat) returns (result: int, ks: seq<ByteString>, vs: seq<ByteString>)
      requires Valid()
      ensures |keys| == |vals| && Sorted(keys) && Bindings(keys, vals) == Contained()
      ensures result == if accepts < |keys| then -1 else 0
      ensures ks == keys[..Visits(|keys|, accepts)] && vs == vals[..Visits(|keys|, accepts)]
    {
      hide Shape, Balanced, Coupled, Sorted, Bindings;
      ValidParts();
      WholeSpan();
      result, ks, vs := VisitNode(root, accepts, 0, |keys|);
    }

    lemma WholeSpan()
      requires Valid()
      ensures Spans(root, 0, |keys|)
    {
      hide Valid, Balanced, Coupled, Sorted;
      ValidParts();
      if root != nil {
        RootSpan();
      }
    }

    lemma RootSpan()
      requires Valid() && root != nil
      ensures root in g.cells && g.cells[root].lo == 0 && g.cells[root].hi == |keys| > 0
    {
      hide Valid, Balanced, Coupled, Sorted;
      ValidParts();
      Children(g, root);
    }
  }

  lemma VisitsRange(total: nat, accepts: nat)
    ensures Visits(total, accepts) <= total && (accepts >= total ==> Visits(total, accepts) == total)
  {
  }

  /** A walk that ends in the left subtree. */
  lemma LeftVisited(s: seq<ByteString>, lo: int, pos: int, hi: int, accepts: nat)
    requires 0 <= lo <= pos < hi <= |s|
    ensures s[lo..lo + Visits(pos - lo, accepts)] == if accepts < pos - lo then s[lo..lo + Visits(hi - lo, accepts)]
            else s[lo..pos]
  {
  }

  /** A walk that ends at the root of the subtree. */
  lemma RootVisited(s: seq<ByteString>, lo: int, pos: int, hi: int, accepts: nat)
    requires 0 <= lo <= pos < hi <= |s| && accepts == pos - lo
    ensures s[lo..pos] + [s[pos]] == s[lo..lo + Visits(hi - lo, accepts)]
  {
  }

  /** A walk that goes on in the right subtree. */
  lemma RightVisited(s: seq<ByteString>, lo: int, pos: int, hi: int, accepts: nat)
    requires 0 <= lo <= pos < hi <= |s| && accepts > pos - lo
    ensures s[lo..pos] + [s[pos]] + s[pos + 1..pos + 1 + Visits(hi - pos - 1, accepts - (pos - lo) - 1)]
            == s[lo..lo + Visits(hi - lo, accepts)]
  {
  }

  predicate SameLinks(a: Cell, b: Cell) {
    a.color == b.color && a.left == b.left && a.right == b.right && a.parent == b.parent
  }

  lemma EmptyTree(g: Graph)
    requires Balanced(g) && g.root == g.nil
    ensures g.cells == map[] && g.order == []
  {
    NilRoot(g);
  }

  lemma AttachSame(g: Graph, y: Node, z: Node, right: bool)
    requires y in g.cells && z !in g.cells && z != g.nil && 0 <= Slot(g, y, right) <= |g.order|
    ensures var h := WithCell(g, y, if right then g.cells[y].(right := z) else g.cells[y].(left := z));
            var a := Attached(g, y, z, right);
            && a.nil == h.nil && a.root == h.root && a.cells.Keys == h.cells.Keys + {z}
            && (forall n :: n in h.cells ==> SameLinks(h.cells[n], a.cells[n]))
            && a.cells[z] == Cell(RED, g.nil, g.nil, y, Slot(g, y, right), Slot(g, y, right), Slot(g, y, right) + 1, 0)
  {
  }

  lemma GapInside(keys: seq<ByteString>, slot: int, key: ByteString)
    requires Between(keys, slot, slot, key)
    ensures 0 <= slot <= |keys|
  {
  }

  /** The key order with the new node in its slot. */
  lemma OrderWith(g: Graph, h: Graph, y: Node, z: Node, right: bool, slot: int)
    requires 0 <= slot <= |g.order|
    requires if y == g.nil then g.order == [] && h.order == [z]
             else y in g.cells && slot == Slot(g, y, right) && h == Attached(g, y, z, right)
    ensures h.order == g.order[..slot] + [z] + g.order[slot..]
  {
  }

  /** Every node still owns its key and value after one more was placed. */
  lemma PlacedContents(order: seq<Node>, z: Node, slot: int, keys: seq<ByteString>, vals: seq<ByteString>)
    requires |keys| == |vals| == |order| && 0 <= slot <= |order| && z.key.Some? && z.value.Some?
    requires Holds(order, keys, vals)
    ensures Holds(order[..slot] + [z] + order[slot..], keys[..slot] + [z.key.value] + keys[slot..],
                  vals[..slot] + [z.value.value] + vals[slot..])
  {
    var o := order[..slot] + [z] + order[slot..];
    forall i | 0 <= i < |o| && i != slot ensures o[i] == order[if i < slot then i else i - 1] {
    }
  }

  ghost predicate Distinct(order: seq<Node>) {
    forall i, j :: 0 <= i < j < |order| ==> order[i] != order[j]
  }

  lemma OrderFacts(g: Graph, n: Node)
    requires Shape(g) && n in g.cells
    ensures Distinct(g.order) && 0 <= g.cells[n].pos < |g.order| && g.order[g.cells[n].pos] == n
  {
  }

  lemma SplicedOrderIs(g: Graph, y: Node)
    requires y in g.cells && 0 <= g.cells[y].pos < |g.order|
    ensures Spliced(g, y).order == g.order[..g.cells[y].pos] + g.order[g.cells[y].pos + 1..]
  {
  }

  lemma SpliceNeighbours(g: Graph, y: Node)
    requires SpliceSite(g, y)
    ensures var x, p := OnlyChild(g, y), g.cells[y].parent;
            && y in g.cells && g.nil !in g.cells && (p == g.nil || p in g.cells) && (x == g.nil || x in g.cells)
            && x != y && p != y && (x == g.nil || x != p)
            && (x == g.nil ==> g.cells[y].left == g.nil && g.cells[y].right == g.nil)
  {
    SpliceApart(g, y);
  }

  /** The statements of the splice as one graph update. */
  function SpliceUpdates(g: Graph, y: Node): Graph
    requires y in g.cells && (OnlyChild(g, y) == g.nil || OnlyChild(g, y) in g.cells)
    requires g.cells[y].parent == g.nil || g.cells[y].parent in g.cells
  {
    var x, p := OnlyChild(g, y), g.cells[y].parent;
    var g1 := if x == g.nil then g else WithCell(g, x, g.cells[x].(parent := p));
    ReplacedChild(g1, p, y, x)
  }

  lemma SpliceSame(g: Graph, y: Node)
    requires y in g.cells && 0 <= g.cells[y].pos < |g.order| && g.nil !in g.cells
    requires var x, p := OnlyChild(g, y), g.cells[y].parent;
             && (p == g.nil || p in g.cells) && (x == g.nil || x in g.cells) && x != y && p != y
             && (x == g.nil || x != p)
    ensures var h, s := SpliceUpdates(g, y), Spliced(g, y);
            && s.nil == h.nil && s.root == h.root && y in h.cells && s.cells.Keys == h.cells.Keys - {y}
            && forall n :: n in s.cells ==> SameLinks(h.cells[n], s.cells[n])
  {
    hide Spliced;
    SpliceDomain(g, y);
  }

  lemma SpliceDomain(g: Graph, y: Node)
    requires y in g.cells && 0 <= g.cells[y].pos < |g.order|
    ensures Spliced(g, y).cells.Keys == g.cells.Keys - {y} && Spliced(g, y).nil == g.nil
  {
  }

  lemma SpliceTop(g: Graph, y: Node)
    requires y in g.cells && 0 <= g.cells[y].pos < |g.order| && OnlyChild(g, y) in g.cells && OnlyChild(g, y) != y
    ensures OnlyChild(g, y) in Spliced(g, y).cells && Spliced(g, y).cells[OnlyChild(g, y)].parent == g.cells[y].parent
  {
  }

  lemma SpliceOk(g: Graph, y: Node)
    requires Shape(g) && y in g.cells && (g.cells[y].left == g.nil || g.cells[y].right == g.nil)
    ensures 0 <= g.cells[y].pos < |g.order| && Shape(Spliced(g, y))
  {
    SpliceShape(g, y);
  }

  lemma OrderOnce(g: Graph, n: Node)
    requires Balanced(g) && n in g.cells
    ensures forall i :: 0 <= i < |g.order| && i != g.cells[n].pos ==> g.order[i] != n
  {
  }

  lemma NoBindings(keys: seq<ByteString>, vals: seq<ByteString>)
    requires |keys| == |vals| == 0
    ensures Bindings(keys, vals) == map[]
  {
    assert Bindings(keys, vals).Keys == {};
  }

  /** A node and its children, by position. */
  lemma Children(g: Graph, n: Node)
    requires Shape(g) && n in g.cells
    ensures var c := g.cells[n];
            && c.lo <= c.pos < c.hi
            && (if c.left == g.nil then c.lo == c.pos
                else c.left in g.cells && g.cells[c.left].lo == c.lo && g.cells[c.left].hi == c.pos
                     && g.cells[c.left].parent == n)
            && (if c.right == g.nil then c.hi == c.pos + 1
                else c.right in g.cells && g.cells[c.right].lo == c.pos + 1 && g.cells[c.right].hi == c.hi
                     && g.cells[c.right].parent == n)
            && (c.parent == g.nil || (c.parent in g.cells
                                      && (g.cells[c.parent].left == n || g.cells[c.parent].right == n)))
            && (n == g.root <==> c.parent == g.nil)
  {
    assert Linked(g, n);
  }

  lemma PositionBound(g: Graph, n: Node)
    requires Shape(g) && n in g.cells
    ensures 0 <= g.cells[n].pos < |g.order|
  {
  }

  lemma WidthOf(g: Graph, n: Node)
    requires Shape(g) && n in g.cells
    ensures 0 <= g.cells[n].lo && g.cells[n].hi <= |g.order|
  {
    SpanEnds(g, n);
  }

  lemma TopSpan(g: Graph, n: Node)
    requires Shape(g) && n in g.cells && g.cells[n].parent == g.nil
    ensures g.cells[n].hi == |g.order|
  {
    Children(g, n);
  }

  lemma WholeGap(keys: seq<ByteString>, key: ByteString)
    ensures Between(keys, 0, |keys|, key)
  {
  }

  lemma EmptyGap(keys: seq<ByteString>, slot: int, key: ByteString)
    requires Sorted(keys) && Between(keys, slot, slot, key)
    ensures key !in keys
  {
    InsertSorted(keys, slot, key);
  }

  lemma Trichotomy(a: ByteString, b: ByteString)
    ensures Compare(a, b) == 0 <==> a == b
    ensures Compare(a, b) < 0 <==> Less(a, b)
    ensures Compare(a, b) > 0 <==> Less(b, a)
  {
    CompareEqual(a, b);
    CompareFlip(a, b);
    CompareFlip(b, a);
  }

  /** The comparisons that may still follow at a node. */
  function Budget(g: Graph, n: Node): int {
    2 * HeightOf(g, n) + (if ColorOf(g, n) == RED then 1 else 0)
  }

  lemma RootBudget(g: Graph)
    requires Balanced(g)
    ensures Budget(g, g.root) <= 2 * HeightOf(g, g.root)
  {
  }

  lemma BudgetNil(g: Graph)
    requires Balanced(g)
    ensures Budget(g, g.nil) == 0
  {
  }

  lemma BudgetFalls(g: Graph, n: Node)
    requires Balanced(g) && n in g.cells
    ensures Budget(g, g.cells[n].left) + 1 <= Budget(g, n) && Budget(g, g.cells[n].right) + 1 <= Budget(g, n)
    ensures Budget(g, n) >= 1
  {
    hide Shape;
    assert HeightOk(g, n) && RedOk(g, n, g.nil);
    assert ColorOf(g, g.nil) == BLACK by { NilOut(g); }
  }

  lemma NilOut(g: Graph)
    requires Balanced(g)
    ensures g.nil !in g.cells
  {
  }

  /** A subtree of black height `h` has at least 2^h - 1 nodes. */
  lemma {:induction false} BlackHeightBound(g: Graph, n: Node)
    requires Balanced(g) && n in g.cells
    ensures HeightOf(g, n) >= 0 && PowerOfTwo(HeightOf(g, n)) <= g.cells[n].hi - g.cells[n].lo + 1
    decreases g.cells[n].hi - g.cells[n].lo
  {
    hide Shape;
    NilOut(g);
    ShapeIn(g);
    Children(g, n);
    assert HeightOk(g, n);
    var c := g.cells[n];
    if c.left in g.cells {
      BlackHeightBound(g, c.left);
    }
    if c.right in g.cells {
      BlackHeightBound(g, c.right);
    }
  }

  lemma ShapeIn(g: Graph)
    requires Balanced(g)
    ensures Shape(g)
  {
  }

  /** The height of a subtree in nodes. */
  ghost function Height(g: Graph, n: Node): nat
    requires Shape(g)
    decreases if n in g.cells then g.cells[n].hi - g.cells[n].lo else 0
  {
    if n !in g.cells then 0
    else
      Children(g, n);
      assert g.nil !in g.cells;
      var l, r := Height(g, g.cells[n].left), Height(g, g.cells[n].right);
      1 + if l > r then l else r
  }

  lemma {:induction false} HeightWithin(g: Graph, n: Node)
    requires Balanced(g) && (n in g.cells || n == g.nil)
    ensures Budget(g, n) >= 0 && Height(g, n) <= Budget(g, n)
    decreases if n in g.cells then g.cells[n].hi - g.cells[n].lo else 0
  {
    ShapeIn(g);
    BudgetNil(g);
    hide Balanced, Shape;
    NilOut(g);
    if n in g.cells {
      Children(g, n);
      BudgetFalls(g, n);
      HeightWithin(g, g.cells[n].left);
      HeightWithin(g, g.cells[n].right);
    }
  }

  /** A tree of n keys is at most 2 log2(n + 1) nodes high: with h the height,
      2^(h / 2) <= n + 1. */
  lemma LogarithmicHeight(g: Graph)
    requires Balanced(g)
    ensures Height(g, g.root) <= 2 * HeightOf(g, g.root)
    ensures HeightOf(g, g.root) >= 0 && PowerOfTwo(HeightOf(g, g.root)) <= |g.order| + 1
  {
    RootIn(g);
    HeightWithin(g, g.root);
    RootBudget(g);
    if g.root in g.cells {
      BlackHeightBound(g, g.root);
    }
  }

  lemma RootIn(g: Graph)
    requires Balanced(g)
    ensures g.root in g.cells || g.root == g.nil
  {
  }

  lemma DrainTail(g: Graph, px: Node, w: Node)
    requires px in g.cells && w in g.cells && px != w
    ensures SamePointers(Paint(g, w, RED, g.cells[w].bh - 1), Drained(g, px, w))
  {
  }

  lemma OuterOf(g: Graph, x: Node, px: Node)
    requires DeleteInv(g, x, px) && x != g.root && px in g.cells && g.cells[px].right in g.cells
             && g.cells[px].left == x
    requires g.cells[g.cells[px].right].right in g.cells
    ensures var w := g.cells[px].right; px != w && g.cells[w].right != w && g.cells[w].right != px
  {
    assert Linked(g, g.cells[px].right) && Linked(g, px);
  }

  /** At the root nothing is missing, whatever the second argument. */
  lemma RootInv(g: Graph, px: Node, py: Node)
    requires DeleteInv(g, g.root, px)
    ensures DeleteInv(g, g.root, py)
  {
  }

  lemma RootInside(g: Graph, n: Node)
    requires n in g.cells && DeleteInv(g, n, g.cells[n].parent)
    ensures n == g.root ==> forall p {:trigger DeleteInv(g, n, p)} :: DeleteInv(g, n, p)
  {
    if n == g.root {
      forall p ensures DeleteInv(g, n, p) {
        RootInv(g, g.cells[n].parent, p);
      }
    }
  }

  function RaisedColors(g: Graph, px: Node, w: Node, outer: Node): Graph
    requires px in g.cells && w in g.cells && outer in g.cells
  {
    Paint(Paint(Paint(g, w, g.cells[px].color, g.cells[px].bh), px, BLACK, g.cells[w].bh), outer, BLACK,
          g.cells[outer].bh + 1)
  }

  lemma Raised4Same(g: Graph, px: Node, w: Node)
    requires px in g.cells && w in g.cells && g.cells[w].right in g.cells
    ensures RaisedColors(g, px, w, g.cells[w].right) == Raised4(g, px, w)
  {
  }

  lemma Raised4RightSame(g: Graph, px: Node, w: Node)
    requires px in g.cells && w in g.cells && g.cells[w].left in g.cells
    ensures RaisedColors(g, px, w, g.cells[w].left) == Raised4Right(g, px, w)
  {
  }

  /** A rotation resizes only its two nodes. */
  lemma WidthLeft(g: Graph, w: Node, px: Node, x: Node)
    requires w in g.cells && px in g.cells && g.cells[px].right == w && w != px && x != px && x != w
    ensures Swapped(g, w, px).cells[px].right in Swapped(g, w, px).cells
    ensures Width(RotateLeft(Swapped(g, w, px), px), x) == Width(g, x)
  {
  }

  lemma WidthRight(g: Graph, w: Node, px: Node, x: Node)
    requires w in g.cells && px in g.cells && g.cells[px].left == w && w != px && x != px && x != w
    ensures Swapped(g, w, px).cells[px].left in Swapped(g, w, px).cells
    ensures Width(RotateRight(Swapped(g, w, px), px), x) == Width(g, x)
  {
    var s := Swapped(g, w, px);
    assert s.cells[px].left == w;
    SameNodes(Mirror(s), px);
    hide RotateLeft;
  }

  lemma PaintFrame(g: Graph, n: Node, color: Color, bh: int)
    requires n in g.cells
    ensures Paint(g, n, color, bh).order == g.order && Paint(g, n, color, bh).cells.Keys == g.cells.Keys
            && Paint(g, n, color, bh).root == g.root
  {
  }

  function WithCell(g: Graph, n: Node, c: Cell): (r: Graph)
    requires n in g.cells
    ensures r.cells.Keys == g.cells.Keys
  {
    g.(cells := g.cells[n := c])
  }

  /** The same pointers and colours. */
  ghost predicate SamePointers(g: Graph, h: Graph) {
    && g.nil == h.nil && g.root == h.root && g.cells.Keys == h.cells.Keys
    && forall n :: n in g.cells ==>
         && g.cells[n].color == h.cells[n].color && g.cells[n].left == h.cells[n].left
         && g.cells[n].right == h.cells[n].right && g.cells[n].parent == h.cells[n].parent
  }

  function ReplacedChild(g: Graph, p: Node, child: Node, n: Node): Graph
    requires p == g.nil || p in g.cells
  {
    if p == g.nil then g.(root := n)
    else if g.cells[p].left == child then WithCell(g, p, g.cells[p].(left := n))
    else WithCell(g, p, g.cells[p].(right := n))
  }

  ghost predicate Neighbours(g: Graph, x: Node, y: Node, p: Node, b: Node) {
    && x in g.cells && y in g.cells && g.nil !in g.cells && (p == g.nil || p in g.cells) && (b == g.nil || b in g.cells)
    && x != y && x != p && y != p && b != x && b != y && (b == g.nil || b != p)
    && g.cells[x].parent == p && (p in g.cells ==> g.cells[p].left == x || g.cells[p].right == x)
  }

  /** The statements of the left rotation, one after the other, as one graph update. */
  function LeftUpdates(g: Graph, x: Node, y: Node, p: Node, b: Node): Graph
    requires Neighbours(g, x, y, p, b)
  {
    var g1 := WithCell(g, x, g.cells[x].(right := b));
    var g2 := if b != g.nil then WithCell(g1, b, g1.cells[b].(parent := x)) else g1;
    var g3 := WithCell(g2, y, g2.cells[y].(parent := p));
    var g4 := ReplacedChild(g3, p, x, y);
    var g5 := WithCell(g4, y, g4.cells[y].(left := x));
    WithCell(g5, x, g5.cells[x].(parent := y))
  }

  lemma LeftUpdatesAt(g: Graph, x: Node, y: Node, p: Node, b: Node, n: Node)
    requires Neighbours(g, x, y, p, b) && n in g.cells
    ensures var h := LeftUpdates(g, x, y, p, b);
            && n in h.cells && h.nil == g.nil && h.root == (if p == g.nil then y else g.root)
            && h.cells.Keys == g.cells.Keys
            && h.cells[n] == (if n == x then g.cells[n].(right := b, parent := y)
                              else if n == y then g.cells[n].(left := x, parent := p)
                              else if n == p then (if g.cells[n].left == x then g.cells[n].(left := y)
                                                   else g.cells[n].(right := y))
                              else if n == b then g.cells[n].(parent := x) else g.cells[n])
  {
  }

  lemma LeftTurned(g: Graph, x: Node)
    requires RotationSite(g, x)
    ensures var y := g.cells[x].right;
            && Neighbours(g, x, y, g.cells[x].parent, g.cells[y].left)
            && SamePointers(LeftUpdates(g, x, y, g.cells[x].parent, g.cells[y].left), RotateLeft(g, x))
  {
    RotationNeighbours(g, x);
    SameNodes(g, x);
    RotatedRoot(g, x);
    hide RotateLeft, RotationSite, LeftUpdates;
    var y := g.cells[x].right;
    forall n | n in g.cells
      ensures var h := LeftUpdates(g, x, y, g.cells[x].parent, g.cells[y].left);
              && h.nil == g.nil && h.root == RotateLeft(g, x).root && h.cells.Keys == g.cells.Keys
              && h.cells[n].color == RotateLeft(g, x).cells[n].color
              && h.cells[n].left == RotateLeft(g, x).cells[n].left
              && h.cells[n].right == RotateLeft(g, x).cells[n].right
              && h.cells[n].parent == RotateLeft(g, x).cells[n].parent
    {
      LeftUpdatesAt(g, x, y, g.cells[x].parent, g.cells[y].left, n);
    }
  }

  function ReplacedRight(g: Graph, p: Node, child: Node, n: Node): Graph
    requires p == g.nil || p in g.cells
  {
    if p == g.nil then g.(root := n)
    else if g.cells[p].right == child then WithCell(g, p, g.cells[p].(right := n))
    else WithCell(g, p, g.cells[p].(left := n))
  }

  /** The statements of the right rotation. */
  function RightUpdates(g: Graph, y: Node, x: Node, p: Node, b: Node): Graph
    requires Neighbours(g, y, x, p, b)
  {
    var g1 := WithCell(g, y, g.cells[y].(left := b));
    var g2 := if b != g.nil then WithCell(g1, b, g1.cells[b].(parent := y)) else g1;
    var g3 := WithCell(g2, x, g2.cells[x].(parent := p));
    var g4 := ReplacedRight(g3, p, y, x);
    var g5 := WithCell(g4, x, g4.cells[x].(right := y));
    WithCell(g5, y, g5.cells[y].(parent := x))
  }

  lemma RightUpdatesAt(g: Graph, y: Node, x: Node, p: Node, b: Node, n: Node)
    requires Neighbours(g, y, x, p, b) && n in g.cells
    ensures var h := RightUpdates(g, y, x, p, b);
            && n in h.cells && h.nil == g.nil && h.root == (if p == g.nil then x else g.root)
            && h.cells.Keys == g.cells.Keys
            && h.cells[n] == (if n == y then g.cells[n].(left := b, parent := x)
                              else if n == x then g.cells[n].(right := y, parent := p)
                              else if n == p then (if g.cells[n].right == y then g.cells[n].(right := x)
                                                   else g.cells[n].(left := x))
                              else if n == b then g.cells[n].(parent := y) else g.cells[n])
  {
  }

  /** The distinct nodes around a right rotation. */
  lemma RightNeighbours(g: Graph, y: Node)
    requires Shape(g) && y in g.cells && g.cells[y].left in g.cells
    ensures Neighbours(g, y, g.cells[y].left, g.cells[y].parent, g.cells[g.cells[y].left].right)
  {
    hide Shape, RotationSite;
    MirrorShape(g);
    Site(Mirror(g), y);
    RotationNeighbours(Mirror(g), y);
  }

  lemma RightTurned(g: Graph, y: Node)
    requires Shape(g) && y in g.cells && g.cells[y].left in g.cells
    ensures var x := g.cells[y].left;
            && Neighbours(g, y, x, g.cells[y].parent, g.cells[x].right)
            && SamePointers(RightUpdates(g, y, x, g.cells[y].parent, g.cells[x].right), RotateRight(g, y))
  {
    hide Shape;
    RightNeighbours(g, y);
    RotateRightCells(g, y);
    hide RotateRight, RightUpdates;
    var x := g.cells[y].left;
    var r := RotateRight(g, y);
    forall n | n in g.cells
      ensures var h := RightUpdates(g, y, x, g.cells[y].parent, g.cells[x].right);
              && h.nil == r.nil && h.root == r.root && h.cells.Keys == g.cells.Keys
              && h.cells[n].color == r.cells[n].color && h.cells[n].left == r.cells[n].left
              && h.cells[n].right == r.cells[n].right && h.cells[n].parent == r.cells[n].parent
    {
      RightUpdatesAt(g, y, x, g.cells[y].parent, g.cells[x].right, n);
    }
  }

  /** The distinct nodes around a rotation. */
  lemma RotationNeighbours(g: Graph, x: Node)
    requires RotationSite(g, x)
    ensures var y := g.cells[x].right;
            var p, b := g.cells[x].parent, g.cells[y].left;
            && x in g.cells && y in g.cells && g.nil !in g.cells && (p == g.nil || p in g.cells)
            && (b == g.nil || b in g.cells)
            && x != y && x != p && y != p && b != x && b != y && (b == g.nil || b != p)
            && (p in g.cells ==> g.cells[p].left == x || g.cells[p].right == x)
  {
    SiteApart(g, x);
  }

  /** What the right rotation does to one node. */
  lemma RotateRightCells(g: Graph, y: Node)
    requires y in g.cells && g.cells[y].left in g.cells
    ensures var r := RotateRight(g, y);
            var x := g.cells[y].left;
            var p, b := g.cells[y].parent, g.cells[x].right;
            && r.cells.Keys == g.cells.Keys && r.nil == g.nil
            && r.root == (if p == g.nil then x else g.root)
            && forall n :: n in g.cells ==>
                 && r.cells[n].color == g.cells[n].color
                 && r.cells[n].left == (if n == y then b else if n == x then g.cells[n].left
                                        else if n == p && g.cells[n].right != y then x else g.cells[n].left)
                 && r.cells[n].right == (if n == y then g.cells[n].right else if n == x then y
                                         else if n == p && g.cells[n].right == y then x else g.cells[n].right)
                 && r.cells[n].parent == (if n == y then x else if n == x then p
                                          else if n == b && n != p then y else g.cells[n].parent)
  {
    var m := Mirror(g);
    SameNodes(m, y);
    RotatedRoot(m, y);
    hide RotateLeft;
  }
}
