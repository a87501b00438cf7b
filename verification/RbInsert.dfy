/** Insertion into the red-black tree: attaching a red leaf, and each case of the fixup. */
module RbInsert {
  import opened Bytes
  import opened Store
  import opened RbGraph

  /** The tree during the fixup: at most the edge above `z` is red-red, or `z` is a red root. */
  ghost predicate InsertInv(g: Graph, z: Node) {
    && Shape(g) && z in g.cells && g.cells[z].color == RED
    && HeightsOk(g) && RedsOk(g, z)
    && (ColorOf(g, g.root) == RED ==> g.root == z)
  }

  lemma MirrorInsert(g: Graph, z: Node)
    requires InsertInv(g, z)
    ensures InsertInv(Mirror(g), z)
  {
    hide Shape, HeightsOk, RedsOk;
    MirrorShape(g);
    MirrorBalance(g, z);
  }

  /** While the loop runs, `z` has a red parent below a black grandparent. */
  lemma Grandparent(g: Graph, z: Node)
    requires InsertInv(g, z) && ColorOf(g, g.cells[z].parent) == RED
    ensures var p := g.cells[z].parent;
            && p in g.cells && p != g.root && z != g.root && z != p
            && g.cells[p].parent in g.cells
            && var gp := g.cells[p].parent;
               && ColorOf(g, gp) == BLACK && gp != p && gp != z && (g.cells[gp].left == p || g.cells[gp].right == p)
               && (g.cells[p].left == z || g.cells[p].right == z) && !(g.cells[gp].left == p == g.cells[gp].right)
    ensures Linked(g, z) && Linked(g, g.cells[z].parent) && Linked(g, g.cells[g.cells[z].parent].parent)
            && g.nil !in g.cells
  {
    hide Ordered, RootOk;
    var p := g.cells[z].parent;
    assert Linked(g, z) && Linked(g, p);
    var gp := g.cells[p].parent;
    assert Linked(g, gp) && RedOk(g, gp, z);
  }

  // ---------------------------------------------------------------- a red uncle

  function Recolored(g: Graph, p: Node, y: Node, gp: Node): Graph
    requires p in g.cells && y in g.cells && gp in g.cells
  {
    Paint(Paint(Paint(g, p, BLACK, g.cells[p].bh + 1), y, BLACK, g.cells[y].bh + 1), gp, RED, g.cells[gp].bh)
  }

  /** `p` and `y` are the two red children of the black node `gp`. */
  ghost predicate RedPair(g: Graph, p: Node, y: Node, gp: Node) {
    && p in g.cells && y in g.cells && gp in g.cells && p != y && p != gp && y != gp
    && ((g.cells[gp].left == p && g.cells[gp].right == y) || (g.cells[gp].left == y && g.cells[gp].right == p))
    && g.cells[p].color == RED && g.cells[y].color == RED && g.cells[gp].color == BLACK
  }

  lemma RecolorNode(g: Graph, z: Node, p: Node, y: Node, gp: Node, n: Node)
    requires RedPair(g, p, y, gp) && z in g.cells && g.cells[z].parent == p && g.nil !in g.cells
    requires Linked(g, n) && Linked(g, gp) && HeightOk(g, n) && HeightOk(g, gp) && RedOk(g, n, z)
    ensures HeightOk(Recolored(g, p, y, gp), n) && RedOk(Recolored(g, p, y, gp), n, gp)
  {
  }

  lemma RecolorOk(g: Graph, z: Node, p: Node, y: Node, gp: Node)
    requires InsertInv(g, z) && ColorOf(g, g.cells[z].parent) == RED && p == g.cells[z].parent && RedPair(g, p, y, gp)
    ensures InsertInv(Recolored(g, p, y, gp), gp)
  {
    hide HeightOk, RedOk, Ordered, Linked, RootOk, Paint;
    Grandparent(g, z);
    RecolorShape(g, p, y, gp);
    var r := Recolored(g, p, y, gp);
    forall n | n in r.cells ensures HeightOk(r, n) && RedOk(r, n, gp) {
      assert Linked(g, n) && Linked(g, gp) && HeightOk(g, n) && HeightOk(g, gp) && RedOk(g, n, z);
      RecolorNode(g, z, p, y, gp, n);
    }
    RecolorRoot(g, z, p, y, gp);
  }

  lemma RecolorRoot(g: Graph, z: Node, p: Node, y: Node, gp: Node)
    requires z in g.cells && (ColorOf(g, g.root) == RED ==> g.root == z) && z != g.root && RedPair(g, p, y, gp)
    ensures var r := Recolored(g, p, y, gp);
            gp in r.cells && r.cells[gp].color == RED && (ColorOf(r, r.root) == RED ==> r.root == gp)
  {
  }

  lemma RecolorShape(g: Graph, p: Node, y: Node, gp: Node)
    requires Shape(g) && p in g.cells && y in g.cells && gp in g.cells && p != y && p != gp && y != gp
    ensures Shape(Recolored(g, p, y, gp)) && Recolored(g, p, y, gp).cells.Keys == g.cells.Keys
  {
    hide Shape;
    PaintShape(g, p, BLACK, g.cells[p].bh + 1);
    var g1 := Paint(g, p, BLACK, g.cells[p].bh + 1);
    PaintShape(g1, y, BLACK, g.cells[y].bh + 1);
    var g2 := Paint(g1, y, BLACK, g.cells[y].bh + 1);
    PaintShape(g2, gp, RED, g.cells[gp].bh);
  }

  // -------------------------------------------------------------- an inner child

  lemma InnerNode(g: Graph, z: Node, p: Node, n: Node)
    requires RotationSite(g, p) && g.cells[p].right == z && z in g.cells && g.cells[z].color == RED
             && g.cells[p].color == RED
    requires Linked(g, n) && HeightOk(g, n) && HeightOk(g, p) && HeightOk(g, z) && RedOk(g, n, z) && RedOk(g, p, z)
             && RedOk(g, z, z)
    ensures HeightOk(RotateLeft(g, p), n) && RedOk(RotateLeft(g, p), n, p)
  {
    hide RotateLeft, HeightOk, RedOk, ColorOf, HeightOf;
    SiteApart(g, p);
    TurnedChildren(g, p, n);
    TurnedColors(g, p);
    var r := RotateLeft(g, p);
    ByColors(g, n, z);
    ByColors(g, p, z);
    ByColors(g, z, z);
    ByColors(r, n, p);
    SeenColors(g, p, z);
  }

  lemma SeenColors(g: Graph, p: Node, z: Node)
    requires p in g.cells && z in g.cells
    ensures ColorOf(g, p) == g.cells[p].color && ColorOf(g, z) == g.cells[z].color
  {
  }

  /** Rotating an inner child outwards moves the red-red edge, and nothing else. */
  lemma InnerOk(g: Graph, z: Node, p: Node)
    requires InsertInv(g, z) && ColorOf(g, g.cells[z].parent) == RED && p == g.cells[z].parent && g.cells[p].right == z
    ensures InsertInv(RotateLeft(g, p), p)
  {
    hide HeightOk, RedOk, Ordered, RootOk, RotateLeft;
    Grandparent(g, z);
    Site(g, p);
    RotateLeftOk(g, p);
    SameNodes(g, p);
    SiteApart(g, p);
    var r := RotateLeft(g, p);
    forall n | n in r.cells ensures HeightOk(r, n) && RedOk(r, n, p) {
      assert Linked(g, n) && HeightOk(g, n) && HeightOk(g, p) && HeightOk(g, z) && RedOk(g, n, z) && RedOk(g, p, z)
             && RedOk(g, z, z);
      InnerNode(g, z, p, n);
    }
    RotatedRoot(g, p);
  }

  lemma RotatedRoot(g: Graph, x: Node)
    requires x in g.cells && g.cells[x].right in g.cells
    ensures RotateLeft(g, x).root == if g.cells[x].parent == g.nil then g.cells[x].right else g.root
  {
  }

  /** Everything known around a rotation of a well-shaped tree. */
  lemma Site(g: Graph, x: Node)
    requires Shape(g) && x in g.cells && g.cells[x].right in g.cells
    ensures RotationSite(g, x)
  {
    hide Ordered, RootOk;
    assert Linked(g, x) && Linked(g, g.cells[x].right);
    assert x == g.root || Linked(g, g.cells[x].parent);
    assert g.cells[g.cells[x].right].left == g.nil || Linked(g, g.cells[g.cells[x].right].left);
  }

  // -------------------------------------------------------------- the last rotation

  /** Parent black, grandparent red. */
  function Swapped(g: Graph, p: Node, gp: Node): Graph
    requires p in g.cells && gp in g.cells
  {
    Paint(Paint(g, p, BLACK, g.cells[p].bh + 1), gp, RED, g.cells[gp].bh - 1)
  }

  lemma SwappedMirror(g: Graph, p: Node, gp: Node)
    requires p in g.cells && gp in g.cells
    ensures Mirror(Swapped(g, p, gp)) == Swapped(Mirror(g), p, gp)
  {
    hide Paint, Mirror;
    PaintMirror(g, p, BLACK, g.cells[p].bh + 1);
    PaintMirror(Paint(g, p, BLACK, g.cells[p].bh + 1), gp, RED, g.cells[gp].bh - 1);
  }

  /** The outer red child `z` of the red right child `p` of `gp`, with a black uncle. */
  ghost predicate LastCase(g: Graph, z: Node, p: Node, gp: Node) {
    && z in g.cells && p in g.cells && gp in g.cells && z != p && p != gp && z != gp
    && g.cells[gp].right == p && g.cells[p].right == z && g.cells[z].parent == p && g.cells[p].parent == gp
    && g.cells[z].color == RED && g.cells[p].color == RED && g.cells[gp].color == BLACK
    && ColorOf(g, g.cells[gp].left) == BLACK
  }

  lemma LastNode(g: Graph, z: Node, p: Node, gp: Node, n: Node)
    requires LastCase(g, z, p, gp) && RotationSite(g, gp) && Linked(g, n)
    requires HeightOk(g, n) && HeightOk(g, p) && HeightOk(g, gp) && RedOk(g, n, z) && RedOk(g, p, z)
    ensures HeightOk(RotateLeft(Swapped(g, p, gp), gp), n) && RedOk(RotateLeft(Swapped(g, p, gp), gp), n, z)
  {
    hide RotateLeft, HeightOk, RedOk, ColorOf, HeightOf, Swapped;
    SiteApart(g, gp);
    SwappedFacts(g, p, gp);
    var s := Swapped(g, p, gp);
    var r := RotateLeft(s, gp);
    TurnedChildren(s, gp, n);
    TurnedColors(s, gp);
    ByColors(g, n, z);
    ByColors(g, p, z);
    ByColors(g, gp, z);
    ByColors(r, n, z);
    SeenColors(g, p, z);
    SeenColors(g, gp, gp);
  }

  lemma SwappedFacts(g: Graph, p: Node, gp: Node)
    requires p in g.cells && gp in g.cells && p != gp
    ensures var s := Swapped(g, p, gp);
            && s.cells.Keys == g.cells.Keys && s.nil == g.nil && s.root == g.root
            && (forall m {:trigger ColorOf(s, m)} :: ColorOf(s, m) == if m == gp then RED else if m == p then BLACK
                else ColorOf(g, m))
            && (forall m {:trigger HeightOf(s, m)} :: HeightOf(s, m) == if m == gp then HeightOf(g, gp) - 1
                else if m == p then HeightOf(g, p) + 1 else HeightOf(g, m))
            && (forall m {:trigger s.cells[m]} :: m in g.cells ==>
                  s.cells[m].left == g.cells[m].left && s.cells[m].right == g.cells[m].right
                  && s.cells[m].parent == g.cells[m].parent)
  {
  }

  lemma LastOk(g: Graph, z: Node, p: Node, gp: Node)
    requires InsertInv(g, z) && LastCase(g, z, p, gp)
    ensures var r := RotateLeft(Swapped(g, p, gp), gp);
            InsertInv(r, z) && r.cells[z].parent == p && ColorOf(r, p) == BLACK
  {
    hide HeightOk, RedOk, Ordered, RootOk, RotateLeft, Linked, RotationSite, Swapped;
    var s := Swapped(g, p, gp);
    SwappedShape(g, p, gp);
    SwappedFacts(g, p, gp);
    Site(g, gp);
    RotateLeftOk(s, gp);
    SameNodes(s, gp);
    var r := RotateLeft(s, gp);
    forall n | n in r.cells ensures HeightOk(r, n) && RedOk(r, n, z) {
      assert Linked(g, n) && HeightOk(g, n) && HeightOk(g, p) && HeightOk(g, gp) && RedOk(g, n, z) && RedOk(g, p, z);
      LastNode(g, z, p, gp, n);
    }
    assert Linked(g, gp) && Linked(g, p) && Linked(g, z);
    LastRoot(g, z, p, gp);
    LastParent(g, z, p, gp);
  }

  lemma LastParent(g: Graph, z: Node, p: Node, gp: Node)
    requires LastCase(g, z, p, gp) && Linked(g, p) && g.nil !in g.cells
    ensures var r := RotateLeft(Swapped(g, p, gp), gp);
            z in r.cells && r.cells[z].parent == p && r.cells[z].color == RED && ColorOf(r, p) == BLACK
  {
  }

  lemma LastRoot(g: Graph, z: Node, p: Node, gp: Node)
    requires LastCase(g, z, p, gp) && Linked(g, gp) && Linked(g, p) && Linked(g, z)
             && (ColorOf(g, g.root) == RED ==> g.root == z) && g.nil !in g.cells
    ensures var r := RotateLeft(Swapped(g, p, gp), gp); (ColorOf(r, r.root) == RED ==> r.root == z)
  {
    hide RotateLeft, Swapped;
    SwappedFacts(g, p, gp);
    RotatedRoot(Swapped(g, p, gp), gp);
    TurnedColors(Swapped(g, p, gp), gp);
  }

  lemma SwappedOrder(g: Graph, p: Node, gp: Node)
    requires p in g.cells && gp in g.cells
    ensures Swapped(g, p, gp).order == g.order && Swapped(g, p, gp).cells.Keys == g.cells.Keys
  {
  }

  lemma SwappedShape(g: Graph, p: Node, gp: Node)
    requires Shape(g) && p in g.cells && gp in g.cells
    ensures Shape(Swapped(g, p, gp))
  {
    hide Shape;
    PaintShape(g, p, BLACK, g.cells[p].bh + 1);
    PaintShape(Paint(g, p, BLACK, g.cells[p].bh + 1), gp, RED, g.cells[gp].bh - 1);
  }

  // ------------------------------------------------------- both orientations

  lemma SameOrder(g: Graph, y: Node)
    requires y in g.cells && g.cells[y].left in g.cells
    ensures RotateRight(g, y).order == g.order && RotateRight(g, y).cells.Keys == g.cells.Keys
            && RotateRight(g, y).nil == g.nil
  {
    hide RotateLeft, TurnedCell;
    SameNodes(Mirror(g), y);
    assert Reverse(Reverse(g.order)) == g.order;
  }

  lemma InnerOkRight(g: Graph, z: Node, p: Node)
    requires InsertInv(g, z) && ColorOf(g, g.cells[z].parent) == RED && p == g.cells[z].parent && g.cells[p].left == z
    ensures InsertInv(RotateRight(g, p), p)
  {
    hide InsertInv, RotateLeft;
    InTree(g, z);
    MirrorInsert(g, z);
    MirrorSees(g, z, p);
    InnerOk(Mirror(g), z, p);
    MirrorInsert(RotateLeft(Mirror(g), p), p);
  }

  lemma MirrorSees(g: Graph, z: Node, p: Node)
    requires InsertInv(g, z) && p in g.cells
    ensures ColorOf(Mirror(g), g.cells[z].parent) == ColorOf(g, g.cells[z].parent)
    ensures Mirror(g).cells[z].parent == g.cells[z].parent
    ensures Mirror(g).cells[p].right == g.cells[p].left && Mirror(g).cells[p].left == g.cells[p].right
  {
  }

  /** After the inner rotation below the left child of `gp`, the last case is reached. */
  lemma InnerFacts(g: Graph, z: Node, p: Node, gp: Node)
    requires InsertInv(g, z) && ColorOf(g, g.cells[z].parent) == RED && p == g.cells[z].parent && g.cells[p].right == z
    requires gp == g.cells[p].parent && gp in g.cells && g.cells[gp].left == p && ColorOf(g, g.cells[gp].right) == BLACK
    ensures LastCase(Mirror(RotateLeft(g, p)), p, z, gp)
  {
    hide InsertInv, Linked;
    Grandparent(g, z);
    SiteOf(g, z, p);
    hide RotationSite;
    SameNodes(g, p);
    UncleApart(g, z, p, gp);
    LastCaseAfter(g, z, p, gp);
  }

  lemma LastCaseAfter(g: Graph, z: Node, p: Node, gp: Node)
    requires z in g.cells && p in g.cells && gp in g.cells && z != p && p != gp && z != gp && g.nil !in g.cells
    requires g.cells[z].parent == p && g.cells[p].right == z && g.cells[p].parent == gp && g.cells[gp].left == p
    requires g.cells[z].color == RED && g.cells[p].color == RED && g.cells[gp].color == BLACK
             && ColorOf(g, g.cells[gp].right) == BLACK
    requires g.cells[gp].right != p && g.cells[z].left != gp
    ensures LastCase(Mirror(RotateLeft(g, p)), p, z, gp)
  {
    SameNodes(g, p);
    TurnedColors(g, p);
    hide RotateLeft;
    MirrorLook(RotateLeft(g, p));
  }

  lemma MirrorLook(g: Graph)
    ensures forall n {:trigger ColorOf(Mirror(g), n)} :: ColorOf(Mirror(g), n) == ColorOf(g, n)
  {
  }

  lemma SiteOf(g: Graph, z: Node, p: Node)
    requires InsertInv(g, z) && p in g.cells && g.cells[p].right == z
    ensures RotationSite(g, p)
  {
    hide Shape;
    Site(g, p);
  }

  lemma UncleApart(g: Graph, z: Node, p: Node, gp: Node)
    requires InsertInv(g, z) && p in g.cells && gp in g.cells && g.cells[z].parent == p && g.cells[p].parent == gp
             && g.cells[gp].left == p
    ensures g.cells[gp].right != p && g.cells[z].left != gp && z != p && p != gp && z != gp && g.nil !in g.cells
    ensures z in g.cells && g.cells[z].color == RED
  {
    assert Linked(g, gp) && Linked(g, z) && Linked(g, p);
  }

  lemma InnerFactsRight(g: Graph, z: Node, p: Node, gp: Node)
    requires InsertInv(g, z) && ColorOf(g, g.cells[z].parent) == RED && p == g.cells[z].parent && g.cells[p].left == z
    requires gp == g.cells[p].parent && gp in g.cells && g.cells[gp].right == p && ColorOf(g, g.cells[gp].left) == BLACK
    ensures LastCase(RotateRight(g, p), p, z, gp)
  {
    hide InsertInv, RotateLeft;
    MirrorInsert(g, z);
    MirrorSees(g, z, p);
    MirrorSees(g, z, gp);
    MirrorLook(g);
    InnerFacts(Mirror(g), z, p, gp);
  }

  lemma LastOkLeft(g: Graph, z: Node, p: Node, gp: Node)
    requires InsertInv(g, z) && p in g.cells && gp in g.cells && LastCase(Mirror(g), z, p, gp)
    ensures g.cells[gp].left == p
    ensures var r := RotateRight(Swapped(g, p, gp), gp);
            InsertInv(r, z) && r.cells[z].parent == p && ColorOf(r, p) == BLACK
  {
    hide InsertInv, RotateLeft, Swapped;
    MirrorInsert(g, z);
    SwappedMirror(g, p, gp);
    LastOk(Mirror(g), z, p, gp);
    SwappedFacts(g, p, gp);
    SwappedFacts(Mirror(g), p, gp);
    var h := RotateLeft(Swapped(Mirror(g), p, gp), gp);
    MirrorInsert(h, z);
    MirrorLook(h);
    InTree(h, z);
  }

  lemma InTree(g: Graph, z: Node)
    requires InsertInv(g, z)
    ensures z in g.cells
  {
  }

  /** The outer child, without an inner rotation. */
  lemma OuterFacts(g: Graph, z: Node, p: Node, gp: Node)
    requires InsertInv(g, z) && ColorOf(g, g.cells[z].parent) == RED && p == g.cells[z].parent
             && gp == g.cells[p].parent && gp in g.cells
    ensures g.cells[gp].right == p && g.cells[p].right == z && ColorOf(g, g.cells[gp].left) == BLACK ==>
              LastCase(g, z, p, gp)
    ensures g.cells[gp].left == p && g.cells[p].left == z && ColorOf(g, g.cells[gp].right) == BLACK ==>
              LastCase(Mirror(g), z, p, gp)
  {
    hide Linked, InsertInv;
    Grandparent(g, z);
    MirrorLook(g);
    RedItself(g, z);
  }

  lemma RedItself(g: Graph, z: Node)
    requires InsertInv(g, z)
    ensures z in g.cells && g.cells[z].color == RED && g.nil !in g.cells
  {
  }

  lemma RedPairOf(g: Graph, z: Node, y: Node)
    requires InsertInv(g, z) && ColorOf(g, g.cells[z].parent) == RED && ColorOf(g, y) == RED
    requires g.cells[z].parent in g.cells && g.cells[g.cells[z].parent].parent in g.cells
    requires var p := g.cells[z].parent;
             var c := g.cells[g.cells[p].parent];
             (c.left == p && c.right == y) || (c.right == p && c.left == y)
    ensures RedPair(g, g.cells[z].parent, y, g.cells[g.cells[z].parent].parent)
  {
    hide InsertInv;
    Grandparent(g, z);
  }

  /** The other child of `gp` and the sizes around a recolouring. */
  lemma RecolorAround(g: Graph, p: Node, y: Node, gp: Node)
    requires RedPair(g, p, y, gp)
    ensures var r := Recolored(g, p, y, gp);
            && r.order == g.order && r.cells.Keys == g.cells.Keys && r.nil == g.nil && r.root == g.root
            && Width(r, gp) == Width(g, gp)
  {
  }

  lemma ChildIn(g: Graph, n: Node)
    requires Shape(g) && n in g.cells
    ensures g.cells[n].left == g.nil || g.cells[n].left in g.cells
    ensures g.cells[n].right == g.nil || g.cells[n].right in g.cells
    ensures g.cells[n].parent == g.nil || g.cells[n].parent in g.cells
  {
    assert Linked(g, n);
  }

  lemma ShapeOf(g: Graph, z: Node)
    requires InsertInv(g, z)
    ensures Shape(g) && g.nil !in g.cells
  {
  }

  function Width(g: Graph, n: Node): int {
    if n in g.cells then g.cells[n].hi - g.cells[n].lo else 0
  }

  /** No subtree is larger than the tree. */
  lemma WidthBound(g: Graph, z: Node)
    requires InsertInv(g, z)
    ensures 0 <= Width(g, z) <= |g.order|
  {
    hide HeightsOk, RedsOk;
    SpanEnds(g, z);
    assert Linked(g, z);
  }

  /** Both ends of a subtree are positions of nodes in it. */
  lemma {:induction false} SpanEnds(g: Graph, n: Node)
    requires Shape(g) && n in g.cells
    ensures 0 <= g.cells[n].lo && g.cells[n].hi <= |g.order|
    decreases g.cells[n].hi - g.cells[n].lo
  {
    hide RootOk;
    assert Linked(g, n);
    var c := g.cells[n];
    if c.left != g.nil {
      assert Linked(g, c.left);
      SpanEnds(g, c.left);
    }
    if c.right != g.nil {
      assert Linked(g, c.right);
      SpanEnds(g, c.right);
    }
  }

  lemma GrandWider(g: Graph, z: Node)
    requires InsertInv(g, z) && ColorOf(g, g.cells[z].parent) == RED
    ensures var p := g.cells[z].parent;
            p in g.cells && g.cells[p].parent in g.cells && Width(g, z) < Width(g, g.cells[p].parent)
  {
    hide InsertInv;
    Grandparent(g, z);
  }

  // ----------------------------------------------------------------- the end

  /** When the loop ends, blackening the root gives a balanced tree. */
  lemma InsertDone(g: Graph, z: Node)
    requires InsertInv(g, z) && ColorOf(g, g.cells[z].parent) == BLACK
    ensures g.root in g.cells
    ensures Balanced(Paint(g, g.root, BLACK, if ColorOf(g, g.root) == RED then g.cells[g.root].bh + 1
                           else g.cells[g.root].bh))
  {
    hide HeightOk, RedOk, Linked, Paint;
    assert g.order != [] by { assert g.cells[z].pos < |g.order|; }
    var bh := if ColorOf(g, g.root) == RED then g.cells[g.root].bh + 1 else g.cells[g.root].bh;
    PaintShape(g, g.root, BLACK, bh);
    var r := Paint(g, g.root, BLACK, bh);
    forall n | n in r.cells ensures HeightOk(r, n) && RedOk(r, n, r.nil) {
      assert HeightOk(g, n) && RedOk(g, n, z) && Linked(g, n);
      DoneNode(g, z, bh, n);
    }
    DoneRoot(g, bh);
  }

  lemma DoneNode(g: Graph, z: Node, bh: int, n: Node)
    requires g.root in g.cells && bh
             == (if ColorOf(g, g.root) == RED then g.cells[g.root].bh + 1 else g.cells[g.root].bh)
    requires g.nil !in g.cells && z in g.cells && ColorOf(g, g.cells[z].parent) == BLACK
             && (ColorOf(g, g.root) == RED ==> g.root == z)
    requires HeightOk(g, n) && RedOk(g, n, z) && Linked(g, n) && Linked(g, g.root)
    ensures var r := Paint(g, g.root, BLACK, bh); HeightOk(r, n) && RedOk(r, n, r.nil)
  {
  }

  lemma DoneRoot(g: Graph, bh: int)
    requires g.root in g.cells
    ensures ColorOf(Paint(g, g.root, BLACK, bh), g.root) == BLACK && Paint(g, g.root, BLACK, bh).root == g.root
  {
  }

  // ------------------------------------------------------------ attaching a leaf

  /** Where the new leaf goes in key order. */
  function Slot(g: Graph, y: Node, right: bool): int
    requires y in g.cells
  {
    if right then g.cells[y].pos + 1 else g.cells[y].pos
  }

  /** Positions from the slot on move up by one. */
  function Raised(c: Cell, slot: int, right: bool): Cell {
    c.(pos := if c.pos >= slot then c.pos + 1 else c.pos,
       lo := if c.lo > slot || (right && c.lo == slot) then c.lo + 1 else c.lo,
       hi := if c.hi > slot || (right && c.hi == slot) then c.hi + 1 else c.hi)
  }

  function AttachedCell(g: Graph, y: Node, z: Node, right: bool, n: Node): Cell
    requires y in g.cells && (n == z || n in g.cells)
  {
    var slot := Slot(g, y, right);
    if n == z then Cell(RED, g.nil, g.nil, y, slot, slot, slot + 1, 0)
    else
      var c := Raised(g.cells[n], slot, right);
      if n != y then c else if right then c.(right := z) else c.(left := z)
  }

  /** `z` becomes a child of `y`. */
  function Attached(g: Graph, y: Node, z: Node, right: bool): (r: Graph)
    requires y in g.cells && 0 <= Slot(g, y, right) <= |g.order|
    ensures r.cells.Keys == g.cells.Keys + {z} && r.nil == g.nil && r.root == g.root
    ensures forall n :: n in r.cells ==> r.cells[n] == AttachedCell(g, y, z, right, n)
  {
    var slot := Slot(g, y, right);
    g.(cells := map n | n in g.cells.Keys + {z} :: AttachedCell(g, y, z, right, n),
       order := g.order[..slot] + [z] + g.order[slot..])
  }

  lemma AttachedSides(g: Graph, y: Node, z: Node, right: bool, n: Node)
    requires g.nil !in g.cells && z !in g.cells && z != g.nil && Linked(g, y) && Linked(g, n)
    requires 0 <= Slot(g, y, right) <= |g.order|
    requires g.cells[n].pos == g.cells[y].pos ==> n == y
    requires if right then g.cells[y].right == g.nil else g.cells[y].left == g.nil
    ensures LeftOk(Attached(g, y, z, right), n) && RightOk(Attached(g, y, z, right), n)
  {
    hide Attached, UpOk;
  }

  lemma AttachedUp(g: Graph, y: Node, z: Node, right: bool, n: Node)
    requires g.nil !in g.cells && z !in g.cells && z != g.nil && y in g.cells && Linked(g, n)
    requires 0 <= Slot(g, y, right) <= |g.order|
    requires if right then g.cells[y].right == g.nil else g.cells[y].left == g.nil
    ensures UpOk(Attached(g, y, z, right), n)
  {
    hide Attached, LeftOk, RightOk;
  }

  lemma AttachedNode(g: Graph, y: Node, z: Node, right: bool, n: Node)
    requires g.nil !in g.cells && z !in g.cells && z != g.nil && Linked(g, y) && Linked(g, n)
    requires 0 <= Slot(g, y, right) <= |g.order|
    requires g.cells[n].pos == g.cells[y].pos ==> n == y
    requires if right then g.cells[y].right == g.nil else g.cells[y].left == g.nil
    ensures Linked(Attached(g, y, z, right), n)
  {
    hide Attached, LeftOk, RightOk, UpOk;
    AttachedSides(g, y, z, right, n);
    AttachedUp(g, y, z, right, n);
  }

  lemma AttachedLeaf(g: Graph, y: Node, z: Node, right: bool)
    requires g.nil !in g.cells && z !in g.cells && z != g.nil && y in g.cells && g.root in g.cells
    requires 0 <= Slot(g, y, right) <= |g.order|
    ensures Linked(Attached(g, y, z, right), z)
  {
  }

  lemma AttachedOrder(g: Graph, y: Node, z: Node, right: bool)
    requires Ordered(g) && y in g.cells && z !in g.cells && 0 <= Slot(g, y, right) <= |g.order|
    ensures Ordered(Attached(g, y, z, right))
  {
    var r := Attached(g, y, z, right);
    var slot := Slot(g, y, right);
    forall i | 0 <= i < |r.order| ensures r.order[i] in r.cells && r.cells[r.order[i]].pos == i {
      if i < slot {
        assert r.order[i] == g.order[i];
      } else if i > slot {
        assert r.order[i] == g.order[i - 1];
      }
    }
    forall n | n in r.cells ensures 0 <= r.cells[n].pos < |r.order| && r.order[r.cells[n].pos] == n {
      if n != z {
        assert g.order[g.cells[n].pos] == n;
      }
    }
  }

  lemma AttachedColors(g: Graph, y: Node, z: Node, right: bool, n: Node)
    requires g.nil !in g.cells && z !in g.cells && z != g.nil && y in g.cells && 0 <= Slot(g, y, right) <= |g.order|
    requires if right then g.cells[y].right == g.nil else g.cells[y].left == g.nil
    requires n == z || (HeightOk(g, n) && RedOk(g, n, g.nil) && Linked(g, n))
    ensures HeightOk(Attached(g, y, z, right), n) && RedOk(Attached(g, y, z, right), n, z)
  {
    hide Attached;
  }

  lemma RootRoom(g: Graph, y: Node, z: Node, right: bool)
    requires RootOk(g) && g.root in g.cells && g.order != [] && y in g.cells && 0 <= g.cells[y].pos < |g.order|
             && z !in g.cells
    ensures RootOk(Attached(g, y, z, right))
    ensures ColorOf(g, g.root) == BLACK ==> ColorOf(Attached(g, y, z, right), g.root) == BLACK
    ensures Attached(g, y, z, right).root == g.root && Attached(g, y, z, right).nil == g.nil
  {
  }

  /** A new red leaf leaves at most the edge above it red-red. */
  lemma AttachOk(g: Graph, y: Node, z: Node, right: bool)
    requires Balanced(g) && y in g.cells && z !in g.cells && z != g.nil
    requires if right then g.cells[y].right == g.nil else g.cells[y].left == g.nil
    ensures 0 <= Slot(g, y, right) <= |g.order| && InsertInv(Attached(g, y, z, right), z)
  {
    hide Linked, HeightOk, RedOk, Attached, ColorOf;
    assert g.order != [] by { assert 0 <= g.cells[y].pos < |g.order|; }
    assert 0 <= g.cells[y].pos < |g.order|;
    var r := Attached(g, y, z, right);
    RootRoom(g, y, z, right);
    AttachedLeaf(g, y, z, right);
    forall n | n in r.cells ensures Linked(r, n) {
      if n != z {
        assert Linked(g, n) && Linked(g, y);
        assert g.cells[n].pos == g.cells[y].pos ==> n == y;
        AttachedNode(g, y, z, right, n);
      }
    }
    forall n | n in r.cells ensures HeightOk(r, n) && RedOk(r, n, z) {
      if n != z {
        assert HeightOk(g, n) && RedOk(g, n, g.nil) && Linked(g, n);
      }
      AttachedColors(g, y, z, right, n);
    }
    hide Ordered, RootOk;
    AttachedOrder(g, y, z, right);
  }

  /** The first node. */
  function Single(g: Graph, z: Node): Graph {
    g.(root := z, cells := map[z := Cell(RED, g.nil, g.nil, g.nil, 0, 0, 1, 0)], order := [z])
  }

  lemma SingleOk(g: Graph, z: Node)
    requires z != g.nil
    ensures InsertInv(Single(g, z), z)
  {
    var r := Single(g, z);
    assert Linked(r, z) && HeightOk(r, z) && RedOk(r, z, z);
  }
}
