/** Deletion from the red-black tree: splicing a node out, and each case of the fixup. */
module RbDelete {
  import opened Bytes
  import opened Store
  import opened RbGraph
  import opened RbInsert

  // ------------------------------------------------------------------- splicing

  /** Positions after `slot` move down by one. */
  function Lowered(c: Cell, slot: int): Cell {
    c.(pos := if c.pos > slot then c.pos - 1 else c.pos,
       lo := if c.lo > slot then c.lo - 1 else c.lo,
       hi := if c.hi > slot then c.hi - 1 else c.hi)
  }

  /** The only child of a node with at most one child, or nil. */
  function OnlyChild(g: Graph, y: Node): Node
    requires y in g.cells
  {
    if g.cells[y].left != g.nil then g.cells[y].left else g.cells[y].right
  }

  function SplicedCell(g: Graph, y: Node, n: Node): Cell
    requires y in g.cells && n in g.cells
  {
    var x, p, c := OnlyChild(g, y), g.cells[y].parent, Lowered(g.cells[n], g.cells[y].pos);
    if n == x then c.(parent := p)
    else if n == p then (if c.left == y then c.(left := x) else c.(right := x))
    else c
  }

  /** `y` is taken out; its only child takes its place. */
  function Spliced(g: Graph, y: Node): (r: Graph)
    requires y in g.cells && 0 <= g.cells[y].pos < |g.order|
    ensures r.cells.Keys == g.cells.Keys - {y} && r.nil == g.nil
    ensures r.root == if g.cells[y].parent == g.nil then OnlyChild(g, y) else g.root
    ensures forall n :: n in r.cells ==> r.cells[n] == SplicedCell(g, y, n)
  {
    var slot := g.cells[y].pos;
    g.(root := if g.cells[y].parent == g.nil then OnlyChild(g, y) else g.root,
       cells := map n | n in g.cells.Keys - {y} :: SplicedCell(g, y, n),
       order := g.order[..slot] + g.order[slot + 1..])
  }

  /** The neighbourhood of a node that can be spliced out. */
  ghost predicate SpliceSite(g: Graph, y: Node) {
    && g.nil !in g.cells && Linked(g, y) && (g.cells[y].left == g.nil || g.cells[y].right == g.nil)
    && 0 <= g.cells[y].pos < |g.order|
    && (y == g.root || Linked(g, g.cells[y].parent))
    && (OnlyChild(g, y) == g.nil || Linked(g, OnlyChild(g, y)))
  }

  lemma SpliceApart(g: Graph, y: Node)
    requires SpliceSite(g, y)
    ensures var x, p := OnlyChild(g, y), g.cells[y].parent; x != y && p != y && (x == g.nil || x != p)
    ensures y == g.root <==> g.cells[y].parent == g.nil
  {
  }

  lemma SplicedNode(g: Graph, y: Node, n: Node)
    requires SpliceSite(g, y) && Linked(g, n) && n != y && g.cells[n].pos != g.cells[y].pos
    requires n != g.cells[y].parent && n != OnlyChild(g, y)
    requires n == g.root || Linked(g, g.cells[n].parent)
    ensures Linked(Spliced(g, y), n)
  {
    hide LeftOk, RightOk, UpOk;
    SpliceApart(g, y);
    SplicedAway(g, y, n);
    SplicedSides(g, y, n);
    SplicedUp(g, y, n);
    hide Spliced, SpliceSite;
  }

  lemma SplicedSides(g: Graph, y: Node, n: Node)
    requires y in g.cells && 0 <= g.cells[y].pos < |g.order| && Linked(g, n) && n != y
             && g.cells[n].pos != g.cells[y].pos
    requires n != g.cells[y].parent && n != OnlyChild(g, y) && g.nil !in g.cells
    requires g.cells[n].left != y && g.cells[n].right != y
    requires OnlyChild(g, y) != g.nil ==> g.cells[n].left != OnlyChild(g, y) && g.cells[n].right != OnlyChild(g, y)
    ensures LeftOk(Spliced(g, y), n) && RightOk(Spliced(g, y), n)
  {
    hide Spliced, UpOk;
  }

  lemma SplicedUp(g: Graph, y: Node, n: Node)
    requires y in g.cells && 0 <= g.cells[y].pos < |g.order| && Linked(g, n) && Linked(g, y) && n != y
    requires n != g.cells[y].parent && n != OnlyChild(g, y) && g.nil !in g.cells
    requires g.cells[n].parent != y && (n == g.root ==> g.cells[y].parent != g.nil)
    ensures UpOk(Spliced(g, y), n)
  {
    hide Spliced, LeftOk, RightOk;
  }

  /** A node further away is linked to neither the node taken out nor its child. */
  lemma SplicedAway(g: Graph, y: Node, n: Node)
    requires SpliceSite(g, y) && Linked(g, n) && n != y && n != g.cells[y].parent && n != OnlyChild(g, y)
    requires n == g.root || Linked(g, g.cells[n].parent)
    ensures var x, c := OnlyChild(g, y), g.cells[n];
            && c.left != y && c.right != y && c.parent != y && (x != g.nil ==> c.left != x && c.right != x)
            && y in g.cells && g.nil !in g.cells && (n == g.root ==> g.cells[y].parent != g.nil)
  {
  }

  lemma SplicedParent(g: Graph, y: Node)
    requires SpliceSite(g, y) && y != g.root && g.cells[g.cells[y].parent].pos != g.cells[y].pos
    requires g.cells[y].parent == g.root || Linked(g, g.cells[g.cells[y].parent].parent)
    ensures Linked(Spliced(g, y), g.cells[y].parent)
  {
    SpliceApart(g, y);
    hide Spliced;
  }

  lemma SplicedChild(g: Graph, y: Node)
    requires SpliceSite(g, y) && OnlyChild(g, y) != g.nil && g.cells[OnlyChild(g, y)].pos != g.cells[y].pos
    ensures Linked(Spliced(g, y), OnlyChild(g, y))
  {
    SpliceApart(g, y);
    hide Spliced;
  }

  lemma SplicedOrder(g: Graph, y: Node)
    requires Ordered(g) && y in g.cells
    ensures Ordered(Spliced(g, y))
  {
    var r := Spliced(g, y);
    var slot := g.cells[y].pos;
    forall i | 0 <= i < |r.order| ensures r.order[i] in r.cells && r.cells[r.order[i]].pos == i {
      if i < slot {
        assert r.order[i] == g.order[i];
      } else {
        assert r.order[i] == g.order[i + 1];
      }
    }
    forall n | n in r.cells ensures 0 <= r.cells[n].pos < |r.order| && r.order[r.cells[n].pos] == n {
      assert g.order[g.cells[n].pos] == n;
      assert g.cells[n].pos != slot;
    }
  }

  lemma SplicedRoot(g: Graph, y: Node)
    requires Ordered(g) && RootOk(g) && SpliceSite(g, y)
    ensures RootOk(Spliced(g, y))
  {
    SpliceApart(g, y);
    assert g.order != [];
    if y == g.root && OnlyChild(g, y) == g.nil {
      assert |g.order| == 1;
    } else if y != g.root {
      assert g.cells[g.root].pos != g.cells[y].pos;
    }
  }

  lemma SpliceReady(g: Graph, y: Node)
    requires Shape(g) && y in g.cells && (g.cells[y].left == g.nil || g.cells[y].right == g.nil)
    ensures SpliceSite(g, y)
  {
    hide RootOk;
    assert Linked(g, y);
    assert y == g.root || Linked(g, g.cells[y].parent);
    assert OnlyChild(g, y) == g.nil || OnlyChild(g, y) in g.cells;
    assert OnlyChild(g, y) == g.nil || Linked(g, OnlyChild(g, y));
  }

  lemma SpliceShape(g: Graph, y: Node)
    requires Shape(g) && y in g.cells && (g.cells[y].left == g.nil || g.cells[y].right == g.nil)
    ensures Shape(Spliced(g, y))
  {
    hide Linked, Spliced;
    SpliceReady(g, y);
    var r := Spliced(g, y);
    forall n | n in r.cells ensures Linked(r, n) {
      ParentInside(g, n);
      assert Linked(g, n) && (n == g.root || Linked(g, g.cells[n].parent));
      PositionsDiffer(g, n, y);
      hide SpliceSite, Ordered;
      if n == OnlyChild(g, y) {
        SplicedChild(g, y);
      } else if n == g.cells[y].parent {
        NotRoot(g, y);
        SplicedParent(g, y);
      } else {
        SplicedNode(g, y, n);
      }
    }
    hide SpliceSite;
    SplicedOrder(g, y);
    SplicedRoot(g, y);
  }

  lemma PositionsDiffer(g: Graph, n: Node, y: Node)
    requires Ordered(g) && n in g.cells && y in g.cells && n != y
    ensures g.cells[n].pos != g.cells[y].pos
  {
  }

  lemma ParentInside(g: Graph, n: Node)
    requires AllLinked(g) && n in g.cells
    ensures n == g.root || g.cells[n].parent in g.cells
  {
    assert Linked(g, n);
  }

  lemma NotRoot(g: Graph, y: Node)
    requires AllLinked(g) && y in g.cells && g.cells[y].parent in g.cells
    ensures y != g.root
  {
    assert Linked(g, y);
  }

  // ------------------------------------------------------------- the fixup state

  /** The subtree at `x` lacks one black level below `px`. */
  ghost predicate Deficit(g: Graph, x: Node, px: Node) {
    && px in g.cells
    && var c := g.cells[px];
       && HeightOf(g, x) >= 0
       && ((c.left == x && c.right in g.cells && HeightOf(g, x) + 1 == HeightOf(g, c.right)
            && HeightOf(g, px) == HeightOf(g, c.right) + Rank(ColorOf(g, px)))
           || (c.right == x && c.left in g.cells && HeightOf(g, x) + 1 == HeightOf(g, c.left)
               && HeightOf(g, px) == HeightOf(g, c.left) + Rank(ColorOf(g, px))))
  }

  ghost predicate HeightsBut(g: Graph, px: Node) {
    forall n {:trigger HeightOk(g, n)} :: n in g.cells && n != px ==> HeightOk(g, n)
  }

  ghost predicate RedsBut(g: Graph, x: Node) {
    forall n {:trigger RedOk(g, n, x)} :: n in g.cells && n != x ==> RedOk(g, n, x)
  }

  /** The tree during the fixup: blackening a red `x` makes it balanced; a black `x` below the
      root stands for the missing level. */
  ghost predicate DeleteInv(g: Graph, x: Node, px: Node) {
    && Shape(g) && (x == g.nil || x in g.cells) && RedsBut(g, x)
    && (if x == g.root then HeightsOk(g)
        else ColorOf(g, g.root) == BLACK && HeightsBut(g, px) && Deficit(g, x, px))
  }

  lemma MirrorDelete(g: Graph, x: Node, px: Node)
    requires DeleteInv(g, x, px)
    ensures DeleteInv(Mirror(g), x, px)
  {
    hide Shape, Mirror, HeightOk, RedOk;
    MirrorShape(g);
    var m := Mirror(g);
    MirrorColorOf(g);
    forall n | n in m.cells
      ensures HeightOk(g, n) ==> HeightOk(m, n)
      ensures RedOk(g, n, x) ==> RedOk(m, n, x)
    {
      MirrorColors(g, n, x);
    }
  }

  lemma MirrorColorOf(g: Graph)
    ensures forall m {:trigger ColorOf(Mirror(g), m)} :: ColorOf(Mirror(g), m) == ColorOf(g, m)
    ensures forall m {:trigger HeightOf(Mirror(g), m)} :: HeightOf(Mirror(g), m) == HeightOf(g, m)
  {
  }

  // ----------------------------------------------------------- after the splice

  /** Colours and recorded heights of the remaining nodes do not change. */
  lemma SplicedColors(g: Graph, y: Node)
    requires SpliceSite(g, y)
    ensures forall m {:trigger ColorOf(Spliced(g, y), m)} :: m != y ==> ColorOf(Spliced(g, y), m) == ColorOf(g, m)
    ensures forall m {:trigger HeightOf(Spliced(g, y), m)} :: m != y ==> HeightOf(Spliced(g, y), m) == HeightOf(g, m)
  {
  }

  lemma SplicedChildren(g: Graph, y: Node, n: Node)
    requires SpliceSite(g, y) && n in g.cells && n != y
    ensures var r, x, p := Spliced(g, y), OnlyChild(g, y), g.cells[y].parent;
            && n in r.cells
            && r.cells[n].left == (if n == p && g.cells[n].left == y then x else g.cells[n].left)
            && r.cells[n].right == (if n == p && g.cells[n].left != y then x else g.cells[n].right)
  {
    SpliceApart(g, y);
  }

  lemma SplicedBalance(g: Graph, y: Node, n: Node)
    requires SpliceSite(g, y) && n in g.cells && n != y && Linked(g, n)
    requires HeightOk(g, n) && RedOk(g, n, g.nil) && HeightOk(g, y) && RedOk(g, y, g.nil)
    ensures n != g.cells[y].parent || g.cells[y].color == RED ==> HeightOk(Spliced(g, y), n)
    ensures RedOk(Spliced(g, y), n, OnlyChild(g, y))
    ensures g.cells[y].color == RED ==> RedOk(Spliced(g, y), n, g.nil)
  {
    hide Spliced, HeightOk, RedOk, ColorOf, HeightOf;
    var r, x := Spliced(g, y), OnlyChild(g, y);
    SpliceApart(g, y);
    SplicedChildren(g, y, n);
    SplicedColors(g, y);
    ByColors(g, n, g.nil);
    ByColors(g, y, g.nil);
    ByColors(r, n, x);
    ByColors(r, n, g.nil);
    SeenColors(g, y, y);
    NilColors(g);
  }

  lemma NilColors(g: Graph)
    requires g.nil !in g.cells
    ensures ColorOf(g, g.nil) == BLACK && HeightOf(g, g.nil) == 0
  {
  }

  /** Taking out a red node leaves a balanced tree. */
  lemma SpliceRed(g: Graph, y: Node)
    requires Balanced(g) && y in g.cells && (g.cells[y].left == g.nil || g.cells[y].right == g.nil)
             && g.cells[y].color == RED
    ensures Balanced(Spliced(g, y))
  {
    hide Linked, HeightOk, RedOk, Spliced;
    SpliceReady(g, y);
    SpliceShape(g, y);
    var r := Spliced(g, y);
    forall n | n in r.cells ensures HeightOk(r, n) && RedOk(r, n, r.nil) {
      assert Linked(g, n) && HeightOk(g, n) && RedOk(g, n, g.nil) && HeightOk(g, y) && RedOk(g, y, g.nil);
      SplicedBalance(g, y, n);
    }
    RedRoot(g, y);
  }

  lemma RedRoot(g: Graph, y: Node)
    requires SpliceSite(g, y) && ColorOf(g, g.root) == BLACK && g.cells[y].color == RED
    ensures ColorOf(Spliced(g, y), Spliced(g, y).root) == BLACK
  {
    SpliceApart(g, y);
  }

  /** Taking out a black node starts the fixup at its child. */
  lemma SpliceBlack(g: Graph, y: Node)
    requires Balanced(g) && y in g.cells && (g.cells[y].left == g.nil || g.cells[y].right == g.nil)
             && g.cells[y].color == BLACK
    ensures DeleteInv(Spliced(g, y), OnlyChild(g, y), g.cells[y].parent)
  {
    hide Linked, HeightOk, RedOk, Spliced, Ordered, RootOk;
    SpliceReady(g, y);
    SpliceShape(g, y);
    var r, x, p := Spliced(g, y), OnlyChild(g, y), g.cells[y].parent;
    forall n | n in r.cells ensures RedOk(r, n, x) && (n != p ==> HeightOk(r, n)) {
      assert Linked(g, n) && HeightOk(g, n) && RedOk(g, n, g.nil) && HeightOk(g, y) && RedOk(g, y, g.nil);
      SplicedBalance(g, y, n);
    }
    ParentInside(g, y);
    RootThere(g, y);
    assert y != g.root ==> HeightOk(g, p);
    assert HeightOk(g, y);
    SpliceDeficit(g, y);
  }

  lemma RootThere(g: Graph, y: Node)
    requires Shape(g) && y in g.cells
    ensures g.root in g.cells
  {
    assert g.order != [] by { assert 0 <= g.cells[y].pos < |g.order|; }
  }

  lemma SpliceDeficit(g: Graph, y: Node)
    requires SpliceSite(g, y) && HeightOk(g, y) && g.cells[y].color == BLACK
             && (y != g.root ==> HeightOk(g, g.cells[y].parent))
    requires ColorOf(g, g.root) == BLACK && AllLinked(g) && g.root in g.cells
    ensures var r, x, p := Spliced(g, y), OnlyChild(g, y), g.cells[y].parent;
            && (x == r.nil || x in r.cells)
            && (y == g.root ==> x == r.root && p !in r.cells)
            && (y != g.root ==> x != r.root && Deficit(r, x, p) && ColorOf(r, r.root) == BLACK)
  {
    hide Spliced, HeightOk, ColorOf, HeightOf;
    var r, x, p := Spliced(g, y), OnlyChild(g, y), g.cells[y].parent;
    SpliceApart(g, y);
    SplicedColors(g, y);
    NilColors(g);
    ByColors(g, y, g.nil);
    SeenColors(g, y, y);
    if y != g.root {
      ByColors(g, p, g.nil);
      SplicedChildren(g, y, p);
      SiblingThere(g, y);
    }
  }

  /** A black node below the root has a sibling. */
  lemma SiblingThere(g: Graph, y: Node)
    requires SpliceSite(g, y) && y != g.root && HeightOk(g, y) && HeightOk(g, g.cells[y].parent)
             && g.cells[y].color == BLACK
    requires AllLinked(g)
    ensures var p := g.cells[y].parent;
            if g.cells[p].left == y then g.cells[p].right in g.cells && g.cells[p].right != y
            else g.cells[p].right == y && g.cells[p].left in g.cells && g.cells[p].left != y
  {
    var p := g.cells[y].parent;
    assert Linked(g, p) && Linked(g, y);
  }

  // --------------------------------------------------------------- the four cases

  /** Below the root, the deficit has a sibling, and going up strictly enlarges the subtree. */
  lemma DeficitFacts(g: Graph, x: Node, px: Node)
    requires DeleteInv(g, x, px) && x != g.root
    ensures px in g.cells && px != x && Linked(g, px) && (x in g.cells ==> Linked(g, x) && g.cells[x].parent == px)
    ensures 0 <= Width(g, x) < Width(g, px) <= |g.order|
    ensures g.cells[px].left == x ==> g.cells[px].right in g.cells && g.cells[px].right != x && g.cells[px].right != px
    ensures g.cells[px].left != x ==> g.cells[px].right == x && g.cells[px].left in g.cells && g.cells[px].left != px
    ensures g.cells[px].left == x || g.cells[px].right == x
  {
    assert Linked(g, px);
    if x in g.cells {
      assert Linked(g, x);
    }
    SpanEnds(g, px);
  }

  /** Facts about the sibling `w` of a black `x` on the left. */
  ghost predicate LeftSite(g: Graph, x: Node, px: Node, w: Node) {
    && px in g.cells && w in g.cells && g.nil !in g.cells && g.cells[px].left == x && g.cells[px].right == w
    && w != x && w != px && x != px && px != g.nil
    && HeightOf(g, x) >= 0 && HeightOf(g, x) + 1 == HeightOf(g, w)
    && HeightOf(g, px) == HeightOf(g, w) + Rank(ColorOf(g, px))
    && HeightOk(g, w) && Linked(g, w) && Linked(g, px)
  }

  lemma LeftSiteHolds(g: Graph, x: Node, px: Node)
    requires DeleteInv(g, x, px) && x != g.root && px in g.cells && g.cells[px].left == x && ColorOf(g, x) == BLACK
    ensures LeftSite(g, x, px, g.cells[px].right) && RotationSite(g, px) && RedOk(g, g.cells[px].right, x)
    ensures RedOk(g, px, x)
  {
    hide HeightOk, RedOk;
    DeficitFacts(g, x, px);
    var w := g.cells[px].right;
    assert HeightOk(g, w) && Linked(g, w) && RedOk(g, w, x) && RedOk(g, px, x);
    Site(g, px);
  }

  // Case 1: a red sibling is rotated up.

  lemma Case1Node(g: Graph, x: Node, px: Node, w: Node, n: Node)
    requires LeftSite(g, x, px, w) && RotationSite(g, px) && ColorOf(g, w) == RED && ColorOf(g, px) == BLACK
    requires RedOk(g, w, x) && Linked(g, n) && (n != px ==> HeightOk(g, n)) && (n != x ==> RedOk(g, n, x))
    ensures var r := RotateLeft(Swapped(g, w, px), px);
            && (n != px ==> HeightOk(r, n)) && (n != x ==> RedOk(r, n, x))
  {
    hide RotateLeft, HeightOk, RedOk, ColorOf, HeightOf, Swapped, LeftOk, RightOk;
    SiteApart(g, px);
    SwappedFacts(g, w, px);
    var s := Swapped(g, w, px);
    TurnedChildren(s, px, n);
    TurnedColors(s, px);
    ByColors(g, n, x);
    ByColors(g, w, x);
    ByColors(RotateLeft(s, px), n, x);
    NotBoth(g, px, n);
    NotBoth(g, w, n);
    ChildApart(g, x, px, w);
    NilColors(g);
  }

  /** A node with `px` as a child is its parent. */
  lemma NotBoth(g: Graph, px: Node, n: Node)
    requires Linked(g, n) && Linked(g, px) && g.nil !in g.cells
    ensures (g.cells[n].left == px || g.cells[n].right == px) ==> n == g.cells[px].parent
    ensures g.cells[n].left == g.cells[n].right ==> g.cells[n].left == g.nil
    ensures g.cells[n].left != n && g.cells[n].right != n
  {
  }

  lemma Case1Deficit(g: Graph, x: Node, px: Node, w: Node)
    requires LeftSite(g, x, px, w) && RotationSite(g, px) && ColorOf(g, w) == RED && ColorOf(g, px) == BLACK
             && RedOk(g, w, x)
    ensures var r := RotateLeft(Swapped(g, w, px), px);
            && Deficit(r, x, px) && r.cells[px].left == x && r.cells[px].right == g.cells[w].left
            && g.cells[w].left in r.cells
            && ColorOf(r, g.cells[w].left) == BLACK && r.cells[px].parent == w
            && (if g.root == px then r.root == w else r.root == g.root)
            && ColorOf(r, w) == BLACK && ColorOf(r, x) == ColorOf(g, x)
  {
    hide RotateLeft, HeightOk, RedOk, ColorOf, HeightOf, Swapped;
    SiteApart(g, px);
    SwappedFacts(g, w, px);
    var s := Swapped(g, w, px);
    TurnedChildren(s, px, px);
    TurnedColors(s, px);
    ByColors(g, w, x);
    RotatedRoot(s, px);
    SameNodes(s, px);
    HeightInside(g, g.cells[w].left);
    ChildApart(g, x, px, w);
  }

  lemma HeightInside(g: Graph, n: Node)
    requires HeightOf(g, n) > 0
    ensures n in g.cells
  {
  }

  lemma ChildApart(g: Graph, x: Node, px: Node, w: Node)
    requires LeftSite(g, x, px, w)
    ensures g.cells[w].left != x || x == g.nil
    ensures g.cells[w].left != px && g.cells[w].left != w && g.cells[w].right != px && g.cells[w].right != w
    ensures g.cells[w].right != x || x == g.nil
    ensures g.cells[w].parent == px
  {
  }

  lemma Case1Ok(g: Graph, x: Node, px: Node)
    requires DeleteInv(g, x, px) && x != g.root && px in g.cells && g.cells[px].left == x && ColorOf(g, x) == BLACK
    requires ColorOf(g, g.cells[px].right) == RED
    ensures g.cells[px].right in g.cells
    ensures var w := g.cells[px].right;
            var r := RotateLeft(Swapped(g, w, px), px);
            && DeleteInv(r, x, px) && x != r.root && r.cells[px].left == x && r.cells[px].right == g.cells[w].left
            && ColorOf(r, g.cells[w].left) == BLACK && ColorOf(r, x) == BLACK && r.cells.Keys == g.cells.Keys
  {
    hide HeightOk, RedOk, Ordered, RootOk, RotateLeft, Linked, RotationSite, Swapped, Deficit;
    LeftSiteHolds(g, x, px);
    var w := g.cells[px].right;
    BlackAbove(g, x, px, w);
    var s := Swapped(g, w, px);
    SwappedShape(g, w, px);
    SwappedFacts(g, w, px);
    RotateLeftOk(s, px);
    SameNodes(s, px);
    var r := RotateLeft(s, px);
    forall n | n in r.cells ensures (n != px ==> HeightOk(r, n)) && (n != x ==> RedOk(r, n, x)) {
      assert Linked(g, n) && (n != px ==> HeightOk(g, n)) && (n != x ==> RedOk(g, n, x));
      Case1Node(g, x, px, w, n);
    }
    Case1Deficit(g, x, px, w);
    RootColor(g, s, r, px, w);
  }

  /** A red sibling has a black parent. */
  lemma BlackAbove(g: Graph, x: Node, px: Node, w: Node)
    requires LeftSite(g, x, px, w) && ColorOf(g, w) == RED && RedOk(g, px, x)
    ensures ColorOf(g, px) == BLACK
  {
  }

  lemma RootColor(g: Graph, s: Graph, r: Graph, px: Node, w: Node)
    requires px in g.cells && w in g.cells && px != w && s == Swapped(g, w, px) && s.cells[px].right in s.cells
             && r == RotateLeft(s, px)
    requires ColorOf(g, g.root) == BLACK && (if g.root == px then r.root == w else r.root == g.root)
    ensures ColorOf(r, r.root) == BLACK
  {
    hide Swapped, RotateLeft;
    SwappedFacts(g, w, px);
    TurnedColors(s, px);
  }

  // Case 2: a black sibling with black children gives up one level too.

  /** `w` is the sibling of `x` below `px`, on either side. */
  ghost predicate Siblings(g: Graph, x: Node, px: Node, w: Node) {
    && px in g.cells && w in g.cells && g.nil !in g.cells && w != x && w != px && x != px && Linked(g, px)
    && Linked(g, w) && HeightOk(g, w)
    && ((g.cells[px].left == x && g.cells[px].right == w) || (g.cells[px].left == w && g.cells[px].right == x))
    && HeightOf(g, x) >= 0 && HeightOf(g, x) + 1 == HeightOf(g, w)
    && HeightOf(g, px) == HeightOf(g, w) + Rank(ColorOf(g, px))
    && g.cells[w].parent == px && g.cells[w].left != px && g.cells[w].right != px && g.cells[w].left != w
    && g.cells[w].right != w
  }

  lemma SiblingsHold(g: Graph, x: Node, px: Node)
    requires DeleteInv(g, x, px) && x != g.root
    ensures Siblings(g, x, px, if g.cells[px].left == x then g.cells[px].right else g.cells[px].left)
  {
    hide HeightOk, RedOk;
    DeficitFacts(g, x, px);
    var w := if g.cells[px].left == x then g.cells[px].right else g.cells[px].left;
    assert HeightOk(g, w) && Linked(g, w);
  }

  function Drained(g: Graph, px: Node, w: Node): Graph
    requires px in g.cells && w in g.cells
  {
    Paint(Paint(g, w, RED, g.cells[w].bh - 1), px, g.cells[px].color, g.cells[px].bh - 1)
  }

  lemma DrainedFacts(g: Graph, px: Node, w: Node)
    requires px in g.cells && w in g.cells && px != w
    ensures var s := Drained(g, px, w);
            && s.cells.Keys == g.cells.Keys && s.nil == g.nil && s.root == g.root
            && (forall m {:trigger ColorOf(s, m)} :: ColorOf(s, m) == if m == w then RED else ColorOf(g, m))
            && (forall m {:trigger HeightOf(s, m)} ::
                  HeightOf(s, m) == if m == w || m == px then HeightOf(g, m) - 1 else HeightOf(g, m))
            && (forall m {:trigger s.cells[m]} :: m in g.cells ==>
                  s.cells[m].left == g.cells[m].left && s.cells[m].right == g.cells[m].right
                  && s.cells[m].parent == g.cells[m].parent)
  {
  }

  lemma DrainedShape(g: Graph, px: Node, w: Node)
    requires Shape(g) && px in g.cells && w in g.cells
    ensures Shape(Drained(g, px, w))
  {
    hide Shape;
    PaintShape(g, w, RED, g.cells[w].bh - 1);
    PaintShape(Paint(g, w, RED, g.cells[w].bh - 1), px, g.cells[px].color, g.cells[px].bh - 1);
  }

  lemma Case2Node(g: Graph, x: Node, px: Node, w: Node, n: Node)
    requires Siblings(g, x, px, w) && ColorOf(g, x) == BLACK && ColorOf(g, w) == BLACK
    requires ColorOf(g, g.cells[w].left) == BLACK && ColorOf(g, g.cells[w].right) == BLACK
    requires Linked(g, n) && (n != px ==> HeightOk(g, n)) && (n != x ==> RedOk(g, n, x))
    requires n == x ==> HeightOk(g, n)
    ensures var r := Drained(g, px, w);
            && (n != g.cells[px].parent ==> HeightOk(r, n)) && (n != px && n != x ==> RedOk(r, n, px))
            && (n == x ==> RedOk(r, n, px))
  {
    hide HeightOk, RedOk, ColorOf, HeightOf, Drained, LeftOk, RightOk;
    DrainedFacts(g, px, w);
    var r := Drained(g, px, w);
    ByColors(g, n, x);
    ByColors(g, w, x);
    ByColors(r, n, px);
    NotBoth(g, px, n);
    NotBoth(g, w, n);
  }

  lemma Case2Deficit(g: Graph, x: Node, px: Node, w: Node)
    requires Siblings(g, x, px, w) && ColorOf(g, w) == BLACK && g.cells[px].parent in g.cells
             && HeightOk(g, g.cells[px].parent)
    requires Linked(g, g.cells[px].parent)
    ensures Deficit(Drained(g, px, w), px, g.cells[px].parent)
  {
    hide HeightOk, ColorOf, HeightOf, Drained;
    DrainedFacts(g, px, w);
    var q := g.cells[px].parent;
    ByColors(g, q, x);
    NotBoth(g, px, q);
    NotBoth(g, w, q);
    HeightInside(g, g.cells[q].left);
    HeightInside(g, g.cells[q].right);
    RankSign(g, px);
  }

  lemma RankSign(g: Graph, n: Node)
    ensures Rank(ColorOf(g, n)) >= 0
  {
  }

  lemma Case2Ok(g: Graph, x: Node, px: Node)
    requires DeleteInv(g, x, px) && x != g.root && ColorOf(g, x) == BLACK && px in g.cells
    requires var w := if g.cells[px].left == x then g.cells[px].right else g.cells[px].left;
             w in g.cells && ColorOf(g, w) == BLACK && ColorOf(g, g.cells[w].left) == BLACK
             && ColorOf(g, g.cells[w].right) == BLACK
    ensures var w := if g.cells[px].left == x then g.cells[px].right else g.cells[px].left;
            && px != w && DeleteInv(Drained(g, px, w), px, g.cells[px].parent)
            && Drained(g, px, w).cells.Keys == g.cells.Keys
            && Drained(g, px, w).root == g.root
  {
    hide HeightOk, RedOk, Ordered, RootOk, Linked, Drained, Deficit;
    var w := if g.cells[px].left == x then g.cells[px].right else g.cells[px].left;
    SiblingsHold(g, x, px);
    DrainedShape(g, px, w);
    DrainedFacts(g, px, w);
    var r := Drained(g, px, w);
    forall n | n in r.cells ensures (n != g.cells[px].parent ==> HeightOk(r, n)) && (n != px ==> RedOk(r, n, px)) {
      assert Linked(g, n) && (n != px ==> HeightOk(g, n)) && (n != x ==> RedOk(g, n, x));
      if n == x {
        BlackIsOk(g, x);
      }
      Case2Node(g, x, px, w, n);
    }
    RootParent(g, px);
    if px != g.root {
      var q := g.cells[px].parent;
      assert HeightOk(g, q) && Linked(g, q);
      Case2Deficit(g, x, px, w);
      RootDrained(g, px, w);
    }
  }

  lemma RootDrained(g: Graph, px: Node, w: Node)
    requires px in g.cells && w in g.cells && px != w && ColorOf(g, g.root) == BLACK && g.cells[w].parent == px
             && g.nil !in g.cells && Linked(g, w)
    ensures ColorOf(Drained(g, px, w), g.root) == BLACK
  {
  }

  /** A black node may have any children. */
  lemma BlackIsOk(g: Graph, x: Node)
    requires x in g.cells && ColorOf(g, x) == BLACK
    ensures forall z {:trigger RedOk(g, x, z)} :: RedOk(g, x, z)
  {
  }

  lemma RootParent(g: Graph, n: Node)
    requires AllLinked(g) && n in g.cells
    ensures if n == g.root then g.cells[n].parent == g.nil else g.cells[n].parent in g.cells && g.cells[n].parent != n
  {
    assert Linked(g, n);
    NotSelf(g, n);
  }

  lemma NotSelf(g: Graph, n: Node)
    requires Linked(g, n) && g.nil !in g.cells
    ensures g.cells[n].parent != n
  {
  }

  // Case 4: a black sibling with a red outer child.

  function Raised4(g: Graph, px: Node, w: Node): Graph
    requires px in g.cells && w in g.cells && g.cells[w].right in g.cells
  {
    var outer := g.cells[w].right;
    Paint(Paint(Paint(g, w, g.cells[px].color, g.cells[px].bh), px, BLACK, g.cells[w].bh), outer, BLACK,
          g.cells[outer].bh + 1)
  }

  lemma Raised4Facts(g: Graph, px: Node, w: Node)
    requires px in g.cells && w in g.cells && g.cells[w].right in g.cells && px != w && g.cells[w].right != w
             && g.cells[w].right != px
    ensures var s := Raised4(g, px, w);
            var outer := g.cells[w].right;
            && s.cells.Keys == g.cells.Keys && s.nil == g.nil && s.root == g.root
            && (forall m {:trigger ColorOf(s, m)} ::
                  ColorOf(s, m) == if m == w then ColorOf(g, px)
                                   else if m == px || m == outer then BLACK
                                   else ColorOf(g, m))
            && (forall m {:trigger HeightOf(s, m)} ::
                  HeightOf(s, m) == if m == w then HeightOf(g, px)
                                    else if m == px then HeightOf(g, w)
                                    else if m == outer then HeightOf(g, outer) + 1
                                    else HeightOf(g, m))
            && (forall m {:trigger s.cells[m]} :: m in g.cells ==>
                  s.cells[m].left == g.cells[m].left && s.cells[m].right == g.cells[m].right
                  && s.cells[m].parent == g.cells[m].parent)
  {
  }

  lemma Raised4Shape(g: Graph, px: Node, w: Node)
    requires Shape(g) && px in g.cells && w in g.cells && g.cells[w].right in g.cells && px != w
             && g.cells[w].right != w && g.cells[w].right != px
    ensures Shape(Raised4(g, px, w))
  {
    hide Shape;
    var outer := g.cells[w].right;
    PaintShape(g, w, g.cells[px].color, g.cells[px].bh);
    var g1 := Paint(g, w, g.cells[px].color, g.cells[px].bh);
    PaintShape(g1, px, BLACK, g.cells[w].bh);
    PaintShape(Paint(g1, px, BLACK, g.cells[w].bh), outer, BLACK, g.cells[outer].bh + 1);
  }

  lemma Case4Node(g: Graph, x: Node, px: Node, w: Node, n: Node)
    requires LeftSite(g, x, px, w) && RotationSite(g, px) && ColorOf(g, w) == BLACK && ColorOf(g, x) == BLACK
    requires g.cells[w].right in g.cells && ColorOf(g, g.cells[w].right) == RED && Linked(g, g.cells[w].right)
             && HeightOk(g, g.cells[w].right)
    requires Linked(g, n) && (n != px ==> HeightOk(g, n)) && RedOk(g, n, x)
    ensures var r := RotateLeft(Raised4(g, px, w), px);
            && HeightOk(r, n) && forall z {:trigger RedOk(r, n, z)} :: RedOk(r, n, z)
  {
    hide RotateLeft, HeightOk, RedOk, ColorOf, HeightOf, Raised4, LeftOk, RightOk;
    var outer := g.cells[w].right;
    SiteApart(g, px);
    ChildApart(g, x, px, w);
    OuterApart(g, px, w);
    Raised4Facts(g, px, w);
    var s := Raised4(g, px, w);
    var r := RotateLeft(s, px);
    TurnedChildren(s, px, n);
    TurnedColors(s, px);
    ByColors(g, n, x);
    ByColors(g, w, x);
    ByColors(g, outer, x);
    forall z ensures RedOk(r, n, z) <==>
             (var c := r.cells[n]; ColorOf(r, n) == RED ==>
              (c.left == z || ColorOf(r, c.left) == BLACK) && (c.right == z || ColorOf(r, c.right) == BLACK)) {
      ByColors(r, n, z);
    }
    ByColors(r, n, x);
    NotBoth(g, px, n);
    NotBoth(g, w, n);
    NotBoth(g, outer, n);
    NilColors(g);
    RankSign(g, px);
  }

  lemma OuterApart(g: Graph, px: Node, w: Node)
    requires px in g.cells && Linked(g, w) && Linked(g, px) && g.nil !in g.cells && g.cells[px].right == w
             && g.cells[w].right in g.cells
    ensures g.cells[w].right != w && g.cells[w].right != px && g.cells[g.cells[w].right].parent == w
            && g.cells[w].left != g.cells[w].right
  {
  }

  lemma Case4Ok(g: Graph, x: Node, px: Node)
    requires DeleteInv(g, x, px) && x != g.root && px in g.cells && g.cells[px].left == x && ColorOf(g, x) == BLACK
    requires g.cells[px].right in g.cells && ColorOf(g, g.cells[px].right) == BLACK
    requires var w := g.cells[px].right; g.cells[w].right in g.cells && ColorOf(g, g.cells[w].right) == RED
    ensures var r := RotateLeft(Raised4(g, px, g.cells[px].right), px);
            DeleteInv(r, r.root, px) && r.cells.Keys == g.cells.Keys && r.root in r.cells
  {
    hide HeightOk, RedOk, Ordered, RootOk, RotateLeft, Linked, RotationSite, Raised4, Deficit;
    LeftSiteHolds(g, x, px);
    var w := g.cells[px].right;
    assert Linked(g, w) && Linked(g, px);
    OuterApart(g, px, w);
    Raised4Shape(g, px, w);
    Raised4Facts(g, px, w);
    var s := Raised4(g, px, w);
    RotateLeftOk(s, px);
    SameNodes(s, px);
    var r := RotateLeft(s, px);
    forall n | n in r.cells ensures HeightOk(r, n) && RedOk(r, n, r.root) {
      assert Linked(g, n) && (n != px ==> HeightOk(g, n)) && (n != x ==> RedOk(g, n, x));
      var outer := g.cells[w].right;
      assert Linked(g, outer) && HeightOk(g, outer);
      if n == x {
        BlackIsOk(g, x);
        assert RedOk(g, x, x);
      }
      Case4Node(g, x, px, w, n);
    }
    RotatedRoot(s, px);
    RootThere(g, px);
  }

  // Case 3, mirrored: a black sibling on the left with a red inner child.

  ghost predicate InnerSite(g: Graph, x: Node, px: Node, w: Node) {
    && Siblings(g, x, px, w) && g.cells[px].left == w && g.cells[px].right == x
    && ColorOf(g, w) == BLACK && g.cells[w].right in g.cells && ColorOf(g, g.cells[w].right) == RED
    && ColorOf(g, g.cells[w].left) == BLACK
    && Linked(g, g.cells[w].right) && HeightOk(g, g.cells[w].right) && RotationSite(g, w)
  }

  lemma InnerApart(g: Graph, x: Node, px: Node, w: Node)
    requires InnerSite(g, x, px, w)
    ensures var y := g.cells[w].right;
            && y != w && y != px && y != x && g.cells[y].parent == w && g.cells[y].left != px && g.cells[y].left != w
            && g.cells[y].right != px && g.cells[y].right != w && g.cells[y].left != y && g.cells[y].right != y
            && (g.cells[y].left != x || x == g.nil) && w != g.root
  {
  }

  lemma Case3Node(g: Graph, x: Node, px: Node, w: Node, n: Node)
    requires InnerSite(g, x, px, w) && Linked(g, n) && (n != px ==> HeightOk(g, n)) && (n != x ==> RedOk(g, n, x))
             && RedOk(g, g.cells[w].right, x)
    ensures var r := RotateLeft(Swapped(g, g.cells[w].right, w), w);
            && (n != px ==> HeightOk(r, n)) && (n != x ==> RedOk(r, n, x))
  {
    hide RotateLeft, HeightOk, RedOk, ColorOf, HeightOf, Swapped, LeftOk, RightOk;
    var y := g.cells[w].right;
    SiteApart(g, w);
    InnerApart(g, x, px, w);
    SwappedFacts(g, y, w);
    var s := Swapped(g, y, w);
    TurnedChildren(s, w, n);
    TurnedColors(s, w);
    ByColors(g, n, x);
    ByColors(g, w, x);
    ByColors(g, y, x);
    ByColors(RotateLeft(s, w), n, x);
    NotBoth(g, w, n);
    NotBoth(g, y, n);
    NilColors(g);
  }

  lemma Case3Deficit(g: Graph, x: Node, px: Node, w: Node)
    requires InnerSite(g, x, px, w)
    ensures var y := g.cells[w].right;
            var r := RotateLeft(Swapped(g, y, w), w);
            && Deficit(r, x, px) && r.cells[px].left == y && r.cells[px].right == x && y in r.cells
            && r.cells[y].left == w && w in r.cells
            && ColorOf(r, y) == BLACK && ColorOf(r, w) == RED && r.root == g.root
            && ColorOf(r, g.root) == ColorOf(Swapped(g, y, w), g.root)
            && ColorOf(r, x) == ColorOf(g, x)
  {
    hide RotateLeft, HeightOk, RedOk, ColorOf, HeightOf, Swapped;
    var y := g.cells[w].right;
    SiteApart(g, w);
    InnerApart(g, x, px, w);
    SwappedFacts(g, y, w);
    var s := Swapped(g, y, w);
    TurnedChildren(s, w, px);
    TurnedChildren(s, w, y);
    TurnedColors(s, w);
    ByColors(g, w, x);
    ByColors(g, y, x);
    RotatedRoot(s, w);
    SameNodes(s, w);
  }

  lemma Case3Ok(g: Graph, x: Node, px: Node)
    requires DeleteInv(g, x, px) && x != g.root && px in g.cells && g.cells[px].left != x && ColorOf(g, x) == BLACK
    requires g.cells[px].left in g.cells && ColorOf(g, g.cells[px].left) == BLACK
             && ColorOf(g, g.cells[g.cells[px].left].left) == BLACK
    requires g.cells[g.cells[px].left].right in g.cells && ColorOf(g, g.cells[g.cells[px].left].right) == RED
    ensures var w := g.cells[px].left;
            var y := g.cells[w].right;
            var r := RotateLeft(Swapped(g, y, w), w);
            && DeleteInv(r, x, px) && r.root == g.root && r.cells[px].left == y && r.cells[px].right == x && y != x
            && r.cells[y].left == w && ColorOf(r, w) == RED && ColorOf(r, y) == BLACK && ColorOf(r, x) == BLACK
            && r.cells.Keys == g.cells.Keys
  {
    hide HeightOk, RedOk, Ordered, RootOk, RotateLeft, Linked, RotationSite, Swapped, Deficit;
    var w := g.cells[px].left;
    var y := g.cells[w].right;
    SiblingsHold(g, x, px);
    DeficitFacts(g, x, px);
    Site(g, w);
    assert Linked(g, y) && HeightOk(g, y);
    InnerApart(g, x, px, w);
    var s := Swapped(g, y, w);
    SwappedShape(g, y, w);
    SwappedFacts(g, y, w);
    RotateLeftOk(s, w);
    SameNodes(s, w);
    var r := RotateLeft(s, w);
    forall n | n in r.cells ensures (n != px ==> HeightOk(r, n)) && (n != x ==> RedOk(r, n, x)) {
      assert Linked(g, n) && (n != px ==> HeightOk(g, n)) && (n != x ==> RedOk(g, n, x)) && RedOk(g, y, x);
      Case3Node(g, x, px, w, n);
    }
    Case3Deficit(g, x, px, w);
  }

  // ---------------------------------------------------------------------- the end

  /** The last statement of the fixup. */
  function Finished(g: Graph, x: Node): Graph {
    if x in g.cells then Paint(g, x, BLACK, if g.cells[x].color == RED then g.cells[x].bh + 1 else g.cells[x].bh) else g
  }

  lemma FinishedNode(g: Graph, x: Node, px: Node, n: Node)
    requires x in g.cells && g.nil !in g.cells && Linked(g, n) && Linked(g, x) && (n != x ==> RedOk(g, n, x))
             && HeightOk(g, x)
    requires x == g.root || ColorOf(g, x) == RED
    requires if x == g.root then HeightOk(g, n) else Deficit(g, x, px) && (n != px ==> HeightOk(g, n)) && Linked(g, px)
    ensures HeightOk(Finished(g, x), n) && RedOk(Finished(g, x), n, g.nil)
  {
    hide HeightOk, RedOk, ColorOf, HeightOf, LeftOk, RightOk, Paint, Deficit;
    var bh := if g.cells[x].color == RED then g.cells[x].bh + 1 else g.cells[x].bh;
    PaintedColors(g, x, BLACK, bh);
    ByColors(g, n, x);
    ByColors(g, x, x);
    ByColors(Paint(g, x, BLACK, bh), n, g.nil);
    NotBoth(g, x, n);
    SeenColors(g, x, x);
    SeenHeight(g, x);
    NilColors(g);
    if x != g.root {
      DeficitAt(g, x, px);
      NotBoth(g, x, px);
    }
  }

  lemma SeenHeight(g: Graph, x: Node)
    requires x in g.cells
    ensures HeightOf(g, x) == g.cells[x].bh
  {
  }

  lemma DeficitAt(g: Graph, x: Node, px: Node)
    requires Deficit(g, x, px) && Linked(g, px) && g.nil !in g.cells
    ensures var c := g.cells[px];
            && (c.left == x || c.right == x) && (c.left == x ==> c.right != x)
            && HeightOf(g, x) >= 0
            && HeightOf(g, if c.left == x then c.right else c.left) == HeightOf(g, x) + 1
            && HeightOf(g, px) == HeightOf(g, x) + 1 + Rank(ColorOf(g, px))
  {
  }

  lemma DeleteDone(g: Graph, x: Node, px: Node)
    requires DeleteInv(g, x, px) && (x == g.root || ColorOf(g, x) == RED)
    ensures Balanced(Finished(g, x))
  {
    hide HeightOk, RedOk, Linked, Paint, Ordered, RootOk;
    if x in g.cells {
      var bh := if g.cells[x].color == RED then g.cells[x].bh + 1 else g.cells[x].bh;
      PaintShape(g, x, BLACK, bh);
      PaintedColors(g, x, BLACK, bh);
      if x != g.root {
        DeficitFacts(g, x, px);
      }
      PaintRoot(g, x, bh);
      var r := Finished(g, x);
      forall n | n in r.cells ensures HeightOk(r, n) && RedOk(r, n, r.nil) {
        assert Linked(g, n) && Linked(g, x) && (n != x ==> RedOk(g, n, x)) && HeightOk(g, x);
        assert x != g.root && n != px ==> HeightOk(g, n);
        assert x == g.root ==> HeightOk(g, n);
        FinishedNode(g, x, px, n);
      }
    } else {
      NilRoot(g);
    }
  }

  lemma PaintRoot(g: Graph, x: Node, bh: int)
    requires x in g.cells
    ensures var r := Paint(g, x, BLACK, bh);
            r.root == g.root && r.nil == g.nil
            && (ColorOf(g, g.root) == BLACK || x == g.root ==> ColorOf(r, g.root) == BLACK)
  {
  }

  /** Only the empty tree has the sentinel as its root. */
  lemma NilRoot(g: Graph)
    requires Shape(g) && g.root == g.nil
    ensures g.cells == map[] && Balanced(g)
  {
    assert g.order == [];
    assert g.cells.Keys == {};
  }

  // --------------------------------------------------------- the right-hand side

  lemma MirrorFacts(g: Graph, x: Node, px: Node)
    requires DeleteInv(g, x, px) && x != g.root
    ensures px in g.cells
    ensures forall n :: n in g.cells ==>
              Mirror(g).cells[n].left == g.cells[n].right && Mirror(g).cells[n].right == g.cells[n].left
    ensures forall n :: n in g.cells ==> Mirror(g).cells[n].parent == g.cells[n].parent
    ensures forall m {:trigger ColorOf(Mirror(g), m)} :: ColorOf(Mirror(g), m) == ColorOf(g, m)
  {
    MirrorColorOf(g);
  }

  lemma Case1OkRight(g: Graph, x: Node, px: Node)
    requires DeleteInv(g, x, px) && x != g.root && px in g.cells && g.cells[px].right == x && g.cells[px].left != x
             && ColorOf(g, x) == BLACK
    requires ColorOf(g, g.cells[px].left) == RED
    ensures g.cells[px].left in g.cells
    ensures var w := g.cells[px].left;
            var r := RotateRight(Swapped(g, w, px), px);
            && DeleteInv(r, x, px) && x != r.root && r.cells[px].right == x && r.cells[px].left == g.cells[w].right
            && r.cells[px].left != x
            && ColorOf(r, g.cells[w].right) == BLACK && ColorOf(r, x) == BLACK && r.cells.Keys == g.cells.Keys
  {
    hide DeleteInv, RotateLeft, Swapped;
    var w := g.cells[px].left;
    DeficitFacts(g, x, px);
    MirrorDelete(g, x, px);
    MirrorFacts(g, x, px);
    SwappedMirror(g, w, px);
    SwappedFacts(g, w, px);
    var m := Mirror(g);
    SwappedFacts(m, w, px);
    Case1Ok(m, x, px);
    var h := RotateLeft(Swapped(m, w, px), px);
    MirrorDelete(h, x, px);
    MirrorFacts(h, x, px);
    DeficitFacts(h, x, px);
  }

  function Raised4Right(g: Graph, px: Node, w: Node): Graph
    requires px in g.cells && w in g.cells && g.cells[w].left in g.cells
  {
    var outer := g.cells[w].left;
    Paint(Paint(Paint(g, w, g.cells[px].color, g.cells[px].bh), px, BLACK, g.cells[w].bh), outer, BLACK,
          g.cells[outer].bh + 1)
  }

  lemma Raised4Mirror(g: Graph, px: Node, w: Node)
    requires px in g.cells && w in g.cells && g.cells[w].left in g.cells
    ensures Mirror(Raised4Right(g, px, w)) == Raised4(Mirror(g), px, w)
  {
    hide Paint, Mirror;
    var outer := g.cells[w].left;
    PaintMirror(g, w, g.cells[px].color, g.cells[px].bh);
    var g1 := Paint(g, w, g.cells[px].color, g.cells[px].bh);
    PaintMirror(g1, px, BLACK, g.cells[w].bh);
    PaintMirror(Paint(g1, px, BLACK, g.cells[w].bh), outer, BLACK, g.cells[outer].bh + 1);
  }

  lemma Case4OkRight(g: Graph, x: Node, px: Node)
    requires DeleteInv(g, x, px) && x != g.root && px in g.cells && g.cells[px].right == x && ColorOf(g, x) == BLACK
    requires g.cells[px].left in g.cells && ColorOf(g, g.cells[px].left) == BLACK
    requires var w := g.cells[px].left; g.cells[w].left in g.cells && ColorOf(g, g.cells[w].left) == RED
    ensures var w := g.cells[px].left;
            && px != w && g.cells[w].left != px && g.cells[w].left != w
            && var r := RotateRight(Raised4Right(g, px, w), px);
               DeleteInv(r, r.root, px) && r.cells.Keys == g.cells.Keys && r.root in r.cells
  {
    hide DeleteInv, RotateLeft, Raised4, Raised4Right;
    var w := g.cells[px].left;
    DeficitFacts(g, x, px);
    MirrorDelete(g, x, px);
    MirrorFacts(g, x, px);
    Raised4Mirror(g, px, w);
    OuterApartRight(g, x, px, w);
    Raised4RightFacts(g, px, w);
    Case4Ok(Mirror(g), x, px);
    var h := RotateLeft(Raised4(Mirror(g), px, w), px);
    MirrorDelete(h, h.root, px);
  }

  lemma OuterApartRight(g: Graph, x: Node, px: Node, w: Node)
    requires DeleteInv(g, x, px) && x != g.root && px in g.cells && g.cells[px].left == w && w in g.cells
             && g.cells[w].left in g.cells
    ensures px != w && g.cells[w].left != px && g.cells[w].left != w
  {
    assert Linked(g, w) && Linked(g, px);
  }

  lemma Raised4RightFacts(g: Graph, px: Node, w: Node)
    requires px in g.cells && w in g.cells && g.cells[w].left in g.cells
    ensures var s := Raised4Right(g, px, w);
            && s.cells.Keys == g.cells.Keys && s.nil == g.nil && s.root == g.root && s.order == g.order
            && (forall m {:trigger s.cells[m]} :: m in g.cells ==>
                  s.cells[m].left == g.cells[m].left && s.cells[m].right == g.cells[m].right
                  && s.cells[m].parent == g.cells[m].parent)
  {
  }

  /** Case 3 with the missing level on the left. */
  lemma Case3OkLeft(g: Graph, x: Node, px: Node)
    requires DeleteInv(g, x, px) && x != g.root && px in g.cells && g.cells[px].left == x && ColorOf(g, x) == BLACK
    requires g.cells[px].right in g.cells && ColorOf(g, g.cells[px].right) == BLACK
             && ColorOf(g, g.cells[g.cells[px].right].right) == BLACK
    requires g.cells[g.cells[px].right].left in g.cells && ColorOf(g, g.cells[g.cells[px].right].left) == RED
    ensures var w := g.cells[px].right;
            var y := g.cells[w].left;
            var r := RotateRight(Swapped(g, y, w), w);
            && DeleteInv(r, x, px) && r.root == g.root && r.cells[px].right == y && r.cells[px].left == x && y != x
            && r.cells[y].right == w && ColorOf(r, w) == RED && ColorOf(r, y) == BLACK && ColorOf(r, x) == BLACK
            && r.cells.Keys == g.cells.Keys
  {
    hide DeleteInv, RotateLeft, Swapped;
    var w := g.cells[px].right;
    var y := g.cells[w].left;
    DeficitFacts(g, x, px);
    MirrorDelete(g, x, px);
    MirrorFacts(g, x, px);
    SwappedMirror(g, y, w);
    ShapeInside(g, x, px, w);
    SwappedFacts(g, y, w);
    var m := Mirror(g);
    SwappedFacts(m, y, w);
    Case3Ok(m, x, px);
    var h := RotateLeft(Swapped(m, y, w), w);
    MirrorDelete(h, x, px);
    MirrorFacts(h, x, px);
  }

  lemma ShapeInside(g: Graph, x: Node, px: Node, w: Node)
    requires DeleteInv(g, x, px) && w in g.cells
    ensures g.cells[w].left != w && g.cells[w].right != w
  {
    assert Linked(g, w);
  }

  lemma InvShape(g: Graph, x: Node, px: Node)
    requires DeleteInv(g, x, px)
    ensures Shape(g) && g.nil !in g.cells && (x == g.nil || x in g.cells) && 0 <= Width(g, x) <= |g.order|
  {
    if x in g.cells {
      SpanEnds(g, x);
      assert Linked(g, x);
    }
  }

  lemma Raised4Order(g: Graph, px: Node, w: Node)
    requires px in g.cells && w in g.cells && g.cells[w].right in g.cells
    ensures Raised4(g, px, w).order == g.order
  {
  }

  lemma Raised4RightShape(g: Graph, px: Node, w: Node)
    requires Shape(g) && px in g.cells && w in g.cells && g.cells[w].left in g.cells
    ensures Shape(Raised4Right(g, px, w))
  {
    hide Shape;
    var outer := g.cells[w].left;
    PaintShape(g, w, g.cells[px].color, g.cells[px].bh);
    var g1 := Paint(g, w, g.cells[px].color, g.cells[px].bh);
    PaintShape(g1, px, BLACK, g.cells[w].bh);
    PaintShape(Paint(g1, px, BLACK, g.cells[w].bh), outer, BLACK, g.cells[outer].bh + 1);
  }

  lemma DrainedOrder(g: Graph, px: Node, w: Node)
    requires px in g.cells && w in g.cells
    ensures Drained(g, px, w).order == g.order && Width(Drained(g, px, w), px) == Width(g, px)
  {
  }
}
