/** The pointer structure of the red-black tree (src/engines/kvs_rbtree.c) as a value: for every
    node its fields, plus where it belongs. All invariants are local to a node and its
    neighbours. */
module RbGraph {
  import opened Bytes
  import opened Store

  datatype Color = RED | BLACK

  /** `rbtree_node`, allocated on the heap. */
  class Node {
    var color: Color
    var left: Node
    var right: Node
    var parent: Node
    var key: Option<ByteString>
    var value: Option<ByteString>

    /** The sentinel as `kvs_rbtree_create` sets it up. */
    constructor Nil()
      ensures color == BLACK && left == this && right == this && parent == this && key == None && value == None
    {
      color, left, right, parent, key, value := BLACK, this, this, this, None, None;
    }

    /** A detached node that owns copies of its key and value. */
    constructor (key: ByteString, value: ByteString)
      ensures this.key == Some(key) && this.value == Some(value)
    {
      color, left, right, parent := RED, this, this, this;
      this.key, this.value := Some(key), Some(value);
    }
  }

  /** What one node says: `pos` is its index in key order, its subtree covers the indices
      [lo, hi), and `bh` is the black height of that subtree. */
  datatype Cell = Cell(color: Color, left: Node, right: Node, parent: Node, pos: int, lo: int, hi: int, bh: int)

  type Cells = map<Node, Cell>

  /** `order` lists all nodes by position. */
  datatype Graph = Graph(nil: Node, root: Node, cells: Cells, order: seq<Node>)

  ghost predicate LeftOk(g: Graph, n: Node)
    requires n in g.cells
  {
    var c := g.cells[n];
    if c.left == g.nil then c.lo == c.pos
    else c.left in g.cells && g.cells[c.left].parent == n && g.cells[c.left].lo == c.lo && g.cells[c.left].hi == c.pos
  }

  ghost predicate RightOk(g: Graph, n: Node)
    requires n in g.cells
  {
    var c := g.cells[n];
    if c.right == g.nil then c.hi == c.pos + 1
    else
      c.right in g.cells && g.cells[c.right].parent == n && g.cells[c.right].lo == c.pos + 1
      && g.cells[c.right].hi == c.hi
  }

  ghost predicate UpOk(g: Graph, n: Node)
    requires n in g.cells
  {
    var p := g.cells[n].parent;
    if n == g.root then p == g.nil else p in g.cells && (g.cells[p].left == n || g.cells[p].right == n)
  }

  ghost predicate Linked(g: Graph, n: Node) {
    && n in g.cells && g.cells[n].lo <= g.cells[n].pos < g.cells[n].hi
    && LeftOk(g, n) && RightOk(g, n) && UpOk(g, n)
  }

  ghost predicate AllLinked(g: Graph) {
    g.nil !in g.cells && forall n {:trigger Linked(g, n)} :: n in g.cells ==> Linked(g, n)
  }

  ghost predicate Ordered(g: Graph) {
    && (forall i :: 0 <= i < |g.order| ==> g.order[i] in g.cells && g.cells[g.order[i]].pos == i)
    && (forall n :: n in g.cells ==> 0 <= g.cells[n].pos < |g.order| && g.order[g.cells[n].pos] == n)
  }

  ghost predicate RootOk(g: Graph) {
    if g.order == [] then g.root == g.nil
    else g.root in g.cells && g.cells[g.root].lo == 0 && g.cells[g.root].hi == |g.order|
  }

  ghost predicate Shape(g: Graph) {
    Ordered(g) && RootOk(g) && AllLinked(g)
  }

  // --------------------------------------------------------------- left rotation

  /** What the left rotation at `x` does to one node: its right child `y` comes up, and `y`'s
      left subtree `b` changes over. */
  function TurnedCell(g: Graph, x: Node, n: Node): Cell
    requires x in g.cells && g.cells[x].right in g.cells && n in g.cells
  {
    var y := g.cells[x].right;
    var p, b, c := g.cells[x].parent, g.cells[y].left, g.cells[n];
    if n == x then c.(right := b, parent := y, hi := g.cells[y].pos)
    else if n == y then c.(left := x, parent := p, lo := g.cells[x].lo)
    else if n == p then (if c.left == x then c.(left := y) else c.(right := y))
    else if n == b then c.(parent := x)
    else c
  }

  function RotateLeft(g: Graph, x: Node): Graph
    requires x in g.cells && g.cells[x].right in g.cells
  {
    g.(root := if g.cells[x].parent == g.nil then g.cells[x].right else g.root,
       cells := map n | n in g.cells :: TurnedCell(g, x, n))
  }

  /** The nodes a rotation touches, with everything known about them. */
  ghost predicate RotationSite(g: Graph, x: Node) {
    && g.nil !in g.cells && Linked(g, x) && g.cells[x].right in g.cells && Linked(g, g.cells[x].right)
    && (x == g.root || Linked(g, g.cells[x].parent))
    && (g.cells[g.cells[x].right].left == g.nil || Linked(g, g.cells[g.cells[x].right].left))
  }

  lemma SiteApart(g: Graph, x: Node)
    requires RotationSite(g, x)
    ensures var y := g.cells[x].right;
            var p, b := g.cells[x].parent, g.cells[y].left;
            x != y && x != p && y != p && b != x && b != y && (b == g.nil || b != p)
    ensures x == g.root <==> g.cells[x].parent == g.nil
  {
  }

  lemma TurnedX(g: Graph, x: Node)
    requires RotationSite(g, x)
    ensures Linked(RotateLeft(g, x), x)
  {
    SiteApart(g, x);
  }

  lemma TurnedY(g: Graph, x: Node)
    requires RotationSite(g, x)
    ensures Linked(RotateLeft(g, x), g.cells[x].right)
  {
    SiteApart(g, x);
  }

  lemma TurnedP(g: Graph, x: Node)
    requires RotationSite(g, x) && x != g.root
    requires g.cells[x].parent == g.root || Linked(g, g.cells[g.cells[x].parent].parent)
    ensures Linked(RotateLeft(g, x), g.cells[x].parent)
  {
    SiteApart(g, x);
  }

  lemma TurnedB(g: Graph, x: Node)
    requires RotationSite(g, x) && g.cells[g.cells[x].right].left != g.nil
    ensures Linked(RotateLeft(g, x), g.cells[g.cells[x].right].left)
  {
    SiteApart(g, x);
  }

  lemma TurnedElsewhere(g: Graph, x: Node, n: Node)
    requires RotationSite(g, x) && Linked(g, n) && (n == g.root || Linked(g, g.cells[n].parent))
    requires n != x && n != g.cells[x].right && n != g.cells[x].parent && n != g.cells[g.cells[x].right].left
    ensures Linked(RotateLeft(g, x), n)
  {
    SiteApart(g, x);
  }

  lemma RotateLeftOk(g: Graph, x: Node)
    requires Shape(g) && x in g.cells && g.cells[x].right in g.cells
    ensures Shape(RotateLeft(g, x))
  {
    assert RotationSite(g, x) by {
      assert Linked(g, x) && Linked(g, g.cells[x].right);
      assert x == g.root || Linked(g, g.cells[x].parent);
      assert g.cells[g.cells[x].right].left == g.nil || Linked(g, g.cells[g.cells[x].right].left);
    }
    hide Linked, RotationSite;
    LinksAfter(g, x);
    OrderAfter(g, x);
  }

  lemma LinksAfter(g: Graph, x: Node)
    requires AllLinked(g) && RotationSite(g, x)
    ensures AllLinked(RotateLeft(g, x))
  {
    hide RotateLeft;
    forall n | n in g.cells ensures Linked(RotateLeft(g, x), n) {
      assert Linked(g, n) && (n == g.root || Linked(g, g.cells[n].parent));
      if n == x {
        TurnedX(g, x);
      } else if n == g.cells[x].right {
        TurnedY(g, x);
      } else if n == g.cells[x].parent {
        TurnedP(g, x);
      } else if n == g.cells[g.cells[x].right].left {
        TurnedB(g, x);
      } else {
        TurnedElsewhere(g, x, n);
      }
    }
    SameNodes(g, x);
  }

  lemma SameNodes(g: Graph, x: Node)
    requires x in g.cells && g.cells[x].right in g.cells
    ensures RotateLeft(g, x).cells.Keys == g.cells.Keys && RotateLeft(g, x).nil == g.nil
            && RotateLeft(g, x).order == g.order
    ensures forall n :: n in g.cells ==> RotateLeft(g, x).cells[n] == TurnedCell(g, x, n)
  {
  }

  lemma OrderAfter(g: Graph, x: Node)
    requires Ordered(g) && RootOk(g) && RotationSite(g, x)
    ensures Ordered(RotateLeft(g, x)) && RootOk(RotateLeft(g, x))
  {
    SiteApart(g, x);
    SameNodes(g, x);
  }

  // --------------------------------------------------------------------- mirror

  function MirrorCell(c: Cell, size: nat): Cell {
    c.(left := c.right, right := c.left, pos := size - 1 - c.pos, lo := size - c.hi, hi := size - c.lo)
  }

  function Reverse(s: seq<Node>): (r: seq<Node>)
    ensures |r| == |s|
    ensures forall i :: 0 <= i < |s| ==> r[i] == s[|s| - 1 - i]
  {
    seq(|s|, i requires 0 <= i < |s| => s[|s| - 1 - i])
  }

  /** The same tree seen from behind. */
  function Mirror(g: Graph): (m: Graph)
    ensures m.cells.Keys == g.cells.Keys && m.nil == g.nil && m.root == g.root && |m.order| == |g.order|
    ensures forall n :: n in g.cells ==> m.cells[n] == MirrorCell(g.cells[n], |g.order|)
  {
    g.(cells := map n | n in g.cells :: MirrorCell(g.cells[n], |g.order|), order := Reverse(g.order))
  }

  lemma MirrorLinked(g: Graph, n: Node)
    requires g.nil !in g.cells && Linked(g, n)
    ensures Linked(Mirror(g), n)
  {
  }

  lemma MirrorShape(g: Graph)
    requires Shape(g)
    ensures Shape(Mirror(g))
  {
    hide Linked, Mirror;
    var m := Mirror(g);
    forall n | n in m.cells ensures Linked(m, n) {
      assert Linked(g, n);
      MirrorLinked(g, n);
    }
    hide Ordered;
    MirrorOrdered(g);
  }

  lemma MirrorOrdered(g: Graph)
    requires Ordered(g)
    ensures Ordered(Mirror(g))
  {
    var m := Mirror(g);
    forall i | 0 <= i < |m.order| ensures m.order[i] in m.cells && m.cells[m.order[i]].pos == i {
      assert m.order[i] == g.order[|g.order| - 1 - i];
    }
    forall n | n in m.cells ensures 0 <= m.cells[n].pos < |m.order| && m.order[m.cells[n].pos] == n {
      assert n in g.cells;
    }
  }

  /** The right rotation is the left rotation of the mirrored tree. */
  function RotateRight(g: Graph, y: Node): Graph
    requires y in g.cells && g.cells[y].left in g.cells
  {
    Mirror(RotateLeft(Mirror(g), y))
  }

  lemma RotateRightOk(g: Graph, y: Node)
    requires Shape(g) && y in g.cells && g.cells[y].left in g.cells
    ensures Shape(RotateRight(g, y))
  {
    hide Shape, RotateLeft;
    MirrorShape(g);
    RotateLeftOk(Mirror(g), y);
    MirrorShape(RotateLeft(Mirror(g), y));
  }

  // --------------------------------------------------------- colours and heights

  function ColorOf(g: Graph, n: Node): Color {
    if n in g.cells then g.cells[n].color else BLACK
  }

  function HeightOf(g: Graph, n: Node): int {
    if n in g.cells then g.cells[n].bh else 0
  }

  function Rank(c: Color): int {
    if c == BLACK then 1 else 0
  }

  /** Both subtrees have the same black height. */
  ghost predicate HeightOk(g: Graph, n: Node) {
    && n in g.cells
    && var c := g.cells[n];
       HeightOf(g, c.left) == HeightOf(g, c.right) >= 0 && c.bh == HeightOf(g, c.left) + Rank(c.color)
  }

  /** A red node has no red child, except possibly `z`. */
  ghost predicate RedOk(g: Graph, n: Node, z: Node) {
    && n in g.cells
    && var c := g.cells[n];
       c.color == RED ==> (c.left == z || ColorOf(g, c.left) == BLACK) && (c.right == z || ColorOf(g, c.right) == BLACK)
  }

  ghost predicate HeightsOk(g: Graph) {
    forall n {:trigger HeightOk(g, n)} :: n in g.cells ==> HeightOk(g, n)
  }

  ghost predicate RedsOk(g: Graph, z: Node) {
    forall n {:trigger RedOk(g, n, z)} :: n in g.cells ==> RedOk(g, n, z)
  }

  /** The red-black tree between operations. */
  ghost predicate Balanced(g: Graph) {
    Shape(g) && HeightsOk(g) && RedsOk(g, g.nil) && ColorOf(g, g.root) == BLACK
  }

  function Paint(g: Graph, n: Node, color: Color, bh: int): (r: Graph)
    requires n in g.cells
    ensures r.cells.Keys == g.cells.Keys
  {
    g.(cells := g.cells[n := g.cells[n].(color := color, bh := bh)])
  }

  lemma PaintShape(g: Graph, n: Node, color: Color, bh: int)
    requires Shape(g) && n in g.cells
    ensures Shape(Paint(g, n, color, bh))
  {
    hide Linked, Ordered;
    forall m | m in g.cells ensures Linked(Paint(g, n, color, bh), m) {
      assert Linked(g, m);
      PaintLinked(g, n, color, bh, m);
    }
    PaintOrdered(g, n, color, bh);
  }

  lemma PaintOrdered(g: Graph, n: Node, color: Color, bh: int)
    requires Ordered(g) && n in g.cells
    ensures Ordered(Paint(g, n, color, bh))
  {
  }

  lemma PaintLinked(g: Graph, n: Node, color: Color, bh: int, m: Node)
    requires Linked(g, m) && n in g.cells
    ensures Linked(Paint(g, n, color, bh), m)
  {
  }

  lemma MirrorPaintOrder(g: Graph, n: Node, color: Color, bh: int)
    requires n in g.cells
    ensures Mirror(Paint(g, n, color, bh)).order == Paint(Mirror(g), n, color, bh).order
  {
  }

  lemma PaintMirror(g: Graph, n: Node, color: Color, bh: int)
    requires n in g.cells
    ensures Mirror(Paint(g, n, color, bh)) == Paint(Mirror(g), n, color, bh)
  {
    var a, b := Mirror(Paint(g, n, color, bh)), Paint(Mirror(g), n, color, bh);
    hide Mirror, Reverse;
    forall m | m in g.cells ensures a.cells[m] == b.cells[m] {
    }
    assert a.cells == b.cells;
    assert a.order == b.order by { MirrorPaintOrder(g, n, color, bh); }
  }

  lemma MirrorColors(g: Graph, n: Node, z: Node)
    ensures HeightOk(g, n) ==> HeightOk(Mirror(g), n)
    ensures RedOk(g, n, z) ==> RedOk(Mirror(g), n, z)
    ensures ColorOf(Mirror(g), n) == ColorOf(g, n)
  {
  }

  lemma MirrorBalance(g: Graph, z: Node)
    ensures HeightsOk(g) ==> HeightsOk(Mirror(g))
    ensures RedsOk(g, z) ==> RedsOk(Mirror(g), z)
    ensures ColorOf(Mirror(g), g.root) == ColorOf(g, g.root)
  {
    var m := Mirror(g);
    forall n | n in m.cells ensures HeightsOk(g) ==> HeightOk(m, n) {
      MirrorColors(g, n, z);
    }
    forall n | n in m.cells ensures RedsOk(g, z) ==> RedOk(m, n, z) {
      MirrorColors(g, n, z);
    }
  }

  // ------------------------------------------------- rotations and colours together

  /** The children of a node after a left rotation at `x`. */
  lemma TurnedChildren(g: Graph, x: Node, n: Node)
    requires x in g.cells && g.cells[x].right in g.cells && n in g.cells
    ensures var r, y, p := RotateLeft(g, x), g.cells[x].right, g.cells[x].parent;
            && n in r.cells
            && r.cells[n].left == (if n == x then g.cells[n].left else if n == y then x
                                   else if n == p && g.cells[n].left == x then y else g.cells[n].left)
            && r.cells[n].right == (if n == x then g.cells[y].left else if n == y then g.cells[n].right
                                    else if n == p && g.cells[n].left != x then y else g.cells[n].right)
  {
  }

  /** A rotation changes no colour and no recorded height. */
  lemma TurnedColors(g: Graph, x: Node)
    requires x in g.cells && g.cells[x].right in g.cells
    ensures forall m {:trigger ColorOf(RotateLeft(g, x), m)} :: ColorOf(RotateLeft(g, x), m) == ColorOf(g, m)
    ensures forall m {:trigger HeightOf(RotateLeft(g, x), m)} :: HeightOf(RotateLeft(g, x), m) == HeightOf(g, m)
  {
  }

  lemma PaintedColors(g: Graph, n: Node, color: Color, bh: int)
    requires n in g.cells
    ensures forall m {:trigger ColorOf(Paint(g, n, color, bh), m)} ::
              ColorOf(Paint(g, n, color, bh), m) == if m == n then color else ColorOf(g, m)
    ensures forall m {:trigger HeightOf(Paint(g, n, color, bh), m)} ::
              HeightOf(Paint(g, n, color, bh), m) == if m == n then bh else HeightOf(g, m)
    ensures forall m {:trigger Paint(g, n, color, bh).cells[m]} :: m in g.cells ==>
              && Paint(g, n, color, bh).cells[m].left == g.cells[m].left
              && Paint(g, n, color, bh).cells[m].right == g.cells[m].right
              && Paint(g, n, color, bh).cells[m].parent == g.cells[m].parent
  {
  }

  /** Colours and heights in terms of the lookup functions alone. */
  lemma ByColors(g: Graph, n: Node, z: Node)
    requires n in g.cells
    ensures HeightOk(g, n) <==>
            (var c := g.cells[n];
             HeightOf(g, c.left) == HeightOf(g, c.right) >= 0
             && HeightOf(g, n) == HeightOf(g, c.left) + Rank(ColorOf(g, n)))
    ensures RedOk(g, n, z) <==>
            (var c := g.cells[n];
             ColorOf(g, n) == RED ==>
               (c.left == z || ColorOf(g, c.left) == BLACK) && (c.right == z || ColorOf(g, c.right) == BLACK))
  {
  }
}
