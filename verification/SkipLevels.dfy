/** The levels of a skip list as values: the nodes in key order behind the header, and on each
    level the next node that is tall enough. */
module SkipLevels {
  import opened Bytes
  import opened Store
  import opened Strings

  const MAX_LEVEL: nat := 6

  /** `kvs_skiplist_node_t`; a node of level `l` owns `l + 1` forward pointers. */
  class Node {
    const key: ByteString
    const forward: array<Node?>
    var value: ByteString

    /** `skiplist_create_node`. */
    constructor (level: nat, key: ByteString, value: ByteString)
      ensures this.key == key && this.value == value && fresh(forward) && forward.Length == level + 1
      ensures forall i :: 0 <= i <= level ==> forward[i] == null
    {
      this.key := key;
      this.value := value;
      forward := new Node?[level + 1](_ => null);
    }
  }

  predicate Tall(n: Node, level: nat) {
    level < n.forward.Length
  }

  /** The first position from `p` on whose node reaches `level`. */
  function Next(nodes: seq<Node>, p: nat, level: nat): (q: nat)
    requires p <= |nodes|
    ensures p <= q <= |nodes|
    ensures q < |nodes| ==> Tall(nodes[q], level)
    ensures forall r {:trigger nodes[r]} :: p <= r < q ==> !Tall(nodes[r], level)
    decreases |nodes| - p
  {
    if p == |nodes| || Tall(nodes[p], level) then p else Next(nodes, p + 1, level)
  }

  lemma NextIs(nodes: seq<Node>, p: nat, level: nat, q: nat)
    requires p <= q <= |nodes| && (q < |nodes| ==> Tall(nodes[q], level))
    requires forall r {:trigger nodes[r]} :: p <= r < q ==> !Tall(nodes[r], level)
    ensures Next(nodes, p, level) == q
  {
    var n := Next(nodes, p, level);
    assert n < |nodes| ==> Tall(nodes[n], level);
    assert q < |nodes| ==> Tall(nodes[q], level);
  }

  function NodeAt(nodes: seq<Node>, p: nat): Node? {
    if p < |nodes| then nodes[p] else null
  }

  function Inserted(nodes: seq<Node>, slot: nat, n: Node): seq<Node>
    requires slot <= |nodes|
  {
    nodes[..slot] + [n] + nodes[slot..]
  }

  /** How one more node moves the next positions. */
  lemma NextInserted(nodes: seq<Node>, slot: nat, n: Node, p: nat, level: nat)
    requires p <= slot <= |nodes|
    ensures var q, r := Next(nodes, p, level), Next(Inserted(nodes, slot, n), p, level);
            r == if q < slot then q else if Tall(n, level) then slot else q + 1
  {
    hide Tall;
    var more := Inserted(nodes, slot, n);
    var q := Next(nodes, p, level);
    var r := if q < slot then q else if Tall(n, level) then slot else q + 1;
    assert forall i {:trigger more[i]} :: 0 <= i < |more| ==>
             more[i] == if i < slot then nodes[i] else if i == slot then n else nodes[i - 1];
    NextIs(more, p, level, r);
  }

  lemma NextShifted(nodes: seq<Node>, slot: nat, n: Node, p: nat, level: nat)
    requires slot <= p <= |nodes|
    ensures Next(Inserted(nodes, slot, n), p + 1, level) == Next(nodes, p, level) + 1
  {
    hide Tall;
    var more := Inserted(nodes, slot, n);
    var q := Next(nodes, p, level);
    assert forall i {:trigger more[i]} :: slot < i < |more| ==> more[i] == nodes[i - 1];
    NextIs(more, p + 1, level, q + 1);
  }

  // ------------------------------------------------------------- levels on the heap

  function Arrays(nodes: seq<Node>): set<array<Node?>> {
    set n | n in nodes :: n.forward
  }

  /** On this level every tall node points to the next tall one. */
  ghost predicate LevelOk(nodes: seq<Node>, level: nat)
    reads Arrays(nodes)
  {
    forall p: nat {:trigger Tall(nodes[p], level)} :: p < |nodes| && Tall(nodes[p], level) ==>
      nodes[p].forward[level] == NodeAt(nodes, Next(nodes, p + 1, level))
  }

  predicate DistinctArrays(nodes: seq<Node>) {
    forall i, j :: 0 <= i < j < |nodes| ==> nodes[i].forward != nodes[j].forward
  }

  /** `u` is the last tall node before `slot`. */
  predicate Before(nodes: seq<Node>, u: nat, level: nat, slot: nat)
    requires slot <= |nodes|
  {
    u < slot && Tall(nodes[u], level) && Next(nodes, u + 1, level) >= slot
  }

  lemma BeforeUnique(nodes: seq<Node>, u: nat, v: nat, level: nat, slot: nat)
    requires slot <= |nodes| && Before(nodes, u, level, slot) && v < slot && Tall(nodes[v], level) && u != v
    ensures v < u && Next(nodes, v + 1, level) <= u
  {
    hide Tall;
    assert Tall(nodes[u], level) && Tall(nodes[v], level);
    assert v < u ==> Next(nodes, v + 1, level) <= u;
  }

  /** What each position points to once `n` is linked in behind position `u`. */
  lemma LinkedAt(nodes: seq<Node>, slot: nat, n: Node, level: nat, u: nat, p: nat)
    requires 0 < slot <= |nodes| && Tall(n, level) && Before(nodes, u, level, slot)
    requires p < |Inserted(nodes, slot, n)| && Tall(Inserted(nodes, slot, n)[p], level)
    ensures var more := Inserted(nodes, slot, n);
            var next := NodeAt(more, Next(more, p + 1, level));
            if p == slot then more[p] == n && next == NodeAt(nodes, Next(nodes, u + 1, level))
            else
              var q := if p < slot then p else p - 1;
              && more[p] == nodes[q] && Tall(nodes[q], level)
              && next == if q == u then n else NodeAt(nodes, Next(nodes, q + 1, level))
  {
    hide Next;
    var more := Inserted(nodes, slot, n);
    if p == slot {
      NextShifted(nodes, slot, n, slot, level);
      NextFrom(nodes, u + 1, slot, level);
    } else if p < slot {
      NextInserted(nodes, slot, n, p + 1, level);
      if p != u {
        BeforeUnique(nodes, u, p, level, slot);
      }
    } else {
      NextShifted(nodes, slot, n, p, level);
    }
  }

  lemma ArraysDiffer(nodes: seq<Node>, u: nat)
    requires DistinctArrays(nodes) && u < |nodes|
    ensures forall p {:trigger nodes[p]} :: 0 <= p < |nodes| && p != u ==> nodes[p].forward != nodes[u].forward
  {
  }

  /** Linking a new node in on one level. */
  method LinkLevel(ghost nodes: seq<Node>, ghost slot: nat, n: Node, prev: Node, level: nat, ghost u: nat)
    requires 0 < slot <= |nodes| && DistinctArrays(nodes) && n.forward !in Arrays(nodes)
    requires Tall(n, level) && LevelOk(nodes, level) && Before(nodes, u, level, slot) && nodes[u] == prev
    modifies n.forward, prev.forward
    ensures LevelOk(Inserted(nodes, slot, n), level)
    ensures n.forward[..] == old(n.forward[..])[level := old(prev.forward[level])]
    ensures prev.forward[..] == old(prev.forward[..])[level := n]
    ensures forall j: nat {:trigger LevelOk(nodes, j)} :: j != level && old(LevelOk(nodes, j)) ==> LevelOk(nodes, j)
    ensures forall j: nat {:trigger LevelOk(Inserted(nodes, slot, n), j)} ::
              j != level && old(LevelOk(Inserted(nodes, slot, n), j)) ==> LevelOk(Inserted(nodes, slot, n), j)
  {
    hide Next, Inserted;
    assert prev.forward in Arrays(nodes);
    n.forward[level] := prev.forward[level];
    prev.forward[level] := n;
    ghost var more := Inserted(nodes, slot, n);
    ArraysDiffer(nodes, u);
    forall p: nat | p < |more| && Tall(more[p], level)
      ensures more[p].forward[level] == NodeAt(more, Next(more, p + 1, level))
    {
      LinkedAt(nodes, slot, n, level, u, p);
      assert p > slot ==> nodes[p - 1].forward in Arrays(nodes);
      assert p < slot ==> nodes[p].forward in Arrays(nodes);
    }
  }

  lemma NextFrom(nodes: seq<Node>, p: nat, slot: nat, level: nat)
    requires p <= slot <= |nodes| && Next(nodes, p, level) >= slot
    ensures Next(nodes, slot, level) == Next(nodes, p, level)
  {
    hide Tall;
    NextIs(nodes, slot, level, Next(nodes, p, level));
  }

  /** Where the nodes and their successors on a level are after an insertion they do not see. */
  lemma ShortPlace(nodes: seq<Node>, slot: nat, n: Node, level: nat, p: nat)
    requires 0 < slot <= |nodes| && !Tall(n, level) && p < |nodes|
    ensures var more := Inserted(nodes, slot, n);
            var q := if p < slot then p else p + 1;
            q < |more| && more[q] == nodes[p]
            && NodeAt(nodes, Next(nodes, p + 1, level)) == NodeAt(more, Next(more, q + 1, level))
  {
    hide Next;
    if p < slot {
      NextInserted(nodes, slot, n, p + 1, level);
    } else {
      NextShifted(nodes, slot, n, p + 1, level);
    }
  }

  lemma ShortNodeStays(nodes: seq<Node>, slot: nat, n: Node, level: nat)
    requires 0 < slot <= |nodes| && !Tall(n, level) && LevelOk(nodes, level)
    ensures LevelOk(Inserted(nodes, slot, n), level)
  {
    hide Next, Inserted, NodeAt;
    var more := Inserted(nodes, slot, n);
    forall q: nat | q < |more| && Tall(more[q], level)
      ensures more[q].forward[level] == NodeAt(more, Next(more, q + 1, level)) {
      TallIsOld(nodes, slot, n, level, q);
      ShortPlace(nodes, slot, n, level, if q < slot then q else q - 1);
    }
  }

  lemma TallIsOld(nodes: seq<Node>, slot: nat, n: Node, level: nat, q: nat)
    requires slot <= |nodes| && !Tall(n, level)
    ensures |Inserted(nodes, slot, n)| == |nodes| + 1
    ensures q <= |nodes| && Tall(Inserted(nodes, slot, n)[q], level) ==> q != slot
  {
  }

  lemma ShortNodeGoes(nodes: seq<Node>, slot: nat, n: Node, level: nat)
    requires 0 < slot <= |nodes| && !Tall(n, level) && LevelOk(Inserted(nodes, slot, n), level)
    ensures LevelOk(nodes, level)
  {
    hide Next, Inserted;
    forall p: nat | p < |nodes| && Tall(nodes[p], level)
      ensures nodes[p].forward[level] == NodeAt(nodes, Next(nodes, p + 1, level)) {
      ShortPlace(nodes, slot, n, level, p);
    }
  }

  /** A node too short for a level does not matter there. */
  lemma ShortNode(nodes: seq<Node>, slot: nat, n: Node, level: nat)
    requires 0 < slot <= |nodes| && !Tall(n, level)
    ensures LevelOk(nodes, level) <==> LevelOk(Inserted(nodes, slot, n), level)
  {
    hide LevelOk;
    if LevelOk(nodes, level) {
      ShortNodeStays(nodes, slot, n, level);
    }
    if LevelOk(Inserted(nodes, slot, n), level) {
      ShortNodeGoes(nodes, slot, n, level);
    }
  }

  /** Taking a node out on one level. */
  method UnlinkLevel(ghost nodes: seq<Node>, ghost slot: nat, n: Node, prev: Node, level: nat, ghost u: nat)
    requires 0 < slot <= |nodes| && DistinctArrays(nodes) && n.forward !in Arrays(nodes)
    requires Tall(n, level) && LevelOk(Inserted(nodes, slot, n), level) && Before(nodes, u, level, slot)
             && nodes[u] == prev
    modifies prev.forward
    ensures LevelOk(nodes, level)
    ensures prev.forward[..] == old(prev.forward[..])[level := n.forward[level]]
    ensures forall j: nat {:trigger LevelOk(nodes, j)} :: j != level && old(LevelOk(nodes, j)) ==> LevelOk(nodes, j)
    ensures forall j: nat {:trigger LevelOk(Inserted(nodes, slot, n), j)} ::
              j != level && old(LevelOk(Inserted(nodes, slot, n), j)) ==> LevelOk(Inserted(nodes, slot, n), j)
  {
    hide Next, Inserted;
    assert prev.forward in Arrays(nodes);
    ghost var more := Inserted(nodes, slot, n);
    prev.forward[level] := n.forward[level];
    ArraysDiffer(nodes, u);
    forall p: nat | p < |nodes| && Tall(nodes[p], level)
      ensures nodes[p].forward[level] == NodeAt(nodes, Next(nodes, p + 1, level))
    {
      UnlinkedAt(nodes, slot, n, level, u, p);
      assert nodes[p].forward in Arrays(nodes);
    }
  }

  lemma UnlinkedAt(nodes: seq<Node>, slot: nat, n: Node, level: nat, u: nat, p: nat)
    requires 0 < slot <= |nodes| && Tall(n, level) && Before(nodes, u, level, slot) && p < |nodes|
             && Tall(nodes[p], level)
    ensures var more := Inserted(nodes, slot, n);
            var q := if p < slot then p else p + 1;
            && |more| == |nodes| + 1 && more[slot] == n && Tall(more[slot], level) && more[q] == nodes[p]
            && Tall(more[q], level)
            && NodeAt(nodes, Next(nodes, p + 1, level)) ==
               if p == u then NodeAt(more, Next(more, slot + 1, level)) else NodeAt(more, Next(more, q + 1, level))
  {
    hide Next, Inserted, Tall;
    InsertedAt(nodes, slot, n);
    LinkedAt(nodes, slot, n, level, u, slot);
    LinkedAt(nodes, slot, n, level, u, if p < slot then p else p + 1);
  }

  lemma InsertedAt(nodes: seq<Node>, slot: nat, n: Node)
    requires slot <= |nodes|
    ensures var more := Inserted(nodes, slot, n);
            && |more| == |nodes| + 1 && more[slot] == n
            && (forall p {:trigger nodes[p]} :: 0 <= p < |nodes| ==> more[if p < slot then p else p + 1] == nodes[p])
  {
  }

  // --------------------------------------------------------- what a level contains

  /** Walking one level from a position: the positions of its nodes, in order. */
  function Level(nodes: seq<Node>, p: nat, level: nat): seq<nat>
    requires p <= |nodes|
    decreases |nodes| - p
  {
    if p == |nodes| then []
    else if Tall(nodes[p], level) then [p] + Level(nodes, p + 1, level)
    else Level(nodes, p + 1, level)
  }

  predicate Increasing(ps: seq<nat>) {
    forall i, j :: 0 <= i < j < |ps| ==> ps[i] < ps[j]
  }

  /** A level is in strictly increasing order, holds exactly the nodes that reach it, and
      everything on it is also on the level below. */
  lemma {:induction false} LevelFacts(nodes: seq<Node>, p: nat, level: nat)
    requires p <= |nodes|
    ensures Increasing(Level(nodes, p, level))
    ensures forall r: nat :: r in Level(nodes, p, level) <==> p <= r < |nodes| && Tall(nodes[r], level)
    ensures level > 0 ==> forall r :: r in Level(nodes, p, level) ==> r in Level(nodes, p, level - 1)
    decreases |nodes| - p
  {
    hide Tall;
    LevelMember(nodes, p, level);
    if level > 0 {
      LevelMember(nodes, p, level - 1);
      TallerIsTall(nodes, level);
    }
    if p < |nodes| {
      LevelFacts(nodes, p + 1, level);
      var rest := Level(nodes, p + 1, level);
      forall j | 0 <= j < |rest| ensures rest[j] > p {
        assert rest[j] in rest;
      }
    }
  }

  lemma TallerIsTall(nodes: seq<Node>, level: nat)
    requires level > 0
    ensures forall r {:trigger nodes[r]} :: 0 <= r < |nodes| && Tall(nodes[r], level) ==> Tall(nodes[r], level - 1)
  {
  }

  lemma {:induction false} LevelMember(nodes: seq<Node>, p: nat, level: nat)
    requires p <= |nodes|
    ensures forall r: nat :: r in Level(nodes, p, level) <==> p <= r < |nodes| && Tall(nodes[r], level)
    decreases |nodes| - p
  {
    hide Tall;
    if p < |nodes| {
      LevelMember(nodes, p + 1, level);
    }
  }

  lemma {:induction false} LevelUnfolds(nodes: seq<Node>, p: nat, level: nat)
    requires p <= |nodes|
    ensures var q := Next(nodes, p, level);
            Level(nodes, p, level) == if q == |nodes| then [] else [q] + Level(nodes, q + 1, level)
    decreases |nodes| - p
  {
    hide Tall;
    if p < |nodes| && !Tall(nodes[p], level) {
      LevelUnfolds(nodes, p + 1, level);
    }
  }

  /** Behind every node of a level comes the next one of that level. */
  lemma {:induction false} LevelNext(nodes: seq<Node>, p: nat, level: nat, a: nat)
    requires p <= |nodes| && a < |Level(nodes, p, level)|
    ensures var l := Level(nodes, p, level);
            l[a] < |nodes| && Next(nodes, l[a] + 1, level) == if a + 1 < |l| then l[a + 1] else |nodes|
    decreases |nodes| - p
  {
    hide Tall;
    LevelUnfolds(nodes, p, level);
    var q := Next(nodes, p, level);
    LevelUnfolds(nodes, q + 1, level);
    if a > 0 {
      LevelNext(nodes, q + 1, level, a - 1);
    }
  }

  lemma LevelWalk(nodes: seq<Node>, level: nat)
    requires |nodes| > 0
    ensures var l := Level(nodes, 1, level);
            && (forall a {:trigger l[a]} :: 0 <= a < |l| ==> 1 <= l[a] < |nodes| && Tall(nodes[l[a]], level))
            && (forall a {:trigger l[a]} :: 0 <= a < |l| ==>
                Next(nodes, l[a] + 1, level) == if a + 1 < |l| then l[a + 1] else |nodes|)
            && Next(nodes, 1, level) == if l == [] then |nodes| else l[0]
  {
    hide Next, Level, Tall;
    var l := Level(nodes, 1, level);
    LevelFacts(nodes, 1, level);
    LevelUnfolds(nodes, 1, level);
    forall a | 0 <= a < |l| ensures 1 <= l[a] < |nodes| && Tall(nodes[l[a]], level) {
      assert l[a] in l;
    }
    forall a | 0 <= a < |l| ensures Next(nodes, l[a] + 1, level) == if a + 1 < |l| then l[a + 1] else |nodes| {
      LevelNext(nodes, 1, level, a);
    }
  }
}
