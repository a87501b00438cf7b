/** The skip list engine on the heap (src/engines/kvs_skiplist.c), for every outcome of the
    random level. */
module SkipList {
  import opened Bytes
  import opened Store
  import opened Strings
  import opened SkipLevels

  /** The first position from which on no key is smaller; the header is position 0. */
  function LowerBound(keys: seq<ByteString>, key: ByteString): (slot: nat)
    ensures 1 <= slot <= |keys| + 1
  {
    if keys == [] || !Less(keys[0], key) then 1 else 1 + LowerBound(keys[1..], key)
  }

  lemma {:induction false} LowerBoundSplits(keys: seq<ByteString>, key: ByteString)
    requires Sorted(keys)
    ensures forall q: nat {:trigger keys[q]} :: q < |keys| ==> (Less(keys[q], key) <==> q < LowerBound(keys, key) - 1)
  {
    hide Less;
    if keys != [] && Less(keys[0], key) {
      assert Sorted(keys[1..]);
      LowerBoundSplits(keys[1..], key);
      forall q: nat | q < |keys| ensures Less(keys[q], key) <==> q < LowerBound(keys, key) - 1 {
        assert q > 0 ==> keys[q] == keys[1..][q - 1];
      }
    } else {
      forall q: nat | q < |keys| ensures !Less(keys[q], key) {
        if q > 0 && Less(keys[q], key) {
          LessTransitive(keys[0], keys[q], key);
        }
      }
    }
  }

  /** The key at the lower bound, or a gap there. */
  lemma SlotGap(keys: seq<ByteString>, key: ByteString)
    requires Sorted(keys)
    ensures var s := LowerBound(keys, key) - 1;
            && (s < |keys| && keys[s] == key <==> key in keys)
            && (key !in keys ==> Between(keys, s, s, key))
  {
    hide Less;
    LowerBoundSplits(keys, key);
    var s := LowerBound(keys, key) - 1;
    CompareEqual(key, key);
    if key in keys {
      var i :| 0 <= i < |keys| && keys[i] == key;
      NotLess(key);
      InOrder(keys, s, i);
    } else {
      forall i | s <= i < |keys| ensures Less(key, keys[i]) {
        Either(keys[i], key);
      }
    }
  }

  lemma InOrder(keys: seq<ByteString>, i: nat, j: nat)
    requires Sorted(keys) && i < |keys| && j < |keys|
    ensures i < j ==> Less(keys[i], keys[j])
  {
  }

  lemma NotLess(key: ByteString)
    ensures !Less(key, key)
  {
    CompareEqual(key, key);
  }

  lemma Either(a: ByteString, b: ByteString)
    ensures a == b || Less(a, b) || Less(b, a)
  {
    CompareEqual(a, b);
    CompareFlip(a, b);
    CompareFlip(b, a);
  }

  /** The nodes behind the header hold the bindings in key order. */
  ghost predicate HeldBy(nodes: seq<Node>, keys: seq<ByteString>, vals: seq<ByteString>)
    reads nodes
  {
    && |keys| == |vals| && |nodes| == |keys| + 1
    && forall p: nat {:trigger keys[p]} :: p < |keys| ==> nodes[p + 1].key == keys[p] && nodes[p + 1].value == vals[p]
  }

  /** `level` is the highest level in use, or 0. */
  ghost predicate TopIs(nodes: seq<Node>, level: nat) {
    && level <= MAX_LEVEL
    && (forall p {:trigger nodes[p]} :: 1 <= p < |nodes| ==> nodes[p].forward.Length <= level + 1)
    && (level > 0 ==> exists p :: 1 <= p < |nodes| && Tall(nodes[p], level))
  }

  /** The header comes first and reaches every level; every node reaches level 0; no two
      nodes share their pointers. */
  ghost predicate Built(nodes: seq<Node>) {
    && |nodes| > 0 && nodes[0].forward.Length == MAX_LEVEL + 1
    && DistinctArrays(nodes)
    && (forall p {:trigger nodes[p]} :: 0 <= p < |nodes| ==> nodes[p].forward.Length > 0)
  }

  class SkipList {
    var level: nat
    var header: Node?
    ghost var nodes: seq<Node>
    ghost var keys: seq<ByteString>
    ghost var vals: seq<ByteString>
    ghost var arrays: set<array<Node?>>

    ghost predicate Held()
      reads this, nodes
    {
      HeldBy(nodes, keys, vals) && Sorted(keys)
    }

    ghost predicate TopLevel()
      reads this
    {
      TopIs(nodes, level)
    }

    ghost predicate Shape()
      reads this
    {
      Built(nodes) && header == nodes[0]
    }

    ghost predicate Linked()
      reads this, arrays
    {
      arrays == Arrays(nodes) &&
      forall i: nat {:trigger LevelOk(nodes, i)} :: i <= MAX_LEVEL ==> LevelOk(nodes, i)
    }

    ghost predicate Valid()
      reads this, nodes, arrays
    {
      Shape() && TopLevel() && Linked() && Held()
    }

    ghost function Contained(): Table
      requires |keys| == |vals|
      reads this
    {
      Bindings(keys, vals)
    }

    /** `kvs_skiplist_create`. */
    constructor ()
      ensures Valid() && fresh(nodes) && fresh(arrays) && keys == []
    {
      var head := new Node(MAX_LEVEL, [], []);
      header := head;
      level := 0;
      nodes := [head];
      arrays := {head.forward};
      keys, vals := [], [];
    }

    // -------------------------------------------------------------------- walking

    /** One step along a level stays within the forward array of the node it reaches. */
    lemma Step(p: nat, i: nat)
      requires Valid() && p < |nodes| && Tall(nodes[p], i) && i <= MAX_LEVEL
      ensures var q := Next(nodes, p + 1, i);
              && nodes[p].forward[i] == NodeAt(nodes, q)
              && (q < |nodes| ==> Tall(nodes[q], i) && nodes[q].key == keys[q - 1])
    {
      hide Next, Sorted, TopLevel, DistinctArrays;
      assert LevelOk(nodes, i);
      var q := Next(nodes, p + 1, i);
      assert q < |nodes| ==> nodes[q].key == keys[q - 1];
    }

    /** The inner loop of every search. */
    method Advance(start: Node, i: nat, key: ByteString, ghost from: nat) returns (current: Node, ghost p: nat)
      requires Valid() && i <= MAX_LEVEL && from < LowerBound(keys, key) && nodes[from] == start && Tall(start, i)
      ensures p < |nodes| && current == nodes[p] && from <= p && Before(nodes, p, i, LowerBound(keys, key))
    {
      hide Shape, TopLevel, Linked, Sorted, Next, Less, LowerBound;
      current, p := start, from;
      BoundFacts(key);
      Step(p, i);
      while current.forward[i] != null && Compare(current.forward[i].key, key) < 0
        invariant Valid() && p < |nodes| && current == nodes[p] && from <= p < LowerBound(keys, key) && Tall(current, i)
        invariant current.forward[i] == NodeAt(nodes, Next(nodes, p + 1, i))
        invariant Next(nodes, p + 1, i) < |nodes| ==>
                    nodes[Next(nodes, p + 1, i)].key == keys[Next(nodes, p + 1, i) - 1]
        decreases |nodes| - p
      {
        assert Next(nodes, p + 1, i) < |nodes|;
        p := Next(nodes, p + 1, i);
        current := current.forward[i];
        assert current == nodes[p] && Tall(nodes[p], i);
        LessIs(current.key, key);
        Step(p, i);
      }
      if current.forward[i] != null {
        LessIs(current.forward[i].key, key);
      }
    }

    lemma LessIs(a: ByteString, b: ByteString)
      ensures Less(a, b) <==> Compare(a, b) < 0
    {
    }

    lemma BoundFacts(key: ByteString)
      requires Valid()
      ensures 1 <= LowerBound(keys, key) <= |nodes| && |nodes| == |keys| + 1
      ensures forall q: nat {:trigger keys[q]} :: q < |keys| ==> (Less(keys[q], key) <==> q < LowerBound(keys, key) - 1)
    {
      LowerBoundSplits(keys, key);
    }

    lemma HeaderTall()
      requires Valid()
      ensures |nodes| > 0 && header == nodes[0] && Tall(nodes[0], MAX_LEVEL) && level <= MAX_LEVEL
    {
    }

    lemma LowerTall(n: Node, i: nat, j: nat)
      requires Tall(n, i) && j <= i
      ensures Tall(n, j)
    {
    }

    /** What `update` holds for one level: the last node before the slot that reaches it. */
    static ghost predicate Records(nodes: seq<Node>, update: array<Node>, us: seq<nat>, slot: nat, i: nat)
      requires slot <= |nodes|
      reads update
    {
      && i < |us| && i < update.Length
      && Before(nodes, us[i], i, slot) && update[i] == nodes[us[i]]
    }

    lemma Bottom(u: nat, slot: nat)
      requires Valid() && slot <= |nodes| && Before(nodes, u, 0, slot)
      ensures u + 1 == slot && nodes[u].forward[0] == NodeAt(nodes, slot)
    {
      hide Sorted, TopLevel, DistinctArrays;
      assert LevelOk(nodes, 0);
      assert u + 1 < |nodes| ==> Tall(nodes[u + 1], 0);
    }

    /** The searches of `kvs_skiplist_set` and `kvs_skiplist_del`: `update` and the first node
        whose key is not smaller. */
    method Descend(key: ByteString) returns (update: array<Node>, current: Node?, ghost us: seq<nat>)
      requires Valid()
      ensures fresh(update) && update.Length == MAX_LEVEL + 1 && |us| == level + 1
      ensures LowerBound(keys, key) <= |nodes| && current == NodeAt(nodes, LowerBound(keys, key))
      ensures forall i {:trigger Records(nodes, update, us, LowerBound(keys, key), i)} :: 0 <= i <= level ==>
                Records(nodes, update, us, LowerBound(keys, key), i)
    {
      hide Shape, TopLevel, Linked, Sorted, Next, Less, LowerBound, Before;
      HeaderTall();
      BoundFacts(key);
      ghost var slot := LowerBound(keys, key);
      var node: Node := header;
      update := new Node[MAX_LEVEL + 1](_ => node);
      us := seq(level + 1, _ => 0);
      ghost var p: nat := 0;
      LowerTall(node, MAX_LEVEL, level);
      for i := level + 1 downto 0
        invariant Valid() && p < slot && node == nodes[p] && |us| == level + 1
        invariant i <= level ==> Tall(node, i)
        invariant i == level + 1 ==> Tall(node, level)
        invariant forall j {:trigger Records(nodes, update, us, slot, j)} :: i <= j <= level ==>
                    Records(nodes, update, us, slot, j)
        invariant i == 0 ==> update[0] == node && us[0] == p
      {
        if i < level {
          LowerTall(node, i + 1, i);
        }
        ghost var before := us;
        label L:
        node, p := Advance(node, i, key, p);
        BeforeParts(p, i, slot);
        update[i] := node;
        us := us[i := p];
        forall j | i <= j <= level ensures Records(nodes, update, us, slot, j) {
          assert j != i ==> old@L(Records(nodes, update, before, slot, j));
        }
      }
      assert Records(nodes, update, us, slot, 0);
      Bottom(us[0], slot);
      current := node.forward[0];
    }

    lemma BeforeParts(p: nat, i: nat, slot: nat)
      requires slot <= |nodes| && Before(nodes, p, i, slot)
      ensures p < slot && Tall(nodes[p], i)
    {
    }

    /** `skiplist_search_node`. */
    method SearchNode(key: ByteString) returns (current: Node?)
      requires Valid()
      ensures current == null <==> key !in keys
      ensures key in keys ==>
                LowerBound(keys, key) < |nodes| && current == nodes[LowerBound(keys, key)]
                && keys[LowerBound(keys, key) - 1] == key
    {
      hide Shape, TopLevel, Linked, Sorted, Next, Less, LowerBound, Before;
      HeaderTall();
      BoundFacts(key);
      ghost var slot := LowerBound(keys, key);
      var node: Node := header;
      ghost var p: nat := 0;
      LowerTall(node, MAX_LEVEL, level);
      for i := level + 1 downto 0
        invariant Valid() && p < slot && node == nodes[p]
        invariant i <= level ==> Tall(node, i) && Before(nodes, p, i, slot)
        invariant i == level + 1 ==> Tall(node, level)
      {
        if i < level {
          LowerTall(node, i + 1, i);
        }
        node, p := Advance(node, i, key, p);
        BeforeParts(p, i, slot);
      }
      Bottom(p, slot);
      current := node.forward[0];
      AtSlot(key);
      if current != null && Compare(current.key, key) == 0 { return; }
      current := null;
    }

    /** The key is stored exactly when the node at the slot carries it. */
    lemma AtSlot(key: ByteString)
      requires Valid()
      ensures var slot := LowerBound(keys, key);
              && slot <= |nodes| == |keys| + 1
              && (key in keys <==> slot < |nodes| && Compare(nodes[slot].key, key) == 0)
              && (slot < |nodes| ==> nodes[slot].key == keys[slot - 1])
              && (key in keys ==> keys[slot - 1] == key)
              && (key !in keys ==> Between(keys, slot - 1, slot - 1, key))
    {
      hide Shape, TopLevel, Linked, Sorted, Less, LowerBound;
      BoundFacts(key);
      SlotGap(keys, key);
      var slot := LowerBound(keys, key);
      if slot < |nodes| {
        assert nodes[slot - 1 + 1].key == keys[slot - 1];
        CompareEqual(nodes[slot].key, key);
      }
    }

    /** The pointers of one level link exactly the nodes that reach it, from the header to
        null. */
    lemma LevelIsLinked(i: nat)
      requires Valid() && i <= MAX_LEVEL
      ensures var l := Level(nodes, 1, i);
              && header != null && Tall(header, i) && (l != [] ==> l[0] < |nodes|)
              && header.forward[i] == (if l == [] then null else nodes[l[0]])
              && forall a: nat {:trigger LevelStep(l, a, i)} :: a < |l| ==> LevelStep(l, a, i)
    {
      hide Next, Less, TopLevel, DistinctArrays, Level, Held, LevelStep;
      LevelUnfolds(nodes, 1, i);
      assert LevelOk(nodes, i) && Tall(nodes[0], i);
      forall a: nat | a < |Level(nodes, 1, i)| ensures LevelStep(Level(nodes, 1, i), a, i) {
        OneStep(i, a);
      }
    }

    lemma OneStep(i: nat, a: nat)
      requires Valid() && i <= MAX_LEVEL && a < |Level(nodes, 1, i)|
      ensures LevelStep(Level(nodes, 1, i), a, i)
    {
      hide Next, Less, TopLevel, DistinctArrays, Level, Held, LevelOk;
      var l := Level(nodes, 1, i);
      LevelMember(nodes, 1, i);
      assert l[a] in l && (a + 1 < |l| ==> l[a + 1] in l);
      LevelNext(nodes, 1, i, a);
      Step(l[a], i);
    }

    ghost predicate LevelStep(l: seq<nat>, a: nat, i: nat)
      requires a < |l|
      reads this, arrays
    {
      && arrays == Arrays(nodes)
      && 1 <= l[a] < |nodes| && Tall(nodes[l[a]], i) && (a + 1 < |l| ==> l[a + 1] < |nodes|)
      && nodes[l[a]].forward[i] == if a + 1 < |l| then nodes[l[a + 1]] else null
    }

    /** Each level is strictly sorted and a sublist of the level below. */
    lemma LevelIsSortedSublist(i: nat)
      requires Valid() && i <= MAX_LEVEL
      ensures var l := Level(nodes, 1, i);
              && (forall a {:trigger l[a]} :: 0 <= a < |l| ==> 1 <= l[a] < |nodes|)
              && (forall a, b :: 0 <= a < b < |l| ==> l[a] < l[b] && Less(nodes[l[a]].key, nodes[l[b]].key))
              && (i > 0 ==> forall p :: p in l ==> p in Level(nodes, 1, i - 1))
    {
      hide Next, Less, TopLevel, Linked, Level, Held, Shape, Sorted;
      HeaderTall();
      var l := Level(nodes, 1, i);
      LevelWalk(nodes, i);
      LevelFacts(nodes, 1, i);
      forall a, b | 0 <= a < b < |l| ensures l[a] < l[b] && Less(nodes[l[a]].key, nodes[l[b]].key) {
        KeysOrdered(l[a], l[b]);
      }
    }

    lemma KeysOrdered(p: nat, q: nat)
      requires Valid() && 1 <= p < q < |nodes|
      ensures Less(nodes[p].key, nodes[q].key)
    {
      hide Less;
      assert nodes[p].key == keys[p - 1] && nodes[q].key == keys[q - 1];
    }

    // -------------------------------------------------------------------- reading

    /** `kvs_skiplist_get`. */
    method Get(key: ByteString) returns (value: Option<ByteString>)
      requires Valid()
      ensures |keys| == |vals| && value == if key in Contained() then Some(Contained()[key]) else None
    {
      hide Shape, TopLevel, Linked, Sorted, LowerBound, Bindings;
      BindingsFacts(keys, vals);
      var node := SearchNode(key);
      if node == null { return None; }
      ghost var q := LowerBound(keys, key) - 1;
      assert keys[q] == key && nodes[q + 1].value == vals[q];
      return Some(node.value);
    }

    /** `kvs_skiplist_exist`. */
    method Exist(key: ByteString) returns (code: int)
      requires Valid()
      ensures |keys| == |vals| && code == (if key in Contained() then 0 else 1)
      ensures EngineResult(Contained(), code) == RunExist(Contained(), key)
    {
      hide Shape, TopLevel, Linked, Sorted, LowerBound, Bindings;
      BindingsFacts(keys, vals);
      var node := SearchNode(key);
      return if node != null then 0 else 1;
    }

    /** `kvs_skiplist_foreach` over level 0, with a visitor that answers `accepts` calls before it
        refuses one: every binding once, in key order, up to that call. */
    method ForEach(accepts: nat) returns (result: int, ks: seq<ByteString>, vs: seq<ByteString>)
      requires Valid()
      ensures |keys| == |vals| && Sorted(keys) && Bindings(keys, vals) == Contained()
      ensures result == if accepts < |keys| then -1 else 0
      ensures ks == keys[..Visits(|keys|, accepts)] && vs == vals[..Visits(|keys|, accepts)]
    {
      hide TopLevel, Linked, Sorted, Next, Bindings;
      result, ks, vs := 0, [], [];
      ghost var p: nat := 0;
      AtBottom(0);
      var node := header.forward[0];
      while node != null
        invariant Valid() && p <= |keys| && node == NodeAt(nodes, p + 1) && ks == keys[..p] && vs == vals[..p]
                  && p <= accepts
        decreases |keys| - p
      {
        assert nodes[p + 1].key == keys[p];
        ks, vs := ks + [node.key], vs + [node.value];
        if |ks| > accepts { return -1, ks, vs; }
        p := p + 1;
        AtBottom(p);
        node := node.forward[0];
      }
    }

    lemma AtBottom(p: nat)
      requires Valid() && p < |nodes|
      ensures nodes[p].forward.Length > 0 && nodes[p].forward[0] == NodeAt(nodes, p + 1)
    {
      hide Sorted, TopLevel, DistinctArrays;
      assert LevelOk(nodes, 0) && Tall(nodes[p], 0);
      assert p + 1 < |nodes| ==> Tall(nodes[p + 1], 0);
    }

    // ------------------------------------------------------------------- updating

    /** Replacing the value of the node that carries the key. */
    method Overwrite(n: Node, value: ByteString, ghost q: nat)
      requires Valid() && q < |keys| && nodes[q + 1] == n
      modifies this`vals, n`value
      ensures Valid() && nodes == old(nodes) && keys == old(keys) && Contained() == old(Contained())[keys[q] := value]
    {
      hide Sorted, Bindings, Less, LowerBound, Next;
      BindingsUpdate(keys, vals, q, value);
      n.value := value;
      vals := vals[q := value];
      forall p: nat | p < |keys| ensures nodes[p + 1].key == keys[p] && nodes[p + 1].value == vals[p] {
        assert old(nodes[p + 1].key == keys[p] && nodes[p + 1].value == vals[p]);
        assert p != q ==> nodes[p + 1].forward != nodes[q + 1].forward;
      }
      forall i: nat | i <= MAX_LEVEL ensures LevelOk(nodes, i) {
        assert old(LevelOk(nodes, i));
      }
    }

    /** `kvs_skiplist_mod`. */
    method Mod(key: ByteString, value: ByteString) returns (code: int)
      requires Valid()
      modifies this`vals, nodes
      ensures Valid() && nodes == old(nodes)
      ensures code == (if key in old(Contained()) then 0 else 1)
      ensures Contained() == if key in old(Contained()) then old(Contained())[key := value] else old(Contained())
      ensures EngineResult(Contained(), code) == RunMod(old(Contained()), key, value)
    {
      hide Shape, TopLevel, Linked, Sorted, LowerBound, Bindings;
      BindingsFacts(keys, vals);
      var node := SearchNode(key);
      if node == null { return 1; }
      BoundFacts(key);
      Overwrite(node, value, LowerBound(keys, key) - 1);
      return 0;
    }

    /** `skiplist_random_level`: every level up to the maximum is possible. */
    static method RandomLevel() returns (l: nat)
      ensures l <= MAX_LEVEL
    {
      l := 0;
      var more: bool := *;
      while more && l < MAX_LEVEL
        invariant l <= MAX_LEVEL
        decreases MAX_LEVEL - l
      {
        l := l + 1;
        more := *;
      }
    }

    /** `update` completed for the levels that are new to the list: only the header reaches them. */
    method CompleteUpdate(update: array<Node>, ghost us: seq<nat>, ghost slot: nat, l: nat)
      returns (ghost all: seq<nat>)
      requires Valid() && 0 < slot <= |nodes| && l <= MAX_LEVEL && update.Length == MAX_LEVEL + 1 && |us| == level + 1
      requires forall i {:trigger Records(nodes, update, us, slot, i)} :: 0 <= i <= level ==>
                 Records(nodes, update, us, slot, i)
      modifies update
      ensures Valid() && |all| > l && forall i {:trigger Records(nodes, update, all, slot, i)} :: 0 <= i <= l ==>
                Records(nodes, update, all, slot, i)
    {
      hide Linked, Sorted, Next, Less, Held, Before;
      all := us;
      HeaderTall();
      if l > level {
        ghost var before := all;
        for i := level + 1 to l + 1
          invariant |all| == i && Valid() && nodes == old(nodes) && level == old(level) && header == old(header)
          invariant forall j {:trigger Records(nodes, update, all, slot, j)} :: 0 <= j < i ==>
                      Records(nodes, update, all, slot, j)
        {
          label L:
          ghost var less := all;
          update[i] := header;
          all := all + [0];
          OnlyHeader(i, slot);
          forall j | 0 <= j < i + 1 ensures Records(nodes, update, all, slot, j) {
            assert j != i ==> old@L(Records(nodes, update, less, slot, j));
          }
        }
      }
    }

    lemma OnlyHeader(i: nat, slot: nat)
      requires Valid() && 0 < slot <= |nodes| && level < i <= MAX_LEVEL
      ensures Before(nodes, 0, i, slot)
    {
      hide Linked, Sorted, Held;
      NextIs(nodes, 1, i, |nodes|);
    }

    /** All levels of the new node, bottom up. */
    method LinkAll(update: array<Node>, ghost us: seq<nat>, ghost slot: nat, n: Node, l: nat)
      requires 0 < slot <= |nodes| && DistinctArrays(nodes) && arrays == Arrays(nodes) && n.forward !in arrays
      requires l <= MAX_LEVEL && n.forward.Length == l + 1 && update.Length == MAX_LEVEL + 1 && |us| > l
      requires forall i: nat {:trigger LevelOk(nodes, i)} :: i <= MAX_LEVEL ==> LevelOk(nodes, i)
      requires forall i {:trigger Records(nodes, update, us, slot, i)} :: 0 <= i <= l ==>
                 Records(nodes, update, us, slot, i)
      modifies n.forward, arrays
      ensures forall i: nat {:trigger LevelOk(Inserted(nodes, slot, n), i)} :: i <= MAX_LEVEL ==>
                LevelOk(Inserted(nodes, slot, n), i)
    {
      hide Next, Inserted, LevelOk, Before, DistinctArrays;
      ghost var more := Inserted(nodes, slot, n);
      ghost var prevs := update[..];
      assert forall i: nat {:trigger us[i]} :: i <= l ==>
               us[i] < |nodes| && Before(nodes, us[i], i, slot) && prevs[i] == nodes[us[i]] by {
        forall i: nat | i <= l ensures us[i] < |nodes| && Before(nodes, us[i], i, slot) && prevs[i] == nodes[us[i]] {
          assert Records(nodes, update, us, slot, i);
          BeforeParts(us[i], i, slot);
        }
      }
      for i := 0 to l + 1
        invariant nodes == old(nodes) && update[..] == prevs
        invariant forall j: nat {:trigger LevelOk(more, j)} :: j < i ==> LevelOk(more, j)
        invariant forall j: nat {:trigger LevelOk(nodes, j)} :: i <= j <= MAX_LEVEL ==> LevelOk(nodes, j)
      {
        assert update[i] == prevs[i] && us[i] < |nodes|;
        assert update[i].forward in Arrays(nodes);
        LinkLevel(nodes, slot, n, update[i], i, us[i]);
      }
      forall i: nat | l < i <= MAX_LEVEL ensures LevelOk(more, i) {
        ShortNode(nodes, slot, n, i);
      }
    }

    lemma Sizes()
      requires Valid()
      ensures |keys| == |vals| && |nodes| == |keys| + 1 && arrays == Arrays(nodes) && DistinctArrays(nodes)
      ensures forall i: nat {:trigger LevelOk(nodes, i)} :: i <= MAX_LEVEL ==> LevelOk(nodes, i)
    {
    }

    /** The list with one more node, once it is linked in. */
    ghost method Adopt(n: Node, slot: nat)
      requires 0 < slot <= |nodes| && Built(nodes) && header == nodes[0] && HeldBy(nodes, keys, vals) && Sorted(keys)
               && arrays == Arrays(nodes)
      requires n.forward !in arrays && n.forward.Length > 0 && Between(keys, slot - 1, slot - 1, n.key)
      requires TopIs(Inserted(nodes, slot, n), level)
      requires forall i: nat {:trigger LevelOk(Inserted(nodes, slot, n), i)} :: i <= MAX_LEVEL ==>
                 LevelOk(Inserted(nodes, slot, n), i)
      modifies this`nodes, this`arrays, this`keys, this`vals
      ensures Valid() && nodes == Inserted(old(nodes), slot, n) && arrays == old(arrays) + {n.forward}
      ensures Contained() == old(Contained())[n.key := n.value]
    {
      hide Sorted, Next, Less, LevelOk, Inserted, Bindings, TopIs, Built, Between;
      InsertShape(nodes, slot, n);
      InsertHeld(nodes, keys, vals, slot, n);
      BindingsInsert(keys, vals, slot - 1, n.key, n.value);
      nodes := Inserted(nodes, slot, n);
      arrays := arrays + {n.forward};
      keys := keys[..slot - 1] + [n.key] + keys[slot - 1..];
      vals := vals[..slot - 1] + [n.value] + vals[slot - 1..];
    }

    /** Linking a node of any level in front of the slot. */
    method Insert(update: array<Node>, ghost us: seq<nat>, ghost slot: nat, n: Node, l: nat)
      requires Valid() && 0 < slot <= |nodes| && l <= MAX_LEVEL && n.forward.Length == l + 1 && n.forward !in arrays
      requires Between(keys, slot - 1, slot - 1, n.key) && update.Length == MAX_LEVEL + 1 && |us| == level + 1
      requires forall i {:trigger Records(nodes, update, us, slot, i)} :: 0 <= i <= level ==>
                 Records(nodes, update, us, slot, i)
      modifies this, update, n.forward, arrays
      ensures Valid() && nodes == Inserted(old(nodes), slot, n) && arrays == old(arrays) + {n.forward}
      ensures |keys| == |vals| && old(|keys| == |vals|) && Contained() == old(Contained())[n.key := n.value]
    {
      hide Sorted, Next, Less, LevelOk, Inserted, Bindings, TopIs, Built, Between, DistinctArrays, Records, HeldBy;
      Sizes();
      InsertTop(nodes, slot, n, level, l);
      ghost var all := CompleteUpdate(update, us, slot, l);
      Sizes();
      if l > level {
        level := l;
      }
      LinkAll(update, all, slot, n, l);
      Adopt(n, slot);
      Sizes();
    }

    /** `kvs_skiplist_set`. */
    method Set(key: ByteString, value: ByteString) returns (code: int)
      requires Valid()
      modifies this, nodes, arrays
      ensures Valid() && fresh(arrays - old(arrays)) && fresh((set n | n in nodes) - old(set n | n in nodes))
      ensures code == 0 && Contained() == old(Contained())[key := value]
      ensures EngineResult(Contained(), code) == RunSet(SkipEngine, old(Contained()), key, value)
    {
      hide Shape, TopLevel, Linked, Sorted, LowerBound, Bindings, Inserted, Records, Compare;
      var update, current;
      ghost var us;
      update, current, us := Descend(key);
      AtSlot(key);
      BindingsFacts(keys, vals);
      ghost var slot := LowerBound(keys, key);
      BoundFacts(key);
      if current == null || Compare(current.key, key) != 0 {
        var l := RandomLevel();
        var n := new Node(l, key, value);
        Insert(update, us, slot, n, l);
        InsertedMembers(old(nodes), slot, n);
        return 0;
      }
      Overwrite(current, value, slot - 1);
      return 0;
    }

    /** Taking the node at the slot out on every level it reaches, bottom up. */
    method UnlinkAll(update: array<Node>, ghost us: seq<nat>, ghost slot: nat, n: Node)
      requires Valid() && 0 < slot < |nodes| && n == nodes[slot] && update.Length == MAX_LEVEL + 1 && |us| == level + 1
      requires forall i {:trigger Records(nodes, update, us, slot, i)} :: 0 <= i <= level ==>
                 Records(nodes, update, us, slot, i)
      modifies arrays
      ensures var less := Removed(nodes, slot);
              forall i: nat {:trigger LevelOk(less, i)} :: i <= MAX_LEVEL ==> LevelOk(less, i)
    {
      hide Next, Inserted, LevelOk, Before, DistinctArrays, TopIs, HeldBy, Sorted, Removed, Built;
      ghost var less := Removed(nodes, slot);
      ghost var prevs := update[..];
      Sizes();
      RemovedShape(nodes, slot);
      TopLevels(slot);
      assert forall i: nat {:trigger us[i]} :: i <= level ==>
               us[i] < |nodes| && Before(nodes, us[i], i, slot) && prevs[i] == nodes[us[i]] by {
        forall i: nat | i <= level ensures us[i] < |nodes| && Before(nodes, us[i], i, slot)
               && prevs[i] == nodes[us[i]] {
          assert Records(nodes, update, us, slot, i);
          BeforeParts(us[i], i, slot);
        }
      }
      var i: nat := 0;
      while i <= level
        invariant i <= level + 1 && nodes == old(nodes) && update[..] == prevs
        invariant forall j: nat {:trigger LevelOk(less, j)} :: j < i ==> LevelOk(less, j)
        invariant forall j: nat {:trigger LevelOk(nodes, j)} :: i <= j <= MAX_LEVEL ==> LevelOk(nodes, j)
        invariant i > 0 ==> Tall(n, i - 1)
        decreases level + 1 - i
      {
        assert update[i] == prevs[i] && us[i] < |nodes|;
        ghost var u := us[i];
        ReachesIt(nodes, slot, u, i);
        if update[i].forward[i] != n { break; }
        RemovedBefore(nodes, slot, u, i);
        assert update[i].forward in Arrays(nodes);
        UnlinkLevel(less, slot, n, update[i], i, u);
        i := i + 1;
      }
      forall j: nat | i <= j <= MAX_LEVEL ensures LevelOk(less, j) {
        ShortNode(less, slot, n, j);
      }
    }

    lemma TopLevels(slot: nat)
      requires Valid() && 0 < slot < |nodes|
      ensures level <= MAX_LEVEL && nodes[slot].forward.Length <= level + 1
    {
    }

    /** `level` follows the highest level that still has a node. */
    method LowerLevel(ghost less: seq<Node>)
      requires Built(less) && header == less[0] && level <= MAX_LEVEL
      requires forall i: nat {:trigger LevelOk(less, i)} :: i <= MAX_LEVEL ==> LevelOk(less, i)
      requires forall p {:trigger less[p]} :: 1 <= p < |less| ==> less[p].forward.Length <= level + 1
      modifies this`level
      ensures TopIs(less, level)
    {
      hide LevelOk, Next;
      forall i: nat | i <= MAX_LEVEL ensures less[0].forward[i] == NodeAt(less, Next(less, 1, i)) {
        HeaderAt(less, i);
      }
      while level > 0 && header.forward[level] == null
        invariant level <= MAX_LEVEL && header == less[0]
        invariant forall p {:trigger less[p]} :: 1 <= p < |less| ==> less[p].forward.Length <= level + 1
        invariant forall i: nat {:trigger Next(less, 1, i)} :: i <= MAX_LEVEL ==>
                    header.forward[i] == NodeAt(less, Next(less, 1, i))
        decreases level
      {
        assert Next(less, 1, level) == |less|;
        level := level - 1;
      }
      assert Next(less, 1, level) < |less| || level == 0;
    }

    static lemma HeaderAt(less: seq<Node>, i: nat)
      requires Built(less) && i <= MAX_LEVEL && LevelOk(less, i)
      ensures less[0].forward[i] == NodeAt(less, Next(less, 1, i))
    {
      assert Tall(less[0], i);
    }

    /** The list with one node fewer, once it is unlinked. */
    ghost method Drop(slot: nat)
      requires 0 < slot < |nodes| && Built(nodes) && header == nodes[0] && HeldBy(nodes, keys, vals) && Sorted(keys)
      requires TopIs(Removed(nodes, slot), level)
      requires forall i: nat {:trigger LevelOk(Removed(nodes, slot), i)} :: i <= MAX_LEVEL ==>
                 LevelOk(Removed(nodes, slot), i)
      modifies this`nodes, this`arrays, this`keys, this`vals
      ensures Valid() && nodes == Removed(old(nodes), slot)
      ensures old(slot - 1 < |keys| == |vals|) && |keys| == |vals|
              && Contained() == old(Contained()) - {old(keys)[slot - 1]}
    {
      hide Sorted, Next, Less, LevelOk, Inserted, Bindings, TopIs, Built;
      RemovedShape(nodes, slot);
      BindingsRemove(keys, vals, slot - 1);
      ghost var less := Removed(nodes, slot);
      ghost var ks, vs := keys[..slot - 1] + keys[slot..], vals[..slot - 1] + vals[slot..];
      forall p: nat | p < |ks| ensures less[p + 1].key == ks[p] && less[p + 1].value == vs[p] {
        ghost var q := if p < slot - 1 then p else p + 1;
        assert ks[p] == keys[q] && vs[p] == vals[q] && less[p + 1] == nodes[q + 1];
      }
      nodes := less;
      arrays := Arrays(less);
      keys, vals := ks, vs;
    }

    /** `kvs_skiplist_del`. */
    method Del(key: ByteString) returns (code: int)
      requires Valid()
      modifies this, arrays
      ensures Valid() && arrays <= old(arrays)
      ensures code == (if key in old(Contained()) then 0 else 1) && Contained() == old(Contained()) - {key}
      ensures EngineResult(Contained(), code) == RunDel(SkipEngine, old(Contained()), key)
    {
      hide Shape, TopLevel, Linked, Sorted, LowerBound, Bindings, Removed, Records, Compare, TopIs;
      var update, current;
      ghost var us;
      update, current, us := Descend(key);
      AtSlot(key);
      BindingsFacts(keys, vals);
      ghost var slot := LowerBound(keys, key);
      BoundFacts(key);
      if current == null || Compare(current.key, key) != 0 { return 1; }
      RemoveNode(update, us, slot, current);
      return 0;
    }

    method RemoveNode(update: array<Node>, ghost us: seq<nat>, ghost slot: nat, n: Node)
      requires Valid() && 0 < slot < |nodes| && n == nodes[slot] && update.Length == MAX_LEVEL + 1 && |us| == level + 1
      requires forall i {:trigger Records(nodes, update, us, slot, i)} :: 0 <= i <= level ==>
                 Records(nodes, update, us, slot, i)
      modifies this, arrays
      ensures Valid() && nodes == Removed(old(nodes), slot) && arrays <= old(arrays)
      ensures old(slot - 1 < |keys| == |vals|) && |keys| == |vals|
              && Contained() == old(Contained()) - {old(keys)[slot - 1]}
    {
      hide Sorted, Next, Less, LevelOk, Removed, Bindings, TopIs, Built, DistinctArrays, Records, HeldBy, Inserted;
      Sizes();
      RemovedShape(nodes, slot);
      RemovedHeights(slot);
      HeaderTall();
      UnlinkAll(update, us, slot, n);
      LowerLevel(Removed(nodes, slot));
      Drop(slot);
      Sizes();
    }

    lemma RemovedHeights(slot: nat)
      requires Valid() && 0 < slot < |nodes|
      ensures var less := Removed(nodes, slot);
              forall p {:trigger less[p]} :: 1 <= p < |less| ==> less[p].forward.Length <= level + 1
    {
      var less := Removed(nodes, slot);
      assert forall p {:trigger less[p]} :: 0 <= p < |less| ==> less[p] == nodes[if p < slot then p else p + 1];
    }

    /** `kvs_skiplist_destory`: every node is given back exactly once, the header last. */
    method Destroy() returns (freed: seq<Node>)
      requires Valid()
      modifies this`header, this`level
      ensures header == null && level == 0 && freed == nodes[1..] + [nodes[0]]
      ensures forall i, j :: 0 <= i < j < |freed| ==> freed[i] != freed[j]
    {
      hide TopLevel, Linked, Sorted, Next, Bindings, DistinctArrays;
      freed := [];
      ghost var p: nat := 0;
      AtBottom(0);
      var current := header.forward[0];
      while current != null
        invariant Valid() && p <= |keys| && current == NodeAt(nodes, p + 1) && freed == nodes[1..p + 1]
        decreases |keys| - p
      {
        AtBottom(p + 1);
        var next := current.forward[0];
        freed := freed + [current];
        current := next;
        p := p + 1;
      }
      freed := freed + [header];
      NodesDiffer();
      header := null;
      level := 0;
    }

    lemma NodesDiffer()
      requires Valid()
      ensures |nodes| > 0
      ensures var all := nodes[1..] + [nodes[0]]; forall i, j :: 0 <= i < j < |all| ==> all[i] != all[j]
    {
      var all := nodes[1..] + [nodes[0]];
      forall i, j | 0 <= i < j < |all| ensures all[i] != all[j] {
        ArraysDiffer(nodes, i + 1);
        assert all[j] == nodes[if j + 1 < |nodes| then j + 1 else 0];
      }
    }
  }

  lemma InsertedMembers(nodes: seq<Node>, slot: nat, n: Node)
    requires slot <= |nodes|
    ensures forall m {:trigger m in nodes} {:trigger m in Inserted(nodes, slot, n)} ::
              m in Inserted(nodes, slot, n) <==> m in nodes || m == n
  {
    assert nodes == nodes[..slot] + nodes[slot..];
  }

  lemma InsertShape(nodes: seq<Node>, slot: nat, n: Node)
    requires 0 < slot <= |nodes| && Built(nodes) && n.forward !in Arrays(nodes) && n.forward.Length > 0
    ensures var more := Inserted(nodes, slot, n);
            && |more| == |nodes| + 1 && more[0] == nodes[0] && more[slot] == n && Built(more)
            && Arrays(more) == Arrays(nodes) + {n.forward}
  {
    var more := Inserted(nodes, slot, n);
    InsertedMembers(nodes, slot, n);
    assert forall p {:trigger more[p]} :: 0 <= p < |more| ==>
             more[p] == if p < slot then nodes[p] else if p == slot then n else nodes[p - 1];
    forall p {:trigger nodes[p]} | 0 <= p < |nodes| ensures nodes[p].forward != n.forward {
      assert nodes[p].forward in Arrays(nodes);
    }
    hide Inserted;
  }

  function Removed(nodes: seq<Node>, slot: nat): seq<Node>
    requires slot < |nodes|
  {
    nodes[..slot] + nodes[slot + 1..]
  }

  lemma RemovedShape(nodes: seq<Node>, slot: nat)
    requires 0 < slot < |nodes| && Built(nodes)
    ensures var less := Removed(nodes, slot);
            && |less| == |nodes| - 1 && Inserted(less, slot, nodes[slot]) == nodes && Built(less) && less[0] == nodes[0]
            && nodes[slot].forward !in Arrays(less) && Arrays(nodes) == Arrays(less) + {nodes[slot].forward}
  {
    var less := Removed(nodes, slot);
    assert forall p {:trigger less[p]} :: 0 <= p < |less| ==> less[p] == nodes[if p < slot then p else p + 1];
    assert Inserted(less, slot, nodes[slot]) == nodes;
    InsertedMembers(less, slot, nodes[slot]);
    forall m | m in less ensures m.forward != nodes[slot].forward {
      var p :| 0 <= p < |less| && less[p] == m;
      ArraysDiffer(nodes, slot);
    }
  }

  lemma RemovedBefore(nodes: seq<Node>, slot: nat, u: nat, i: nat)
    requires 0 < slot < |nodes| && Built(nodes) && Before(nodes, u, i, slot)
    ensures var less := Removed(nodes, slot); |less| == |nodes| - 1 && Before(less, u, i, slot) && less[u] == nodes[u]
  {
    hide Built, Inserted, Next;
    RemovedShape(nodes, slot);
    var less := Removed(nodes, slot);
    NextInserted(less, slot, nodes[slot], u + 1, i);
  }

  /** The node before the slot points to the node at the slot on exactly the levels that node
      reaches. */
  lemma ReachesIt(nodes: seq<Node>, slot: nat, u: nat, i: nat)
    requires 0 < slot < |nodes| && Built(nodes) && Before(nodes, u, i, slot) && LevelOk(nodes, i)
    ensures u < |nodes| && i < nodes[u].forward.Length && (nodes[u].forward[i] == nodes[slot] <==> Tall(nodes[slot], i))
  {
    hide Inserted;
    assert Tall(nodes[u], i);
    var q := Next(nodes, u + 1, i);
    assert nodes[u].forward[i] == NodeAt(nodes, q);
    ArraysDiffer(nodes, slot);
    assert q < |nodes| ==> Tall(nodes[q], i);
    assert q > slot ==> !Tall(nodes[slot], i);
  }

  lemma InsertTop(nodes: seq<Node>, slot: nat, n: Node, level: nat, l: nat)
    requires 0 < slot <= |nodes| && TopIs(nodes, level) && l <= MAX_LEVEL && n.forward.Length == l + 1
    ensures TopIs(Inserted(nodes, slot, n), if l > level then l else level)
  {
    var more := Inserted(nodes, slot, n);
    assert forall p {:trigger more[p]} :: 0 <= p < |more| ==>
             more[p] == if p < slot then nodes[p] else if p == slot then n else nodes[p - 1];
    if l >= level {
      assert Tall(more[slot], l);
    } else {
      var p :| 1 <= p < |nodes| && Tall(nodes[p], level);
      assert Tall(more[if p < slot then p else p + 1], level);
    }
  }

  lemma InsertHeld(nodes: seq<Node>, keys: seq<ByteString>, vals: seq<ByteString>, slot: nat, n: Node)
    requires 0 < slot <= |nodes| && HeldBy(nodes, keys, vals)
    ensures HeldBy(Inserted(nodes, slot, n), keys[..slot - 1] + [n.key] + keys[slot - 1..],
                   vals[..slot - 1] + [n.value] + vals[slot - 1..])
  {
    var more := Inserted(nodes, slot, n);
    var ks := keys[..slot - 1] + [n.key] + keys[slot - 1..];
    var vs := vals[..slot - 1] + [n.value] + vals[slot - 1..];
    forall p: nat | p < |ks| ensures more[p + 1].key == ks[p] && more[p + 1].value == vs[p] {
      if p != slot - 1 {
        var q := if p < slot - 1 then p else p - 1;
        assert ks[p] == keys[q] && vs[p] == vals[q] && more[p + 1] == nodes[q + 1];
      }
    }
  }
}
