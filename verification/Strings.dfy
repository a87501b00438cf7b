/** The order of C strings, and strictly sorted key lists as finite maps. */
module Strings {
  import opened Bytes
  import opened Store

  /** `strcmp`: negative, zero or positive; bytes compare unsigned, a proper prefix is smaller. */
  function Compare(a: ByteString, b: ByteString): int {
    if a == [] && b == [] then 0
    else if a == [] then -1
    else if b == [] then 1
    else if a[0] != b[0] then a[0] - b[0]
    else Compare(a[1..], b[1..])
  }

  predicate Less(a: ByteString, b: ByteString) {
    Compare(a, b) < 0
  }

  lemma {:induction false} CompareEqual(a: ByteString, b: ByteString)
    ensures Compare(a, b) == 0 <==> a == b
  {
    if a != [] && b != [] && a[0] == b[0] {
      CompareEqual(a[1..], b[1..]);
      assert a == [a[0]] + a[1..] && b == [b[0]] + b[1..];
    }
  }

  lemma {:induction false} CompareFlip(a: ByteString, b: ByteString)
    ensures Compare(a, b) < 0 <==> Compare(b, a) > 0
  {
    if a != [] && b != [] && a[0] == b[0] {
      CompareFlip(a[1..], b[1..]);
    }
  }

  lemma {:induction false} LessTransitive(a: ByteString, b: ByteString, c: ByteString)
    requires Less(a, b) && Less(b, c)
    ensures Less(a, c)
  {
    if a != [] && b != [] && c != [] && a[0] == b[0] && b[0] == c[0] {
      LessTransitive(a[1..], b[1..], c[1..]);
    }
  }

  /** The two strings agree on their first `k` bytes; then `a` ends, or has the smaller byte. */
  predicate Precedes(a: ByteString, b: ByteString, k: nat) {
    && k <= |a| && k < |b| && (forall i :: 0 <= i < k ==> a[i] == b[i])
    && (k == |a| || a[k] < b[k])
  }

  /** The order is that of the first difference. */
  lemma {:induction false} LessExactly(a: ByteString, b: ByteString)
    ensures Less(a, b) <==> exists k: nat :: Precedes(a, b, k)
    decreases |a|
  {
    if a == [] || b == [] || a[0] != b[0] {
      if a == [] || b == [] || a[0] < b[0] {
        assert b != [] ==> Precedes(a, b, 0);
      }
    } else {
      LessExactly(a[1..], b[1..]);
      if k: nat :| Precedes(a[1..], b[1..], k) {
        assert forall i :: 0 < i <= k ==> a[i] == a[1..][i - 1] && b[i] == b[1..][i - 1];
        assert Precedes(a, b, k + 1);
      }
      if k: nat :| Precedes(a, b, k) {
        assert Precedes(a[1..], b[1..], k - 1);
      }
    }
  }

  ghost predicate Sorted(keys: seq<ByteString>) {
    forall i, j :: 0 <= i < j < |keys| ==> Less(keys[i], keys[j])
  }

  lemma SortedDistinct(keys: seq<ByteString>, i: nat, j: nat)
    requires Sorted(keys) && i < |keys| && j < |keys| && keys[i] == keys[j]
    ensures i == j
  {
    CompareEqual(keys[i], keys[j]);
  }

  /** Everything before `lo` is smaller than `key`, everything from `hi` on is larger. */
  ghost predicate Between(keys: seq<ByteString>, lo: int, hi: int, key: ByteString) {
    && 0 <= lo <= hi <= |keys|
    && (forall i :: 0 <= i < lo ==> Less(keys[i], key))
    && (forall i :: hi <= i < |keys| ==> Less(key, keys[i]))
  }

  lemma GoRight(keys: seq<ByteString>, lo: int, hi: int, key: ByteString, pos: int)
    requires Sorted(keys) && Between(keys, lo, hi, key) && lo <= pos < hi && Less(keys[pos], key)
    ensures Between(keys, pos + 1, hi, key)
  {
    hide Less;
    forall i | 0 <= i < pos ensures Less(keys[i], key) {
      LessTransitive(keys[i], keys[pos], key);
    }
  }

  lemma GoLeft(keys: seq<ByteString>, lo: int, hi: int, key: ByteString, pos: int)
    requires Sorted(keys) && Between(keys, lo, hi, key) && lo <= pos < hi && Less(key, keys[pos])
    ensures Between(keys, lo, pos, key)
  {
    hide Less;
    forall i | pos < i < |keys| ensures Less(key, keys[i]) {
      LessTransitive(key, keys[pos], keys[i]);
    }
  }

  /** An empty gap: the key is not there, and inserting it there keeps the order. */
  lemma InsertSorted(keys: seq<ByteString>, slot: int, key: ByteString)
    requires Sorted(keys) && Between(keys, slot, slot, key)
    ensures key !in keys
    ensures Sorted(keys[..slot] + [key] + keys[slot..])
  {
    forall i | 0 <= i < |keys| ensures keys[i] != key {
      CompareEqual(keys[i], key);
      CompareFlip(keys[i], key);
    }
    hide Less;
    var r := keys[..slot] + [key] + keys[slot..];
    forall i, j | 0 <= i < j < |r| ensures Less(r[i], r[j]) {
      var a := if i < slot then i else i - 1;
      var b := if j < slot then j else j - 1;
      if i != slot && j != slot {
        assert r[i] == keys[a] && r[j] == keys[b];
      }
    }
  }

  lemma RemoveSorted(keys: seq<ByteString>, slot: int)
    requires Sorted(keys) && 0 <= slot < |keys|
    ensures Sorted(keys[..slot] + keys[slot + 1..])
  {
    hide Less;
  }

  // ------------------------------------------------------------ lists as maps

  function IndexOf(keys: seq<ByteString>, key: ByteString): (i: nat)
    requires key in keys
    ensures i < |keys| && keys[i] == key
  {
    if keys[0] == key then 0 else IndexOf(keys[1..], key) + 1
  }

  /** The bindings of a sorted list of keys with their values. */
  /** How many of `total` bindings a visitor sees that refuses after `accepts` calls. */
  function Visits(total: nat, accepts: nat): (n: nat)
    ensures n <= total
  {
    if accepts < total then accepts + 1 else total
  }

  function Bindings(keys: seq<ByteString>, vals: seq<ByteString>): (t: Table)
    requires |keys| == |vals|
  {
    map k | k in keys :: vals[IndexOf(keys, k)]
  }

  lemma BindingsAt(keys: seq<ByteString>, vals: seq<ByteString>, i: nat)
    requires |keys| == |vals| && Sorted(keys) && i < |keys|
    ensures keys[i] in Bindings(keys, vals) && Bindings(keys, vals)[keys[i]] == vals[i]
  {
    SortedDistinct(keys, i, IndexOf(keys, keys[i]));
  }

  /** A map with exactly these bindings is `Bindings`. */
  lemma BindingsUnique(keys: seq<ByteString>, vals: seq<ByteString>, t: Table)
    requires |keys| == |vals| && Sorted(keys)
    requires forall k :: k in t ==> k in keys
    requires forall i :: 0 <= i < |keys| ==> keys[i] in t && t[keys[i]] == vals[i]
    ensures t == Bindings(keys, vals)
  {
    hide Sorted;
    var u := Bindings(keys, vals);
    forall k | k in t ensures k in u && u[k] == t[k] {
      var i := IndexOf(keys, k);
      BindingsAt(keys, vals, i);
    }
    assert forall k :: k in u ==> k in t;
  }

  lemma BindingsFacts(keys: seq<ByteString>, vals: seq<ByteString>)
    requires |keys| == |vals| && Sorted(keys)
    ensures forall k :: k in Bindings(keys, vals) <==> k in keys
    ensures forall i :: 0 <= i < |keys| ==> keys[i] in Bindings(keys, vals) && Bindings(keys, vals)[keys[i]] == vals[i]
  {
    hide Sorted;
    forall i | 0 <= i < |keys| ensures keys[i] in Bindings(keys, vals) && Bindings(keys, vals)[keys[i]] == vals[i] {
      BindingsAt(keys, vals, i);
    }
  }

  lemma BindingsInsert(keys: seq<ByteString>, vals: seq<ByteString>, slot: int, key: ByteString, value: ByteString)
    requires |keys| == |vals| && Sorted(keys) && Between(keys, slot, slot, key)
    ensures var ks, vs := keys[..slot] + [key] + keys[slot..], vals[..slot] + [value] + vals[slot..];
            Sorted(ks) && Bindings(ks, vs) == Bindings(keys, vals)[key := value]
  {
    InsertSorted(keys, slot, key);
    hide Sorted, Bindings, Less;
    var ks, vs := keys[..slot] + [key] + keys[slot..], vals[..slot] + [value] + vals[slot..];
    BindingsFacts(keys, vals);
    var u := Bindings(keys, vals)[key := value];
    forall k | k in u ensures k in ks {
      assert k == key || k in keys[..slot] || k in keys[slot..];
    }
    forall i | 0 <= i < |ks| ensures ks[i] in u && u[ks[i]] == vs[i] {
      if i != slot {
        var j := if i < slot then i else i - 1;
        assert ks[i] == keys[j] && vs[i] == vals[j];
      }
    }
    BindingsUnique(ks, vs, u);
  }

  lemma BindingsRemove(keys: seq<ByteString>, vals: seq<ByteString>, slot: int)
    requires |keys| == |vals| && Sorted(keys) && 0 <= slot < |keys|
    ensures var ks, vs := keys[..slot] + keys[slot + 1..], vals[..slot] + vals[slot + 1..];
            Sorted(ks) && Bindings(ks, vs) == Bindings(keys, vals) - {keys[slot]}
  {
    RemoveSorted(keys, slot);
    OthersDiffer(keys, slot);
    hide Sorted, Bindings, Less;
    var ks, vs := keys[..slot] + keys[slot + 1..], vals[..slot] + vals[slot + 1..];
    BindingsFacts(keys, vals);
    var u := Bindings(keys, vals) - {keys[slot]};
    forall k | k in u ensures k in ks {
      OtherKept(keys, slot, k);
    }
    forall i | 0 <= i < |ks| ensures ks[i] in u && u[ks[i]] == vs[i] {
      KeptAt(keys, slot, i);
      KeptAt(vals, slot, i);
    }
    BindingsUnique(ks, vs, u);
  }

  lemma OtherKept(keys: seq<ByteString>, slot: int, k: ByteString)
    requires 0 <= slot < |keys| && k in keys && k != keys[slot]
    ensures k in keys[..slot] + keys[slot + 1..]
  {
    assert keys == keys[..slot] + [keys[slot]] + keys[slot + 1..];
  }

  lemma KeptAt(s: seq<ByteString>, slot: int, i: int)
    requires 0 <= slot < |s| && 0 <= i < |s| - 1
    ensures (s[..slot] + s[slot + 1..])[i] == s[if i < slot then i else i + 1]
  {
  }

  lemma OthersDiffer(keys: seq<ByteString>, slot: int)
    requires Sorted(keys) && 0 <= slot < |keys|
    ensures forall i :: 0 <= i < |keys| && i != slot ==> keys[i] != keys[slot]
  {
    forall i | 0 <= i < |keys| && i != slot ensures keys[i] != keys[slot] {
      CompareEqual(keys[i], keys[slot]);
      CompareFlip(keys[i], keys[slot]);
      assert Less(keys[i], keys[slot]) || Less(keys[slot], keys[i]);
    }
  }

  lemma BindingsUpdate(keys: seq<ByteString>, vals: seq<ByteString>, slot: int, value: ByteString)
    requires |keys| == |vals| && Sorted(keys) && 0 <= slot < |keys|
    ensures Bindings(keys, vals[slot := value]) == Bindings(keys, vals)[keys[slot] := value]
  {
    OthersDiffer(keys, slot);
    hide Sorted, Bindings, Less;
    BindingsFacts(keys, vals);
    BindingsUnique(keys, vals[slot := value], Bindings(keys, vals)[keys[slot] := value]);
  }
}
