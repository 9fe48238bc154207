/** An insertion-ordered dictionary as a sequence of entries with distinct keys, oldest first. */
module OrderedDict {
  import opened Wrappers

  datatype Item<K, V> = Item(key: K, value: V)

  ghost predicate DistinctKeys<K(!new), V(!new)>(d: seq<Item<K, V>>) {
    forall i, j :: 0 <= i < j < |d| ==> d[i].key != d[j].key
  }

  function IndexOf<K(==,!new), V(!new)>(d: seq<Item<K, V>>, k: K): (i: int)
    ensures -1 <= i < |d|
    ensures i >= 0 ==> d[i].key == k
    ensures i < 0 ==> forall j :: 0 <= j < |d| ==> d[j].key != k
  {
    if d == [] then -1
    else if d[|d| - 1].key == k then |d| - 1
    else IndexOf(d[..|d| - 1], k)
  }

  predicate Has<K(==,!new), V(!new)>(d: seq<Item<K, V>>, k: K) {
    IndexOf(d, k) >= 0
  }

  function Get<K(==,!new), V(!new)>(d: seq<Item<K, V>>, k: K): Option<V> {
    var i := IndexOf(d, k);
    if i < 0 then None else Some(d[i].value)
  }

  function Without<K(==,!new), V(!new)>(d: seq<Item<K, V>>, k: K): seq<Item<K, V>> {
    var i := IndexOf(d, k);
    if i < 0 then d else d[..i] + d[i + 1..]
  }

  /** `d[k] = v; d.move_to_end(k)`. */
  function PutLast<K(==,!new), V(!new)>(d: seq<Item<K, V>>, k: K, v: V): seq<Item<K, V>> {
    Without(d, k) + [Item(k, v)]
  }

  /** `d.move_to_end(k)` for a key that is held. */
  function Touch<K(==,!new), V(!new)>(d: seq<Item<K, V>>, k: K): seq<Item<K, V>> {
    var i := IndexOf(d, k);
    if i < 0 then d else Without(d, k) + [d[i]]
  }

  /** Pops the oldest entries until at most `limit` are left. */
  function Newest<K(!new), V(!new)>(d: seq<Item<K, V>>, limit: nat): seq<Item<K, V>> {
    if |d| <= limit then d else d[|d| - limit..]
  }

  lemma OldestPopped<K(!new), V(!new)>(d: seq<Item<K, V>>, limit: nat)
    requires |d| > limit
    ensures Newest(d[1..], limit) == Newest(d, limit)
  {
  }

  method Trim<K(!new), V(!new)>(d: seq<Item<K, V>>, limit: nat) returns (r: seq<Item<K, V>>)
    ensures r == Newest(d, limit)
  {
    r := d;
    while |r| > limit
      invariant Newest(r, limit) == Newest(d, limit)
    {
      hide Newest;
      OldestPopped(r, limit);
      r := r[1..];
    }
  }

  function Keep<K(!new), V(!new)>(d: seq<Item<K, V>>, keep: K -> bool): (r: seq<Item<K, V>>)
    ensures forall x :: x in r <==> x in d && keep(x.key)
  {
    if d == [] then []
    else
      var rest := Keep(d[..|d| - 1], keep);
      assert d == d[..|d| - 1] + [d[|d| - 1]];
      if keep(d[|d| - 1].key) then rest + [d[|d| - 1]] else rest
  }

  lemma {:induction false} KeepDistinct<K(!new), V(!new)>(d: seq<Item<K, V>>, keep: K -> bool)
    requires DistinctKeys(d)
    ensures DistinctKeys(Keep(d, keep)) && |Keep(d, keep)| <= |d|
  {
    if d != [] {
      var n := |d| - 1;
      KeepDistinct(d[..n], keep);
      forall i | 0 <= i < |Keep(d[..n], keep)| ensures Keep(d[..n], keep)[i].key != d[n].key {
        assert Keep(d[..n], keep)[i] in d[..n];
      }
    }
  }

  lemma WithoutFacts<K(!new), V(!new)>(d: seq<Item<K, V>>, k: K)
    requires DistinctKeys(d)
    ensures DistinctKeys(Without(d, k)) && !Has(Without(d, k), k)
    ensures forall x :: x in Without(d, k) <==> x in d && x.key != k
    ensures |Without(d, k)| == |d| - (if Has(d, k) then 1 else 0)
  {
    var i := IndexOf(d, k);
    if i >= 0 {
      var w := Without(d, k);
      forall x | x in d && x.key != k ensures x in w {
        var j :| 0 <= j < |d| && d[j] == x;
        assert w[if j < i then j else j - 1] == x;
      }
    }
  }

  lemma PutLastFacts<K(!new), V(!new)>(d: seq<Item<K, V>>, k: K, v: V)
    requires DistinctKeys(d)
    ensures DistinctKeys(PutLast(d, k, v))
    ensures forall x :: x in PutLast(d, k, v) <==> x == Item(k, v) || (x in d && x.key != k)
    ensures |PutLast(d, k, v)| == |d| + (if Has(d, k) then 0 else 1)
  {
    WithoutFacts(d, k);
  }

  lemma TouchFacts<K(!new), V(!new)>(d: seq<Item<K, V>>, k: K)
    requires DistinctKeys(d)
    ensures DistinctKeys(Touch(d, k)) && |Touch(d, k)| == |d|
    ensures forall x :: x in Touch(d, k) <==> x in d
    ensures !Has(d, k) ==> Touch(d, k) == d
  {
    WithoutFacts(d, k);
    var i := IndexOf(d, k);
    if i >= 0 {
      forall x | x in d ensures x in Touch(d, k) {
        if x.key == k { var j :| 0 <= j < |d| && d[j] == x; }
      }
    }
  }

  lemma NewestFacts<K(!new), V(!new)>(d: seq<Item<K, V>>, limit: nat)
    requires DistinctKeys(d)
    ensures DistinctKeys(Newest(d, limit)) && |Newest(d, limit)| <= limit
    ensures forall x :: x in Newest(d, limit) ==> x in d
  {
  }

  /** Lookup is membership. */
  lemma GetIsMember<K(!new), V(!new)>(d: seq<Item<K, V>>, k: K, v: V)
    requires DistinctKeys(d)
    ensures Get(d, k) == Some(v) <==> Item(k, v) in d
    ensures Has(d, k) <==> Get(d, k).Some?
  {
    if Item(k, v) in d {
      var j :| 0 <= j < |d| && d[j] == Item(k, v);
    }
  }

  // ---- What is kept, in which order ----

  /** `r` are the entries of `d` at the positions `at`: exactly those whose key is kept, in their order. */
  ghost predicate KeptAt<K(!new), V(!new)>(d: seq<Item<K, V>>, r: seq<Item<K, V>>, keep: K -> bool, at: seq<int>) {
    && |at| == |r|
    && (forall k :: 0 <= k < |at| ==> 0 <= at[k] < |d| && r[k] == d[at[k]])
    && (forall j, k :: 0 <= j < k < |at| ==> at[j] < at[k])
    && forall i :: 0 <= i < |d| ==> (i in at <==> keep(d[i].key))
  }

  ghost predicate KeptInOrder<K(!new), V(!new)>(d: seq<Item<K, V>>, r: seq<Item<K, V>>, keep: K -> bool) {
    exists at :: KeptAt(d, r, keep, at)
  }

  lemma KeptOneMore<K(!new), V(!new)>(d: seq<Item<K, V>>, r: seq<Item<K, V>>, keep: K -> bool, at: seq<int>)
    requires d != [] && KeptAt(d[..|d| - 1], r, keep, at)
    ensures var n := |d| - 1;
            if keep(d[n].key) then KeptAt(d, r + [d[n]], keep, at + [n]) else KeptAt(d, r, keep, at)
  {
    var n := |d| - 1;
    assert forall i :: 0 <= i < n ==> d[..n][i] == d[i];
    assert n !in at;
    assert forall i :: i in at + [n] <==> i in at || i == n;
  }

  lemma {:induction false} KeepKeepsOrder<K(!new), V(!new)>(d: seq<Item<K, V>>, keep: K -> bool) returns (at: seq<int>)
    ensures KeptAt(d, Keep(d, keep), keep, at)
  {
    at := [];
    if d != [] {
      var n := |d| - 1;
      at := KeepKeepsOrder(d[..n], keep);
      KeptOneMore(d, Keep(d[..n], keep), keep, at);
      if keep(d[n].key) { at := at + [n]; }
    }
  }

  function AllBut(n: nat, i: nat): seq<int>
    requires i < n
  {
    seq(n - 1, k requires 0 <= k < n - 1 => if k < i then k else k + 1)
  }

  lemma AllButOne(n: nat, i: nat)
    requires i < n
    ensures forall j :: j in AllBut(n, i) <==> 0 <= j < n && j != i
  {
    forall j | 0 <= j < n && j != i ensures j in AllBut(n, i) {
      assert AllBut(n, i)[if j < i then j else j - 1] == j;
    }
  }

  lemma RemovedKeepsOrder<K(!new), V(!new)>(d: seq<Item<K, V>>, i: nat, keep: K -> bool)
    requires DistinctKeys(d) && i < |d| && forall k :: keep(k) <==> k != d[i].key
    ensures KeptAt(d, d[..i] + d[i + 1..], keep, AllBut(|d|, i))
  {
    AllButOne(|d|, i);
    forall j | 0 <= j < |d| ensures keep(d[j].key) <==> j != i {
      if j < i { assert d[j].key != d[i].key; } else if i < j { assert d[i].key != d[j].key; }
    }
    hide DistinctKeys;
  }

  /** What is left without a key are the other entries, in their order. */
  lemma WithoutKeepsOrder<K(!new), V(!new)>(d: seq<Item<K, V>>, key: K) returns (at: seq<int>)
    requires DistinctKeys(d)
    ensures KeptAt(d, Without(d, key), (k: K) => k != key, at)
  {
    var i := IndexOf(d, key);
    if i >= 0 {
      RemovedKeepsOrder(d, i, (k: K) => k != key);
      at := AllBut(|d|, i);
    } else {
      at := seq(|d|, k requires 0 <= k < |d| => k);
      forall j | 0 <= j < |d| ensures j in at { assert at[j] == j; }
    }
  }

  lemma KeptAlike<K(!new), V(!new)>(d: seq<Item<K, V>>, r: seq<Item<K, V>>, keep: K -> bool, also: K -> bool,
                                     at: seq<int>)
    requires KeptAt(d, r, keep, at) && forall k :: keep(k) == also(k)
    ensures KeptInOrder(d, r, also)
  {
    assert KeptAt(d, r, also, at);
  }

  /** Keeping twice keeps what both conditions allow. */
  lemma KeptTwice<K(!new), V(!new)>(d: seq<Item<K, V>>, m: seq<Item<K, V>>, r: seq<Item<K, V>>, keep: K -> bool,
                                     also: K -> bool, both: K -> bool, at: seq<int>, next: seq<int>)
    requires KeptAt(d, m, keep, at) && KeptAt(m, r, also, next) && forall k :: both(k) == (keep(k) && also(k))
    ensures KeptInOrder(d, r, both)
  {
    var all := seq(|next|, k requires 0 <= k < |next| => at[next[k]]);
    forall i | i in all ensures 0 <= i < |d| && both(d[i].key) {
      var k :| 0 <= k < |next| && all[k] == i;
      assert next[k] in next && at[next[k]] in at;
    }
    forall i | 0 <= i < |d| && both(d[i].key) ensures i in all {
      var j :| 0 <= j < |at| && at[j] == i;
      assert m[j] == d[i] && j in next;
      var k :| 0 <= k < |next| && next[k] == j;
      assert all[k] == i;
    }
    assert KeptAt(d, r, both, all);
  }

  /** The newest `limit` of the entries. */
  ghost predicate LastOf<K(!new), V(!new)>(d: seq<Item<K, V>>, r: seq<Item<K, V>>, limit: nat) {
    |r| == (if |d| < limit then |d| else limit) && r == d[|d| - |r|..]
  }

  lemma NewestAreLast<K(!new), V(!new)>(d: seq<Item<K, V>>, limit: nat)
    ensures LastOf(d, Newest(d, limit), limit)
  {
  }
}
