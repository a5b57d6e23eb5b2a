/**
  A JavaScript `Map`: a finite map together with the insertion order of its
  keys. `set` on a present key replaces the value in place, `set` on a new key
  appends it, `delete` removes it, and iteration (`entries()`) follows the
  insertion order.
 */
module OrderedMap {
  import opened Wrappers

  datatype OMap<K, V> = OMap(order: seq<K>, vals: map<K, V>)

  /** No key occurs twice in `s`. */
  predicate Distinct<K(==)>(s: seq<K>) {
    s == [] || (s[0] !in s[1..] && Distinct(s[1..]))
  }

  /** Appending a fresh key keeps the keys distinct. */
  lemma {:induction false} DistinctSnoc<K>(s: seq<K>, k: K)
    ensures Distinct(s) && k !in s ==> Distinct(s + [k])
  {
    if s != [] && Distinct(s) && k !in s {
      assert (s + [k])[1..] == s[1..] + [k];
      DistinctSnoc(s[1..], k);
    }
  }

  /** The order lists every key of the map exactly once. */
  predicate Valid<K(!new), V>(m: OMap<K, V>) {
    && Distinct(m.order)
    && (forall k :: k in m.vals ==> k in m.order)
    && (forall k :: k in m.order ==> k in m.vals)
  }

  function Empty<K, V>(): OMap<K, V> {
    OMap([], map[])
  }

  /** A duplicate-free sequence has as many elements as distinct members. */
  lemma {:induction false} DistinctCard<K>(s: seq<K>)
    requires Distinct(s)
    ensures |set x | x in s| == |s|
  {
    if s != [] {
      DistinctCard(s[1..]);
      assert (set x | x in s) == (set x | x in s[1..]) + {s[0]};
    }
  }

  /** `Map.prototype.size`: the number of keys. */
  function Size<K(!new), V>(m: OMap<K, V>): (r: nat)
    ensures Valid(m) ==> r == |m.vals.Keys|
  {
    ValidCard(m);
    |m.order|
  }

  /** A valid map's order is as long as its key set is large. */
  lemma ValidCard<K(!new), V>(m: OMap<K, V>)
    ensures Valid(m) ==> |m.order| == |m.vals.Keys|
  {
    if Valid(m) {
      DistinctCard(m.order);
      assert m.vals.Keys == set x | x in m.order;
    }
  }

  /** `Map.prototype.get`: `None` plays `undefined`. */
  function Get<K(!new), V>(m: OMap<K, V>, k: K): (r: Option<V>)
    ensures r.Some? <==> k in m.vals
  {
    if k in m.vals then Some(m.vals[k]) else None
  }

  /** `Map.prototype.has`: exactly the keys `get` finds. */
  predicate Has<K(!new), V>(m: OMap<K, V>, k: K)
    ensures Has(m, k) <==> Get(m, k).Some?
  {
    k in m.vals
  }

  /** `Map.prototype.set`. */
  function Set<K(!new), V>(m: OMap<K, V>, k: K, v: V): (r: OMap<K, V>)
    ensures Get(r, k) == Some(v)
    ensures forall k' :: k' != k ==> Get(r, k') == Get(m, k')
    ensures Has(m, k) ==> r.order == m.order
    ensures !Has(m, k) ==> r.order == m.order + [k]
    ensures Valid(m) ==> Valid(r)
    ensures Valid(m) ==> Size(r) == if Has(m, k) then Size(m) else Size(m) + 1
  {
    if k in m.vals then OMap(m.order, m.vals[k := v])
    else
      DistinctSnoc(m.order, k);
      OMap(m.order + [k], m.vals[k := v])
  }

  /** The position of the first occurrence of `k` in `s`. */
  function IndexOf<K(==)>(s: seq<K>, k: K): (n: nat)
    requires k in s
    ensures n < |s| && s[n] == k
  {
    if s[0] == k then 0 else IndexOf(s[1..], k) + 1
  }

  /**
    `s` with every occurrence of `k` dropped. In a duplicate-free order that is
    the one occurrence, and the rest keep their order (`WithoutCutsOne`).
   */
  function Without<K(==,!new)>(s: seq<K>, k: K): (r: seq<K>)
    ensures forall x :: x in r <==> x in s && x != k
    ensures Distinct(s) ==> Distinct(r)
    ensures k !in s ==> r == s
    ensures Distinct(s) && k in s ==> |r| == |s| - 1
  {
    if s == [] then []
    else if s[0] == k then Without(s[1..], k)
    else
      var t := Without(s[1..], k);
      assert ([s[0]] + t)[1..] == t;
      [s[0]] + t
  }

  /** `s` with the element at position `n` cut out, the rest in order. */
  function Cut<K>(s: seq<K>, n: nat): (r: seq<K>)
    requires n < |s|
    ensures |r| == |s| - 1
    ensures forall i :: 0 <= i < n ==> r[i] == s[i]
    ensures forall i :: n <= i < |r| ==> r[i] == s[i + 1]
    decreases n
  {
    if n == 0 then s[1..] else [s[0]] + Cut(s[1..], n - 1)
  }

  /**
    Removing a key from a duplicate-free order cuts out its one occurrence and
    leaves the keys before and after it where they were.
   */
  lemma {:induction false} WithoutCutsOne<K(!new)>(s: seq<K>, k: K)
    requires Distinct(s) && k in s
    ensures Without(s, k) == Cut(s, IndexOf(s, k))
  {
    if s[0] == k {
      assert k !in s[1..];
    } else {
      WithoutCutsOne(s[1..], k);
    }
  }

  /** `Map.prototype.delete`. */
  function Delete<K(!new), V>(m: OMap<K, V>, k: K): (r: OMap<K, V>)
    ensures Get(r, k) == None
    ensures forall k' :: k' != k ==> Get(r, k') == Get(m, k')
    ensures Valid(m) ==> Valid(r)
    ensures Valid(m) ==> Size(r) == if Has(m, k) then Size(m) - 1 else Size(m)
    ensures Valid(m) && !Has(m, k) ==> r.order == m.order
    ensures Valid(m) && Has(m, k) ==> r.order == Cut(m.order, IndexOf(m.order, k))
  {
    var r := OMap(Without(m.order, k), m.vals - {k});
    assert Valid(m) ==> Valid(r) && |r.order| == if Has(m, k) then |m.order| - 1 else |m.order|;
    if Valid(m) && Has(m, k) then
      WithoutCutsOne(m.order, k);
      r
    else
      r
  }

  /** The pairs of `order`'s keys that have a value in `vals`, in order. */
  function EntriesOf<K, V>(order: seq<K>, vals: map<K, V>): (r: seq<(K, V)>)
    ensures forall e :: e in r ==> e.0 in vals && vals[e.0] == e.1 && e.0 in order
    ensures (forall k :: k in order ==> k in vals) ==> |r| == |order|
    ensures (forall k :: k in order ==> k in vals) ==>
              forall i :: 0 <= i < |r| ==> r[i].0 == order[i]
  {
    if order == [] then []
    else if order[0] in vals then [(order[0], vals[order[0]])] + EntriesOf(order[1..], vals)
    else EntriesOf(order[1..], vals)
  }

  /** `Array.from(m.entries())`. */
  function Entries<K, V>(m: OMap<K, V>): seq<(K, V)> {
    EntriesOf(m.order, m.vals)
  }

  /**
    The entries list is a faithful listing of a valid map: one pair per key, in
    insertion order, each carrying the key's current value.
   */
  lemma EntriesListsMap<K(!new), V>(m: OMap<K, V>)
    requires Valid(m)
    ensures |Entries(m)| == Size(m)
    ensures forall i :: 0 <= i < |Entries(m)| ==> Entries(m)[i].0 == m.order[i]
    ensures forall k :: Has(m, k) <==> exists i :: 0 <= i < |Entries(m)| && Entries(m)[i].0 == k
    ensures forall e :: e in Entries(m) ==> Get(m, e.0) == Some(e.1)
  {
    var r := Entries(m);
    forall k | Has(m, k)
      ensures exists i :: 0 <= i < |r| && r[i].0 == k
    {
      var i :| 0 <= i < |m.order| && m.order[i] == k;
      assert r[i].0 == k;
    }
    forall k | exists i :: 0 <= i < |r| && r[i].0 == k
      ensures Has(m, k)
    {
      var i :| 0 <= i < |r| && r[i].0 == k;
      assert r[i] in r;
    }
  }
}
