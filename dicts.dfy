/**
 * Python's dict: a finite map that remembers the order in which its keys were
 * first inserted. Assigning to a key that is already present keeps its place;
 * pop() removes the key from the order; keys() and values() follow the order.
 */
module Dicts {

  ghost predicate Distinct<T>(s: seq<T>) {
    forall i, j :: 0 <= i < j < |s| ==> s[i] != s[j]
  }

  datatype DictRep<K, V> = DictRep(order: seq<K>, entries: map<K, V>)

  /** The keys in insertion order, each exactly once, and nothing else. */
  ghost predicate WellOrdered<K(!new), V>(d: DictRep<K, V>) {
    Distinct(d.order) && forall k :: k in d.entries <==> k in d.order
  }

  type Dict<K(==,!new), V> = d: DictRep<K, V> | WellOrdered(d) witness DictRep([], map[])

  /** {} */
  function Empty<K(==,!new), V>(): (d: Dict<K, V>)
    ensures d.order == [] && d.entries == map[]
  {
    DictRep([], map[])
  }

  /** d[k] = v */
  function Put<K(==,!new), V>(d: Dict<K, V>, k: K, v: V): (r: Dict<K, V>)
    ensures r.entries == d.entries[k := v]
    ensures r.order == if k in d.entries then d.order else d.order + [k]
  {
    if k in d.entries then DictRep(d.order, d.entries[k := v])
    else DictRep(d.order + [k], d.entries[k := v])
  }

  /** The sequence s with every occurrence of x taken out. */
  function Without<K(==,!new)>(s: seq<K>, x: K): (r: seq<K>)
    ensures forall y :: y in r <==> y in s && y != x
    ensures Distinct(s) ==> Distinct(r)
    ensures x !in s ==> r == s
  {
    if s == [] then []
    else if s[0] == x then Without(s[1..], x)
    else
      var rest := Without(s[1..], x);
      assert Distinct(s) ==> s[0] !in s[1..] && Distinct(s[1..]);
      [s[0]] + rest
  }

  /** d.pop(k) for a key that is present. */
  function Remove<K(==,!new), V>(d: Dict<K, V>, k: K): (r: Dict<K, V>)
    requires k in d.entries
    ensures r.entries == d.entries - {k}
    ensures r.order == Without(d.order, k)
  {
    DictRep(Without(d.order, k), d.entries - {k})
  }

  lemma {:induction false} WithoutAppended<K(!new)>(s: seq<K>, x: K)
    ensures Without(s + [x], x) == Without(s, x)
  {
    if s == [] {
      assert [] + [x] == [x];
      assert Without([x], x) == Without([x][1..], x);
    } else {
      assert (s + [x])[1..] == s[1..] + [x];
      WithoutAppended(s[1..], x);
    }
  }

  /** Adding a key that was absent and then popping it gives back the same dict. */
  lemma PutThenRemove<K(!new), V>(d: Dict<K, V>, k: K, v: V)
    requires k !in d.entries
    ensures Remove(Put(d, k, v), k) == d
  {
    WithoutAppended(d.order, k);
    assert d.entries[k := v] - {k} == d.entries;
  }

  /** Two dicts with the same keys in the same order keep that after writing the same key. */
  lemma PutKeepsSameOrder<K(!new), V, W>(d: Dict<K, V>, e: Dict<K, W>, k: K, v: V, w: W)
    requires d.order == e.order
    ensures Put(d, k, v).order == Put(e, k, w).order
  {
    assert k in d.entries <==> k in e.entries;
  }

  /** list(d.values()) */
  function Values<K(==,!new), V>(d: Dict<K, V>): (r: seq<V>)
    ensures |r| == |d.order|
    ensures forall i :: 0 <= i < |r| ==> r[i] == d.entries[d.order[i]]
  {
    seq(|d.order|, i requires 0 <= i < |d.order| => d.entries[d.order[i]])
  }

  /** The values listed by values() are exactly the values the dict holds. */
  lemma ValuesAreMapValues<K(!new), V>(d: Dict<K, V>)
    ensures forall v :: v in Values(d) <==> v in d.entries.Values
  {
    var vs := Values(d);
    forall v | v in d.entries.Values ensures v in vs {
      var k :| k in d.entries && d.entries[k] == v;
      var i :| 0 <= i < |d.order| && d.order[i] == k;
      assert vs[i] == v;
    }
  }
}
