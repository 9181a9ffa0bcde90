/**
 Insertion-ordered maps with distinct keys, as Python's `dict` and `OrderedDict` are: the list of
 their entries, oldest first.
 */
module OrderedMaps {
  import opened Wrappers

  datatype Entry<K, V> = Entry(key: K, value: V)

  type OrderedMap<K, V> = seq<Entry<K, V>>

  ghost predicate DistinctKeys<K, V>(m: OrderedMap<K, V>) {
    forall i, j :: 0 <= i < j < |m| ==> m[i].key != m[j].key
  }

  predicate Has<K(==), V>(m: OrderedMap<K, V>, key: K) {
    exists i :: 0 <= i < |m| && m[i].key == key
  }

  /** `m.get(key)` */
  function Find<K(==), V>(m: OrderedMap<K, V>, key: K): (r: Option<V>)
    ensures r.Some? <==> Has(m, key)
  {
    if m == [] then None
    else if m[0].key == key then Some(m[0].value)
    else
      assert forall i :: 0 < i < |m| ==> m[i] == m[1..][i - 1];
      Find(m[1..], key)
  }

  /** `m[key] = value`: in place when the key is there, at the end otherwise. */
  function Put<K(==), V>(m: OrderedMap<K, V>, key: K, value: V): OrderedMap<K, V> {
    if m == [] then [Entry(key, value)]
    else if m[0].key == key then [Entry(key, value)] + m[1..]
    else [m[0]] + Put(m[1..], key, value)
  }

  /** `m.pop(key, None)` */
  function Remove<K(==), V>(m: OrderedMap<K, V>, key: K): OrderedMap<K, V> {
    if m == [] then []
    else if m[0].key == key then m[1..]
    else [m[0]] + Remove(m[1..], key)
  }

  /** `m[key] = value; m.move_to_end(key)` */
  function PutLast<K(==), V>(m: OrderedMap<K, V>, key: K, value: V): OrderedMap<K, V> {
    Remove(m, key) + [Entry(key, value)]
  }

  lemma {:induction false} FindAt<K, V>(m: OrderedMap<K, V>, i: nat)
    requires DistinctKeys(m) && i < |m|
    ensures Find(m, m[i].key) == Some(m[i].value)
  {
    if i > 0 {
      FindAt(m[1..], i - 1);
    }
  }

  /** Where `key` stands. */
  function IndexOf<K(==), V>(m: OrderedMap<K, V>, key: K): (at: nat)
    requires Has(m, key)
    ensures at < |m| && m[at].key == key
  {
    if m[0].key == key then 0
    else
      assert forall i :: 0 < i < |m| ==> m[i] == m[1..][i - 1];
      1 + IndexOf(m[1..], key)
  }

  /** Removing takes out one entry and keeps the order of the others. */
  lemma {:induction false} RemoveShape<K, V>(m: OrderedMap<K, V>, key: K)
    ensures Has(m, key) ==> Remove(m, key) == m[..IndexOf(m, key)] + m[IndexOf(m, key) + 1..]
    ensures !Has(m, key) ==> Remove(m, key) == m
  {
    if m != [] && m[0].key != key {
      assert forall i :: 0 < i < |m| ==> m[i] == m[1..][i - 1];
      assert m == [m[0]] + m[1..];
      RemoveShape(m[1..], key);
      if Has(m, key) {
        var at := IndexOf(m, key);
        assert m[..at] == [m[0]] + m[1..][..at - 1];
        assert m[at + 1..] == m[1..][at..];
      }
    }
  }

  /** The same, entry by entry. */
  lemma RemoveEntries<K, V>(m: OrderedMap<K, V>, key: K)
    requires Has(m, key)
    ensures |Remove(m, key)| == |m| - 1
    ensures forall i :: 0 <= i < |m| - 1 ==> Remove(m, key)[i] == m[if i < IndexOf(m, key) then i else i + 1]
  {
    RemoveShape(m, key);
  }

  lemma RemoveKeeps<K, V>(m: OrderedMap<K, V>, key: K)
    requires DistinctKeys(m)
    ensures DistinctKeys(Remove(m, key)) && !Has(Remove(m, key), key)
    ensures |Remove(m, key)| == |m| - (if Has(m, key) then 1 else 0)
    ensures forall e :: e in Remove(m, key) <==> e in m && e.key != key
  {
    hide Remove, IndexOf;
    RemoveShape(m, key);
    if Has(m, key) {
      WithoutEntry(m, IndexOf(m, key));
    }
  }

  lemma WithoutEntry<K, V>(m: OrderedMap<K, V>, at: nat)
    requires DistinctKeys(m) && at < |m|
    ensures var r := m[..at] + m[at + 1..];
            && DistinctKeys(r) && !Has(r, m[at].key) && |r| == |m| - 1
            && forall e :: e in r <==> e in m && e.key != m[at].key
  {
    var r := m[..at] + m[at + 1..];
    assert forall i :: 0 <= i < |r| ==> r[i] == m[if i < at then i else i + 1];
    forall e | e in m && e.key != m[at].key
      ensures e in r
    {
      var i :| 0 <= i < |m| && m[i] == e;
      assert r[if i < at then i else i - 1] == e;
    }
  }

  lemma FindInEntry<K, V>(m: OrderedMap<K, V>, key: K, value: V)
    requires DistinctKeys(m)
    ensures Find(m, key) == Some(value) <==> Entry(key, value) in m
  {
    if Entry(key, value) in m {
      var i :| 0 <= i < |m| && m[i] == Entry(key, value);
      FindAt(m, i);
    }
    if Find(m, key) == Some(value) {
      var i :| 0 <= i < |m| && m[i].key == key;
      FindAt(m, i);
    }
  }

  lemma FindAfterRemove<K, V>(m: OrderedMap<K, V>, key: K, other: K)
    requires DistinctKeys(m)
    ensures Find(Remove(m, key), other) == if other == key then None else Find(m, other)
  {
    RemoveKeeps(m, key);
    if other != key {
      if Find(m, other).Some? {
        FindInEntry(m, other, Find(m, other).value);
        FindInEntry(Remove(m, key), other, Find(m, other).value);
      } else if Find(Remove(m, key), other).Some? {
        FindInEntry(Remove(m, key), other, Find(Remove(m, key), other).value);
        FindInEntry(m, other, Find(Remove(m, key), other).value);
      }
    }
  }

  lemma {:induction false} FindAppended<K, V>(m: OrderedMap<K, V>, key: K, value: V, other: K)
    requires !Has(m, key)
    ensures Find(m + [Entry(key, value)], other) == if other == key then Some(value) else Find(m, other)
  {
    if m == [] {
      assert m + [Entry(key, value)] == [Entry(key, value)];
    } else {
      assert (m + [Entry(key, value)])[1..] == m[1..] + [Entry(key, value)];
      assert forall i :: 0 < i < |m| ==> m[i] == m[1..][i - 1];
      FindAppended(m[1..], key, value, other);
    }
  }

  lemma FindAfterPutLast<K, V>(m: OrderedMap<K, V>, key: K, value: V, other: K)
    requires DistinctKeys(m)
    ensures Find(PutLast(m, key, value), other) == if other == key then Some(value) else Find(m, other)
    ensures DistinctKeys(PutLast(m, key, value))
  {
    RemoveKeeps(m, key);
    FindAppended(Remove(m, key), key, value, other);
    FindAfterRemove(m, key, other);
    var r := Remove(m, key);
    assert forall i :: 0 <= i < |r| ==> r[i].key != key;
  }

  lemma {:induction false} PutShape<K, V>(m: OrderedMap<K, V>, key: K, value: V)
    requires DistinctKeys(m)
    ensures !Has(m, key) ==> Put(m, key, value) == m + [Entry(key, value)]
    ensures Has(m, key) ==> |Put(m, key, value)| == |m|
    ensures Has(m, key) ==> forall i :: 0 <= i < |m| ==>
              Put(m, key, value)[i] == if m[i].key == key then Entry(key, value) else m[i]
  {
    if m != [] {
      assert forall i :: 0 < i < |m| ==> m[i] == m[1..][i - 1];
      if m[0].key != key {
        PutShape(m[1..], key, value);
        assert m == [m[0]] + m[1..];
      }
    }
  }

  lemma FindAfterPut<K, V>(m: OrderedMap<K, V>, key: K, value: V, other: K)
    requires DistinctKeys(m)
    ensures DistinctKeys(Put(m, key, value))
    ensures Find(Put(m, key, value), other) == if other == key then Some(value) else Find(m, other)
  {
    PutShape(m, key, value);
    var p := Put(m, key, value);
    if !Has(m, key) {
      FindAppended(m, key, value, other);
    } else {
      assert forall i :: 0 <= i < |m| ==> p[i].key == m[i].key;
      if Has(m, other) {
        var i :| 0 <= i < |m| && m[i].key == other;
        FindAt(m, i);
        FindAt(p, i);
      }
      assert Has(p, other) <==> Has(m, other);
    }
  }

  // ----- Housekeeping from the front

  /** Pops entries off the front until one is live. */
  function SweepFront<K, V>(m: OrderedMap<K, V>, live: V -> bool): OrderedMap<K, V> {
    if m == [] || live(m[0].value) then m else SweepFront(m[1..], live)
  }

  lemma {:induction false} SweepShape<K, V>(m: OrderedMap<K, V>, live: V -> bool) returns (n: nat)
    ensures n <= |m| && SweepFront(m, live) == m[n..]
    ensures n < |m| ==> live(m[n].value)
    ensures forall i :: 0 <= i < n ==> !live(m[i].value)
  {
    n := 0;
    if m != [] && !live(m[0].value) {
      n := SweepShape(m[1..], live);
      assert forall i :: 0 < i < |m| ==> m[i] == m[1..][i - 1];
      n := n + 1;
      assert m[1..][n - 1..] == m[n..];
    }
  }

  /** Where no dead entry stands behind a live one, front-popping removes exactly the dead. */
  lemma SweepExact<K, V>(m: OrderedMap<K, V>, live: V -> bool)
    requires forall i, j :: 0 <= i < j < |m| && live(m[i].value) ==> live(m[j].value)
    ensures forall e :: e in SweepFront(m, live) <==> e in m && live(e.value)
  {
    var n := SweepShape(m, live);
    forall e | e in m && live(e.value)
      ensures e in SweepFront(m, live)
    {
      var i :| 0 <= i < |m| && m[i] == e;
      assert m[n..][i - n] == e;
    }
  }

  lemma FindAfterSweep<K, V>(m: OrderedMap<K, V>, live: V -> bool, key: K)
    requires DistinctKeys(m)
    ensures DistinctKeys(SweepFront(m, live))
    ensures Find(SweepFront(m, live), key).Some? ==> Find(SweepFront(m, live), key) == Find(m, key)
    ensures Find(SweepFront(m, live), key).None? && Find(m, key).Some? ==> !live(Find(m, key).value)
  {
    var n := SweepShape(m, live);
    var s := SweepFront(m, live);
    forall i | n <= i < |m|
      ensures Has(s, m[i].key)
    {
      assert s[i - n] == m[i];
    }
    if Has(s, key) {
      FindInEntry(s, key, Find(s, key).value);
      FindInEntry(m, key, Find(s, key).value);
    } else if Has(m, key) {
      FindInEntry(m, key, Find(m, key).value);
    }
  }
}
