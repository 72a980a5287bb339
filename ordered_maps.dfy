/** The PHP array as the repository uses it: an insertion-ordered map.
    Assigning to a key that is present replaces its value where it stands;
    assigning to a new key appends an entry; `unset` drops the entry; the
    functions `array_values` and `array_filter` read the entries in order. */
module OrderedMaps {
  import opened Wrappers

  /** One key/value pair of an ordered map. */
  datatype Entry<K, V> = Entry(key: K, value: V)

  /** The entries of an ordered map, oldest first. */
  type OrderedMap<K, V> = seq<Entry<K, V>>

  predicate HasKey<K(==), V>(m: OrderedMap<K, V>, k: K) {
    exists i :: 0 <= i < |m| && m[i].key == k
  }

  /** The well-formedness of an ordered map: no key occurs twice. */
  predicate UniqueKeys<K(==), V>(m: OrderedMap<K, V>) {
    forall i, j :: 0 <= i < j < |m| ==> m[i].key != m[j].key
  }

  /** `$m[$k] ?? null`: the value stored under `k`, if any. */
  function Get<K(==), V>(m: OrderedMap<K, V>, k: K): (r: Option<V>)
    ensures r.None? <==> !HasKey(m, k)
    ensures r.Some? ==> Entry(k, r.value) in m
  {
    if m == [] then None
    else if m[0].key == k then Some(m[0].value)
    else
      var r := Get(m[1..], k);
      assert HasKey(m, k) ==> HasKey(m[1..], k) by {
        if HasKey(m, k) {
          var i :| 0 <= i < |m| && m[i].key == k;
          assert m[1..][i - 1].key == k;
        }
      }
      assert HasKey(m[1..], k) ==> HasKey(m, k) by {
        if HasKey(m[1..], k) {
          var i :| 0 <= i < |m[1..]| && m[1..][i].key == k;
          assert m[i + 1].key == k;
        }
      }
      r
  }

  /** `$m[$k] = $v`: overwrite in place, or append a new last entry. */
  function Put<K(==), V>(m: OrderedMap<K, V>, k: K, v: V): (r: OrderedMap<K, V>)
    ensures !HasKey(m, k) ==> r == m + [Entry(k, v)]
    ensures forall e :: e in r ==> e in m || e == Entry(k, v)
  {
    if m == [] then [Entry(k, v)]
    else if m[0].key == k then [Entry(k, v)] + m[1..]
    else
      assert !HasKey(m, k) ==> !HasKey(m[1..], k) by {
        if HasKey(m[1..], k) {
          var i :| 0 <= i < |m[1..]| && m[1..][i].key == k;
          assert m[i + 1].key == k;
        }
      }
      [m[0]] + Put(m[1..], k, v)
  }

  /** `unset($m[$k])`: drop the entry for `k`; absent keys are ignored. */
  function Remove<K(==), V>(m: OrderedMap<K, V>, k: K): (r: OrderedMap<K, V>)
    ensures |r| <= |m|
    ensures forall j :: 0 <= j < |r| ==> r[j].key != k
  {
    if m == [] then []
    else if m[0].key == k then Remove(m[1..], k)
    else [m[0]] + Remove(m[1..], k)
  }

  /** `array_values($m)`: the stored values in entry order. */
  function Values<K, V>(m: OrderedMap<K, V>): (r: seq<V>)
    ensures |r| == |m|
    ensures forall i :: 0 <= i < |m| ==> r[i] == m[i].value
  {
    if m == [] then [] else [m[0].value] + Values(m[1..])
  }

  /** `array_filter($m, $p)`: the entries whose value satisfies `p`, keys and
      order kept. */
  function Filter<K, V>(m: OrderedMap<K, V>, p: V -> bool): (r: OrderedMap<K, V>)
    ensures forall e :: e in r ==> e in m && p(e.value)
    ensures forall i :: 0 <= i < |m| && p(m[i].value) ==> m[i] in r
  {
    if m == [] then [] else (if p(m[0].value) then [m[0]] else []) + Filter(m[1..], p)
  }

  /** The values of `s` that satisfy `p`, in their order in `s`: the
      list filter that `array_values(array_filter(...))` amounts to. */
  function Select<V>(s: seq<V>, p: V -> bool): (r: seq<V>)
    ensures |r| <= |s|
    ensures forall j :: 0 <= j < |r| ==> p(r[j])
  {
    if s == [] then [] else (if p(s[0]) then [s[0]] else []) + Select(s[1..], p)
  }

  /** Reading a key back after writing it gives the written value; every
      other key reads as before. */
  lemma {:induction false} GetPut<K, V>(m: OrderedMap<K, V>, k: K, v: V, k': K)
    ensures Get(Put(m, k, v), k') == if k' == k then Some(v) else Get(m, k')
  {
    if m != [] && m[0].key != k {
      GetPut(m[1..], k, v, k');
      assert Put(m, k, v)[1..] == Put(m[1..], k, v);
    }
  }

  /** In a well-formed map, looking up a stored key finds the value stored
      with it. */
  lemma {:induction false} GetStored<K, V>(m: OrderedMap<K, V>, i: nat)
    requires UniqueKeys(m)
    requires i < |m|
    ensures Get(m, m[i].key) == Some(m[i].value)
  {
    if i > 0 {
      assert m[0].key != m[i].key;
      assert m[1..][i - 1] == m[i];
      GetStored(m[1..], i - 1);
    }
  }

  /** Writing a key that is present replaces its entry in place: the order
      and the number of entries stay the same. */
  lemma {:induction false} PutExisting<K, V>(m: OrderedMap<K, V>, k: K, v: V, i: nat)
    requires UniqueKeys(m)
    requires i < |m| && m[i].key == k
    ensures Put(m, k, v) == m[i := Entry(k, v)]
  {
    if i > 0 {
      assert m[0].key != k;
      PutExisting(m[1..], k, v, i - 1);
    }
  }

  /** Writing never makes a key occur twice. */
  lemma PutKeepsUniqueKeys<K, V>(m: OrderedMap<K, V>, k: K, v: V)
    requires UniqueKeys(m)
    ensures UniqueKeys(Put(m, k, v))
  {
    if HasKey(m, k) {
      var i :| 0 <= i < |m| && m[i].key == k;
      PutExisting(m, k, v, i);
    }
  }

  /** After `unset`, the key reads as absent and every other key as before. */
  lemma {:induction false} GetRemove<K, V>(m: OrderedMap<K, V>, k: K, k': K)
    ensures Get(Remove(m, k), k') == if k' == k then None else Get(m, k')
  {
    if m != [] {
      GetRemove(m[1..], k, k');
    }
  }

  /** `unset` of a stored key drops exactly that entry; the others keep
      their order. */
  lemma {:induction false} RemoveExisting<K, V>(m: OrderedMap<K, V>, k: K, i: nat)
    requires i < |m| && m[i].key == k
    requires forall j :: 0 <= j < |m| && j != i ==> m[j].key != k
    ensures Remove(m, k) == m[..i] + m[i + 1..]
  {
    var tail := m[1..];
    assert forall j :: 0 <= j < |tail| ==> tail[j] == m[j + 1];
    if i == 0 {
      assert Remove(m, k) == Remove(tail, k);
      RemoveAbsent(tail, k);
      assert m[..0] + m[1..] == tail;
    } else {
      RemoveExisting(tail, k, i - 1);
      assert Remove(m, k) == [m[0]] + Remove(tail, k);
      assert m[..i] == [m[0]] + tail[..i - 1];
      assert m[i + 1..] == tail[i..];
    }
  }

  /** `unset` of a key that is not stored changes nothing. */
  lemma {:induction false} RemoveAbsent<K, V>(m: OrderedMap<K, V>, k: K)
    requires forall j :: 0 <= j < |m| ==> m[j].key != k
    ensures Remove(m, k) == m
  {
    if m != [] {
      RemoveAbsent(m[1..], k);
    }
  }

  /** `unset` adds no entry: whatever is left was stored before. */
  lemma {:induction false} RemoveSubset<K, V>(m: OrderedMap<K, V>, k: K)
    ensures forall e :: e in Remove(m, k) ==> e in m
  {
    if m != [] {
      RemoveSubset(m[1..], k);
      assert forall e :: e in m[1..] ==> e in m;
    }
  }

  /** `unset` never makes a key occur twice. */
  lemma RemoveKeepsUniqueKeys<K, V>(m: OrderedMap<K, V>, k: K)
    requires UniqueKeys(m)
    ensures UniqueKeys(Remove(m, k))
  {
    if HasKey(m, k) {
      var i :| 0 <= i < |m| && m[i].key == k;
      RemoveExisting(m, k, i);
      var r := Remove(m, k);
      forall p, q | 0 <= p < q < |r| ensures r[p].key != r[q].key {
        var p', q' := if p < i then p else p + 1, if q < i then q else q + 1;
        assert r[p] == m[p'] && r[q] == m[q'];
      }
    } else {
      RemoveAbsent(m, k);
    }
  }

  /** `array_values` distributes over concatenation. */
  lemma {:induction false} ValuesAppend<K, V>(a: OrderedMap<K, V>, b: OrderedMap<K, V>)
    ensures Values(a + b) == Values(a) + Values(b)
  {
  }

  /** `array_filter` keeps the relative order of the entries: filtering a
      concatenation concatenates the filtered parts. */
  lemma {:induction false} FilterAppend<K, V>(a: OrderedMap<K, V>, b: OrderedMap<K, V>, p: V -> bool)
    ensures Filter(a + b, p) == Filter(a, p) + Filter(b, p)
  {
    if a == [] {
      assert a + b == b;
    } else {
      var ab := a + b;
      assert ab[0] == a[0];
      assert ab[1..] == a[1..] + b;
      var head := if p(a[0].value) then [a[0]] else [];
      assert Filter(a, p) == head + Filter(a[1..], p);
      assert Filter(ab, p) == head + Filter(a[1..] + b, p);
      FilterAppend(a[1..], b, p);
    }
  }

  /** Listing the filtered map is filtering the listing: the kept values
      come out in entry order. */
  lemma {:induction false} ValuesFilter<K, V>(m: OrderedMap<K, V>, p: V -> bool)
    ensures Values(Filter(m, p)) == Select(Values(m), p)
  {
    if m != [] {
      ValuesFilter(m[1..], p);
      var head := if p(m[0].value) then [m[0]] else [];
      ValuesAppend(head, Filter(m[1..], p));
      assert Values(m)[1..] == Values(m[1..]);
    }
  }

  /** After `array_filter`, each value occurs as often as it did before when
      it satisfies `p`, and not at all otherwise. */
  lemma {:induction false} FilterMultiplicity<K, V>(m: OrderedMap<K, V>, p: V -> bool, x: V)
    ensures multiset(Values(Filter(m, p)))[x] == if p(x) then multiset(Values(m))[x] else 0
  {
    if m != [] {
      FilterMultiplicity(m[1..], p, x);
      assert Values(m) == [m[0].value] + Values(m[1..]);
      var head := if p(m[0].value) then [m[0]] else [];
      ValuesAppend(head, Filter(m[1..], p));
    }
  }
}
