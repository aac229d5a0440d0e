/** A JavaScript `Map`: iteration follows first insertion, and overwriting a key keeps its place. */
module JsMaps {
  import opened Wrappers
  import opened Sequences

  datatype JsMap<K(==), V> = JsMap(keys: seq<K>, entries: map<K, V>) {
    ghost predicate Valid() {
      && Distinct(keys)
      && (forall k :: k in keys ==> k in entries)
      && (forall k :: k in entries ==> k in keys)
    }

    function Get(k: K): Option<V> {
      if k in entries then Some(entries[k]) else None
    }

    function Set(k: K, v: V): (r: JsMap<K, V>)
      ensures r.entries == entries[k := v]
      ensures Valid() ==> r.Valid()
    {
      JsMap(if k in entries then keys else keys + [k], entries[k := v])
    }

    function Delete(k: K): (r: JsMap<K, V>)
      ensures r.entries == entries - {k}
      ensures Valid() ==> r.Valid()
    {
      var r := JsMap(Filter(x => x != k, keys), entries - {k});
      assert Valid() ==> r.Valid() by {
        if Valid() {
          FilterDistinct(x => x != k, keys);
          forall x | x in r.keys
            ensures x in r.entries
          {
            FilterMember(y => y != k, keys, x);
          }
          forall x | x in r.entries
            ensures x in r.keys
          {
            FilterMember(y => y != k, keys, x);
          }
        }
      }
      r
    }

    function Size(): nat {
      |keys|
    }

    function Values(): (r: seq<V>)
      requires forall k :: k in keys ==> k in entries
      ensures |r| == |keys|
      ensures forall i :: 0 <= i < |r| ==> r[i] == entries[keys[i]]
    {
      seq(|keys|, i requires 0 <= i < |keys| => entries[keys[i]])
    }
  }

  function Empty<K(==), V>(): (r: JsMap<K, V>)
    ensures r.Valid()
  {
    JsMap([], map[])
  }

  lemma {:induction false} ValuesMember<K, V>(m: JsMap<K, V>, v: V)
    requires m.Valid()
    ensures v in m.Values() <==> exists k :: k in m.entries && m.entries[k] == v
  {
    if k :| k in m.entries && m.entries[k] == v {
      var i :| 0 <= i < |m.keys| && m.keys[i] == k;
      assert m.Values()[i] == v;
    }
  }

  /** Writing one key changes a total over the values by that key's difference. */
  lemma {:induction false} SetSum<K, V>(m: JsMap<K, V>, k: K, v: V, f: V -> int)
    requires m.Valid()
    ensures Sum(f, m.Set(k, v).Values()) == Sum(f, m.Values()) + f(v) - if k in m.entries then f(m.entries[k]) else 0
  {
    if k in m.entries {
      var i :| 0 <= i < |m.keys| && m.keys[i] == k;
      OverwriteValues(m, k, v, i);
      SumUpdate(f, m.Values(), i, v);
    } else {
      assert m.Set(k, v).Values() == m.Values() + [v];
      SumSnoc(f, m.Values(), v);
    }
  }

  lemma {:induction false} OverwriteValues<K, V>(m: JsMap<K, V>, k: K, v: V, i: nat)
    requires m.Valid() && i < |m.keys| && m.keys[i] == k
    ensures m.Set(k, v).Values() == m.Values()[i := v]
  {
    var r := m.Set(k, v);
    assert r.keys == m.keys;
    forall j | 0 <= j < |m.keys|
      ensures r.Values()[j] == m.Values()[i := v][j]
    {
      assert j != i ==> m.keys[j] != k;
    }
  }

  lemma {:induction false} FilterOut<T>(s: seq<T>, x: T)
    requires Distinct(s)
    ensures |Filter(y => y != x, s)| == if x in s then |s| - 1 else |s|
  {
    if s != [] {
      var n := |s| - 1;
      FilterOut(s[..n], x);
      assert s == s[..n] + [s[n]];
    }
  }

  lemma {:induction false} DeleteSize<K, V>(m: JsMap<K, V>, k: K)
    requires m.Valid() && k in m.entries
    ensures |m.Delete(k).keys| == |m.keys| - 1
  {
    FilterOut(m.keys, k);
  }
}
