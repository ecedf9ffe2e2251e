/**
 * A Python dict with str keys, as the scoring code uses it: entries in insertion
 * order, assignment to a present key keeps its place, `del` keeps the others' order.
 */
module OrderedMaps {
  import opened Wrappers

  type OrderedMap<V> = seq<(string, V)>

  /** list(d): the keys in iteration order. */
  function Keys<V>(m: OrderedMap<V>): seq<string> {
    if m == [] then [] else [m[0].0] + Keys(m[1..])
  }

  lemma {:induction false} KeysIndex<V>(m: OrderedMap<V>)
    ensures |Keys(m)| == |m| && forall i :: 0 <= i < |m| ==> Keys(m)[i] == m[i].0
  {
    if m != [] {
      KeysIndex(m[1..]);
    }
  }

  lemma KeysAppend<V>(a: OrderedMap<V>, b: OrderedMap<V>)
    ensures Keys(a + b) == Keys(a) + Keys(b)
  {
    KeysIndex(a);
    KeysIndex(b);
    KeysIndex(a + b);
  }

  /** No key occurs twice, as in every dict. */
  predicate UniqueKeys<V>(m: OrderedMap<V>) {
    m == [] || (m[0].0 !in Keys(m[1..]) && UniqueKeys(m[1..]))
  }

  /** d.get(k): the value of the first entry with key k. */
  function Get<V>(m: OrderedMap<V>, k: string): (r: Option<V>)
    ensures r.None? <==> k !in Keys(m)
  {
    if m == [] then None
    else if m[0].0 == k then Some(m[0].1)
    else Get(m[1..], k)
  }

  /** The entry a lookup finds sits at some position of the dict. */
  lemma {:induction false} GetFound<V>(m: OrderedMap<V>, k: string)
    requires k in Keys(m)
    ensures exists i :: 0 <= i < |m| && m[i] == (k, Get(m, k).value)
  {
    if m[0].0 != k {
      GetFound(m[1..], k);
      var i :| 0 <= i < |m[1..]| && m[1..][i] == (k, Get(m[1..], k).value);
      assert m[i + 1] == m[1..][i];
    }
  }

  /** d[k] = v: a new key goes last; a present key keeps its place and takes the new value. */
  function Put<V>(m: OrderedMap<V>, k: string, v: V): (r: OrderedMap<V>)
    ensures |r| == if k in Keys(m) then |m| else |m| + 1
  {
    if m == [] then [(k, v)]
    else if m[0].0 == k then [(k, v)] + m[1..]
    else [m[0]] + Put(m[1..], k, v)
  }

  /** After d[k] = v, d[k] is v and every other key reads as before. */
  lemma {:induction false} PutGet<V>(m: OrderedMap<V>, k: string, v: V, k': string)
    ensures Get(Put(m, k, v), k') == if k' == k then Some(v) else Get(m, k')
  {
    if m != [] && m[0].0 != k {
      PutGet(m[1..], k, v, k');
    }
  }

  /** Assignment to a present key leaves the key order alone; a new key is appended. */
  lemma {:induction false} PutKeys<V>(m: OrderedMap<V>, k: string, v: V)
    ensures k in Keys(m) ==> Keys(Put(m, k, v)) == Keys(m)
    ensures k !in Keys(m) ==> Put(m, k, v) == m + [(k, v)]
  {
    if m != [] && m[0].0 != k {
      PutKeys(m[1..], k, v);
      if k !in Keys(m) {
        assert m == [m[0]] + m[1..];
      }
    }
  }

  lemma PutKeySet<V>(m: OrderedMap<V>, k: string, v: V, k': string)
    ensures k' in Keys(Put(m, k, v)) <==> k' in Keys(m) || k' == k
  {
    PutKeys(m, k, v);
    if k !in Keys(m) {
      KeysAppend(m, [(k, v)]);
    }
  }

  lemma PutUnique<V>(m: OrderedMap<V>, k: string, v: V)
    requires UniqueKeys(m)
    ensures UniqueKeys(Put(m, k, v))
  {
    PutKeys(m, k, v);
    if k !in Keys(m) {
      AppendUnique(m, (k, v));
    } else {
      SameKeysUnique(m, Put(m, k, v));
    }
  }

  lemma {:induction false} AppendUnique<V>(m: OrderedMap<V>, e: (string, V))
    requires UniqueKeys(m) && e.0 !in Keys(m)
    ensures UniqueKeys(m + [e])
  {
    if m != [] {
      assert (m + [e])[1..] == m[1..] + [e];
      AppendUnique(m[1..], e);
      KeysAppend(m[1..], [e]);
    }
  }

  lemma {:induction false} SameKeysUnique<V>(m: OrderedMap<V>, n: OrderedMap<V>)
    requires UniqueKeys(m) && Keys(n) == Keys(m)
    ensures UniqueKeys(n)
  {
    if n != [] {
      assert Keys(n)[1..] == Keys(n[1..]) && Keys(m)[1..] == Keys(m[1..]);
      SameKeysUnique(m[1..], n[1..]);
    }
  }

  /** del d[k]: the entries without those of key k, the rest in their order. */
  function Remove<V>(m: OrderedMap<V>, k: string): (r: OrderedMap<V>)
    ensures |r| <= |m|
  {
    if m == [] then []
    else if m[0].0 == k then Remove(m[1..], k)
    else [m[0]] + Remove(m[1..], k)
  }

  /** After del d[k], k is gone and every other key reads as before. */
  lemma {:induction false} RemoveGet<V>(m: OrderedMap<V>, k: string, k': string)
    ensures Get(Remove(m, k), k') == if k' == k then None else Get(m, k')
  {
    if m != [] {
      RemoveGet(m[1..], k, k');
    }
  }

  lemma {:induction false} RemoveAbsent<V>(m: OrderedMap<V>, k: string)
    requires k !in Keys(m)
    ensures Remove(m, k) == m
  {
    if m != [] {
      RemoveAbsent(m[1..], k);
    }
  }

  /** In a dict, `del d[k]` takes out exactly the one entry of k, wherever it is. */
  lemma {:induction false} RemovePresent<V>(m: OrderedMap<V>, i: nat)
    requires UniqueKeys(m) && i < |m|
    ensures Remove(m, m[i].0) == m[..i] + m[i + 1..]
  {
    var k := m[i].0;
    var t := m[1..];
    if i == 0 {
      RemoveAbsent(t, k);
    } else {
      assert t[i - 1] == m[i];
      assert m[0].0 != k by {
        KeysIndex(t);
        assert Keys(t)[i - 1] == k;
      }
      RemovePresent(t, i - 1);
      assert [m[0]] + t[..i - 1] == m[..i];
      assert t[i..] == m[i + 1..];
    }
  }

  /** Assigning each entry in turn, left to right. */
  function PutAll<V>(m: OrderedMap<V>, entries: seq<(string, V)>): OrderedMap<V> {
    if entries == [] then m
    else
      var last := entries[|entries| - 1];
      Put(PutAll(m, entries[..|entries| - 1]), last.0, last.1)
  }

  lemma {:induction false} UniqueKeysPrefix<V>(m: OrderedMap<V>, n: nat)
    requires UniqueKeys(m) && n <= |m|
    ensures UniqueKeys(m[..n])
    ensures forall j :: n <= j < |m| ==> m[j].0 !in Keys(m[..n])
  {
    if n > 0 {
      UniqueKeysPrefix(m[1..], n - 1);
      assert m[1..][..n - 1] == m[..n][1..];
      assert m[0].0 !in Keys(m[..n][1..]) by {
        KeysIndex(m[1..]);
        KeysIndex(m[..n][1..]);
      }
      forall j | n <= j < |m| ensures m[j].0 !in Keys(m[..n]) {
        assert m[1..][j - 1] == m[j];
        KeysIndex(m[1..]);
        assert Keys(m[1..])[j - 1] == m[j].0;
      }
    }
  }

  /** Assigning entries in turn keeps the keys unique and adds exactly the entries' keys. */
  lemma {:induction false} PutAllKeys<V>(m: OrderedMap<V>, entries: seq<(string, V)>, w: string)
    requires UniqueKeys(m)
    ensures UniqueKeys(PutAll(m, entries))
    ensures w in Keys(PutAll(m, entries)) <==> w in Keys(m) || w in Keys(entries)
  {
    if entries != [] {
      var n := |entries| - 1;
      var init := entries[..n];
      PutAllKeys(m, init, w);
      PutUnique(PutAll(m, init), entries[n].0, entries[n].1);
      PutKeySet(PutAll(m, init), entries[n].0, entries[n].1, w);
      KeysAppend(init, [entries[n]]);
      assert entries == init + [entries[n]];
    }
  }

  /** Fresh, distinct keys are appended in order. */
  lemma {:induction false} PutAllFresh<V>(m: OrderedMap<V>, entries: seq<(string, V)>)
    requires UniqueKeys(m + entries)
    ensures PutAll(m, entries) == m + entries
  {
    if entries != [] {
      var n := |entries| - 1;
      var init := entries[..n];
      var all := m + entries;
      assert UniqueKeys(m + init) && entries[n].0 !in Keys(m + init) by {
        assert all[..|m| + n] == m + init;
        assert all[|m| + n] == entries[n];
        UniqueKeysPrefix(all, |m| + n);
      }
      PutAllFresh(m, init);
      PutKeys(m + init, entries[n].0, entries[n].1);
      assert entries == init + [entries[n]];
      assert m + entries == (m + init) + [entries[n]];
    }
  }
}
