/**
  The `LinkedHashMap` both servlets fill with one index per record. Its
  iteration order is insertion order; `put` on a key already present replaces
  the value where the entry stands. Keys are compared with `==`, which for
  `MetricRecord` (no `equals` override, MetricRecord.java:74) is object identity.
*/
module LinkedMaps {
  import opened Optional

  datatype Entry<K, V> = Entry(key: K, value: V)

  function Keys<K, V>(es: seq<Entry<K, V>>): (ks: seq<K>)
    ensures |ks| == |es|
    ensures forall i :: 0 <= i < |es| ==> ks[i] == es[i].key
  {
    seq(|es|, i requires 0 <= i < |es| => es[i].key)
  }

  /** No key occurs twice; `PutEntry` keeps this. */
  predicate UniqueKeys<K(==), V>(es: seq<Entry<K, V>>) {
    forall i, j :: 0 <= i < j < |es| ==> es[i].key != es[j].key
  }

  /** `get`: the value stored for `k`, if any. */
  function Get<K(==), V>(es: seq<Entry<K, V>>, k: K): (r: Option<V>)
    ensures r.Some? <==> k in Keys(es)
  {
    if es == [] then None
    else if es[0].key == k then Some(es[0].value)
    else
      assert Keys(es) == [es[0].key] + Keys(es[1..]);
      Get(es[1..], k)
  }

  /** `put`: overwrite the entry of `k` in place, or append a new entry at the end. */
  function PutEntry<K(==), V>(es: seq<Entry<K, V>>, k: K, v: V): (r: seq<Entry<K, V>>)
    ensures |r| == if k in Keys(es) then |es| else |es| + 1
  {
    if es == [] then [Entry(k, v)]
    else if es[0].key == k then [Entry(k, v)] + es[1..]
    else
      assert Keys(es) == [es[0].key] + Keys(es[1..]);
      [es[0]] + PutEntry(es[1..], k, v)
  }

  /** A new key goes to the end: insertion order is iteration order. */
  lemma {:induction false} PutNewKeyAppends<K, V>(es: seq<Entry<K, V>>, k: K, v: V)
    requires k !in Keys(es)
    ensures PutEntry(es, k, v) == es + [Entry(k, v)]
  {
    if es != [] {
      assert Keys(es) == [es[0].key] + Keys(es[1..]);
      PutNewKeyAppends(es[1..], k, v);
      assert es == [es[0]] + es[1..];
    }
  }

  lemma KeysCons<K, V>(e: Entry<K, V>, es: seq<Entry<K, V>>)
    ensures Keys([e] + es) == [e.key] + Keys(es)
  {
    assert |Keys([e] + es)| == |[e.key] + Keys(es)|;
  }

  /** A key already present keeps its position; only its value changes. */
  lemma {:induction false} PutExistingKeyKeepsOrder<K, V>(es: seq<Entry<K, V>>, k: K, v: V)
    requires k in Keys(es)
    ensures Keys(PutEntry(es, k, v)) == Keys(es)
  {
    assert es == [es[0]] + es[1..];
    KeysCons(es[0], es[1..]);
    if es[0].key == k {
      KeysCons(Entry(k, v), es[1..]);
    } else {
      assert k in Keys(es[1..]);
      PutExistingKeyKeepsOrder(es[1..], k, v);
      KeysCons(es[0], PutEntry(es[1..], k, v));
    }
  }

  /** After `put(k, v)`, `get(k)` is `v` and every other key reads as before. */
  lemma {:induction false} PutThenGet<K, V>(es: seq<Entry<K, V>>, k: K, v: V, k': K)
    ensures Get(PutEntry(es, k, v), k') == if k' == k then Some(v) else Get(es, k')
  {
    if es != [] && es[0].key != k {
      PutThenGet(es[1..], k, v, k');
      assert PutEntry(es, k, v)[1..] == PutEntry(es[1..], k, v);
    }
  }

  /** `put` never creates a duplicate key. */
  lemma {:induction false} PutKeepsUniqueKeys<K, V>(es: seq<Entry<K, V>>, k: K, v: V)
    requires UniqueKeys(es)
    ensures UniqueKeys(PutEntry(es, k, v))
  {
    if k in Keys(es) {
      PutExistingKeyKeepsOrder(es, k, v);
      var r := PutEntry(es, k, v);
      assert Keys(r) == Keys(es);
      forall i, j | 0 <= i < j < |r|
        ensures r[i].key != r[j].key
      {
        assert r[i].key == Keys(r)[i] && r[j].key == Keys(r)[j];
      }
    } else {
      PutNewKeyAppends(es, k, v);
    }
  }

  /** The map after a sequence of `put`s, in order. */
  function PutAll<K(==), V>(es: seq<Entry<K, V>>, news: seq<Entry<K, V>>): seq<Entry<K, V>> {
    if news == [] then es
    else
      var last := news[|news| - 1];
      PutEntry(PutAll(es, news[..|news| - 1]), last.key, last.value)
  }

  /** One more `put` extends the run by the next entry. */
  lemma PutAllPrefix<K, V>(es: seq<Entry<K, V>>, news: seq<Entry<K, V>>, i: nat)
    requires i < |news|
    ensures PutAll(es, news[..i + 1]) == PutEntry(PutAll(es, news[..i]), news[i].key, news[i].value)
  {
    assert news[..i + 1][..i] == news[..i];
  }

  lemma PutAllSnoc<K, V>(es: seq<Entry<K, V>>, news: seq<Entry<K, V>>, e: Entry<K, V>)
    ensures PutAll(es, news + [e]) == PutEntry(PutAll(es, news), e.key, e.value)
  {
    assert (news + [e])[..|news|] == news;
  }

  /** Two runs of `put`s on one map are one run over both sequences. */
  lemma {:induction false} PutAllAppend<K, V>(es: seq<Entry<K, V>>, a: seq<Entry<K, V>>, b: seq<Entry<K, V>>)
    ensures PutAll(PutAll(es, a), b) == PutAll(es, a + b)
  {
    if b != [] {
      var n := |b| - 1;
      PutAllAppend(es, a, b[..n]);
      assert b == b[..n] + [b[n]];
      assert a + b == (a + b[..n]) + [b[n]];
      PutAllSnoc(PutAll(es, a), b[..n], b[n]);
      PutAllSnoc(es, a + b[..n], b[n]);
    } else {
      assert a + b == a;
    }
  }

  /** `put`s of distinct keys that are all new simply append, in order. */
  lemma {:induction false} PutAllFreshKeys<K, V>(es: seq<Entry<K, V>>, news: seq<Entry<K, V>>)
    requires UniqueKeys(news)
    requires forall i :: 0 <= i < |news| ==> news[i].key !in Keys(es)
    ensures PutAll(es, news) == es + news
  {
    if news != [] {
      var n := |news| - 1;
      var init := news[..n];
      assert UniqueKeys(init);
      PutAllFreshKeys(es, init);
      var prefix := es + init;
      assert Keys(prefix) == Keys(es) + Keys(init);
      assert news[n].key !in Keys(prefix);
      PutNewKeyAppends(prefix, news[n].key, news[n].value);
      assert news == init + [news[n]];
    }
  }

  /** The map object: its entries in iteration order. */
  class LinkedMap<K(==), V> {
    var entries: seq<Entry<K, V>>

    /** A `LinkedHashMap` never holds a key twice. */
    ghost predicate Valid()
      reads this
    {
      UniqueKeys(entries)
    }

    constructor ()
      ensures Valid() && entries == []
    {
      entries := [];
    }

    method Put(k: K, v: V)
      requires Valid()
      modifies this
      ensures Valid()
      ensures entries == PutEntry(old(entries), k, v)
    {
      PutKeepsUniqueKeys(entries, k, v);
      entries := PutEntry(entries, k, v);
    }
  }
}
