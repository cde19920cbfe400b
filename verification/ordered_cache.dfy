/** The bounded, insertion-ordered message cache of the bot: a Python
    `OrderedDict` together with the capacity check that follows every
    assignment (bot.py, `handle_new_message`).

    An `OrderedDict` is modelled by the sequence of its keys in insertion
    order and a map from keys to values. Assigning to a key that is already
    present replaces its value and keeps its position; only a new key is
    appended at the end. `popitem(last=False)` removes the first key. */
module OrderedCache {
  import opened Wrappers

  /** MAX_CACHE_SIZE of the source. */
  const MaxCacheSize: nat := 100

  /** No element occurs twice. */
  ghost predicate Distinct<K>(s: seq<K>)
  {
    forall i, j :: 0 <= i < j < |s| ==> s[i] != s[j]
  }

  datatype Cache<K, V> = Cache(order: seq<K>, entries: map<K, V>) {

    /** The order lists every key of the map exactly once. */
    ghost predicate Valid()
    {
      && Distinct(order)
      && (forall k :: k in order ==> k in entries)
      && (forall k :: k in entries ==> k in order)
    }

    /** `len(cache)` */
    function Len(): nat
    {
      |order|
    }
  }

  function Empty<K(!new), V>(): (c: Cache<K, V>)
    ensures c.Valid() && c.Len() == 0
  {
    Cache([], map[])
  }

  /** `cache.get(k)` */
  function Get<K(!new), V>(c: Cache<K, V>, k: K): (r: Option<V>)
    ensures r.Some? <==> k in c.entries
    ensures r.Some? ==> r.value == c.entries[k]
  {
    if k in c.entries then Some(c.entries[k]) else None
  }

  /** `cache[k] = v`: overwrite in place, or append a new key at the end. */
  function Put<K(!new), V>(c: Cache<K, V>, k: K, v: V): (r: Cache<K, V>)
    ensures k in r.entries && r.entries[k] == v
    ensures forall k' :: k' != k ==> (k' in r.entries <==> k' in c.entries)
    ensures forall k' :: k' != k && k' in c.entries ==> r.entries[k'] == c.entries[k']
    ensures k in c.entries ==> r.order == c.order
    ensures k !in c.entries ==> r.order == c.order + [k]
    ensures c.Valid() ==> r.Valid()
  {
    if k in c.entries then Cache(c.order, c.entries[k := v])
    else Cache(c.order + [k], c.entries[k := v])
  }

  /** `cache.popitem(last=False)`: drop the oldest-inserted entry. */
  function PopOldest<K(!new), V>(c: Cache<K, V>): (r: Cache<K, V>)
    requires c.Len() > 0
    ensures r.order == c.order[1..]
    ensures c.Valid() ==> r.Valid() && c.order[0] !in r.entries
    ensures forall k :: k in r.entries ==> k in c.entries && r.entries[k] == c.entries[k]
    ensures forall k :: k in c.entries && k != c.order[0] ==> k in r.entries
  {
    Cache(c.order[1..], c.entries - {c.order[0]})
  }

  /** Lines 80-83 of `handle_new_message`: store, then evict the oldest
      entry if the cache has grown beyond its capacity. */
  function Record<K(!new), V>(c: Cache<K, V>, k: K, v: V): (r: Cache<K, V>)
    // the capacity bound is preserved and the recorded key is present
    ensures c.Valid() && c.Len() <= MaxCacheSize ==>
      && r.Valid() && r.Len() <= MaxCacheSize
      && k in r.entries && r.entries[k] == v
    // no entry other than `k` ever gets a new value
    ensures forall k' :: k' != k && k' in r.entries ==> k' in c.entries && r.entries[k'] == c.entries[k']
  {
    var c1 := Put(c, k, v);
    if c1.Len() > MaxCacheSize then PopOldest(c1) else c1
  }

  /** Re-recording a present key replaces its value only: same order, same size. */
  lemma RecordPresentKey<K(!new), V>(c: Cache<K, V>, k: K, v: V)
    requires c.Valid() && c.Len() <= MaxCacheSize && k in c.entries
    ensures Record(c, k, v).order == c.order
    ensures Record(c, k, v).entries == c.entries[k := v]
  {
  }

  /** A new key in a cache below capacity is appended; nothing is evicted. */
  lemma RecordNewKeyBelowCapacity<K(!new), V>(c: Cache<K, V>, k: K, v: V)
    requires c.Valid() && k !in c.entries && c.Len() < MaxCacheSize
    ensures Record(c, k, v).order == c.order + [k]
    ensures Record(c, k, v).entries == c.entries[k := v]
  {
  }

  /** A new key in a full cache evicts exactly the oldest-inserted key and
      leaves every other entry, and the relative order, unchanged. */
  lemma RecordNewKeyAtCapacity<K(!new), V>(c: Cache<K, V>, k: K, v: V)
    requires c.Valid() && k !in c.entries && c.Len() == MaxCacheSize
    ensures Record(c, k, v).order == c.order[1..] + [k]
    ensures c.order[0] !in Record(c, k, v).entries
    ensures Record(c, k, v).entries == (c.entries - {c.order[0]})[k := v]
  {
    var c1 := Put(c, k, v);
    assert c1.order[0] == c.order[0];
    assert c1.order[1..] == c.order[1..] + [k];
  }

  /** Recording a sequence of (key, value) pairs in order. */
  function RecordAll<K(!new), V>(c: Cache<K, V>, items: seq<(K, V)>): Cache<K, V>
    decreases |items|
  {
    if items == [] then c
    else
      var last := items[|items| - 1];
      Record(RecordAll(c, items[..|items| - 1]), last.0, last.1)
  }

  function KeysOf<K(!new), V>(items: seq<(K, V)>): (ks: seq<K>)
    ensures |ks| == |items|
    ensures forall i :: 0 <= i < |items| ==> ks[i] == items[i].0
  {
    seq(|items|, i requires 0 <= i < |items| => items[i].0)
  }

  /** Index of the first of the `MaxCacheSize` newest among `n` keys. */
  function WindowStart(n: nat): (i: nat)
    ensures i <= n && n - i <= MaxCacheSize
    ensures n > MaxCacheSize ==> n - i == MaxCacheSize
    ensures n <= MaxCacheSize ==> i == 0
  {
    if n > MaxCacheSize then n - MaxCacheSize else 0
  }

  /** No element occurs twice, stated from the end of the sequence so that
      it unfolds one insertion at a time. */
  predicate NoRepeats<K(==)>(s: seq<K>)
    decreases |s|
  {
    |s| == 0 || (s[|s| - 1] !in s[..|s| - 1] && NoRepeats(s[..|s| - 1]))
  }

  /** `NoRepeats` and `Distinct` are the same notion, stated from the end
      and pairwise. */
  lemma {:induction false} NoRepeatsIffDistinct<K>(s: seq<K>)
    ensures NoRepeats(s) <==> Distinct(s)
    decreases |s|
  {
    if |s| > 0 {
      var n := |s|;
      var front := s[..n - 1];
      NoRepeatsIffDistinct(front);
      if Distinct(s) {
        forall i | 0 <= i < n - 1 ensures front[i] != s[n - 1] {
          assert front[i] == s[i];
        }
      }
      if NoRepeats(s) {
        forall i, j | 0 <= i < j < n ensures s[i] != s[j] {
          assert s[i] == front[i];
          if j < n - 1 {
            assert s[j] == front[j];
          }
        }
      }
    }
  }

  /** Recording fresh, pairwise distinct keys keeps exactly the newest
      `MaxCacheSize` keys, in insertion order, the oldest evicted first. */
  lemma {:induction false} RecordAllKeepsNewest<K(!new), V>(c: Cache<K, V>, items: seq<(K, V)>)
    requires c.Valid() && c.Len() <= MaxCacheSize
    requires NoRepeats(c.order + KeysOf(items))
    ensures RecordAll(c, items).Valid()
    ensures var all := c.order + KeysOf(items);
      RecordAll(c, items).order == all[WindowStart(|all|)..]
    decreases |items|
  {
    if items == [] {
      assert RecordAll(c, items) == c;
      assert c.order + KeysOf(items) == c.order;
    } else {
      var n := |items|;
      var prefix := items[..n - 1];
      var k := items[n - 1].0;
      var v := items[n - 1].1;
      KeysOfSnoc(c.order, items);
      RecordAllKeepsNewest(c, prefix);
      RecordAllSnoc(c, items);
      RecordNewestStep(RecordAll(c, prefix), c.order + KeysOf(prefix), k, v);
    }
  }

  /** One step of `RecordAllKeepsNewest`: a cache holding the newest keys of
      `all` records one more fresh key. */
  lemma RecordNewestStep<K(!new), V>(r: Cache<K, V>, all: seq<K>, k: K, v: V)
    requires r.Valid() && r.Len() <= MaxCacheSize
    requires r.order == all[WindowStart(|all|)..]
    requires k !in all
    ensures Record(r, k, v).Valid()
    ensures Record(r, k, v).order == (all + [k])[WindowStart(|all + [k]|)..]
  {
    SuffixMembership(all, WindowStart(|all|), k);
    RecordFreshKey(r, k, v);
    WindowSlides(all, k);
  }

  lemma KeysOfSnoc<K(!new), V>(front: seq<K>, items: seq<(K, V)>)
    requires |items| > 0
    ensures var all := front + KeysOf(items);
      && all == (front + KeysOf(items[..|items| - 1])) + [items[|items| - 1].0]
      && all[..|all| - 1] == front + KeysOf(items[..|items| - 1])
      && all[|all| - 1] == items[|items| - 1].0
  {
    assert KeysOf(items) == KeysOf(items[..|items| - 1]) + [items[|items| - 1].0];
  }

  /** Recording a key absent from a valid cache within capacity. */
  lemma RecordFreshKey<K(!new), V>(c: Cache<K, V>, k: K, v: V)
    requires c.Valid() && c.Len() <= MaxCacheSize && k !in c.order
    ensures Record(c, k, v).Valid()
    ensures Record(c, k, v).order == if c.Len() < MaxCacheSize then c.order + [k] else c.order[1..] + [k]
  {
    if c.Len() < MaxCacheSize {
      RecordNewKeyBelowCapacity(c, k, v);
    } else {
      RecordNewKeyAtCapacity(c, k, v);
    }
  }

  /** Appending one key slides the window of the newest keys by at most one. */
  lemma WindowSlides<K>(s: seq<K>, k: K)
    ensures var w := s[WindowStart(|s|)..];
      (if |w| < MaxCacheSize then w + [k] else w[1..] + [k]) == (s + [k])[WindowStart(|s| + 1)..]
  {
  }

  lemma RecordAllSnoc<K(!new), V>(c: Cache<K, V>, items: seq<(K, V)>)
    requires |items| > 0
    ensures RecordAll(c, items) ==
      Record(RecordAll(c, items[..|items| - 1]), items[|items| - 1].0, items[|items| - 1].1)
  {
  }

  lemma SuffixMembership<K>(s: seq<K>, i: nat, k: K)
    requires i <= |s| && k !in s
    ensures k !in s[i..]
  {
  }

  /** Every recorded key that survives holds the value recorded last for it. */
  lemma {:induction false} RecordAllKeepsLatestValues<K(!new), V>(c: Cache<K, V>, items: seq<(K, V)>, j: nat)
    requires j < |items|
    requires forall i :: j < i < |items| ==> items[i].0 != items[j].0
    requires items[j].0 in RecordAll(c, items).entries
    ensures RecordAll(c, items).entries[items[j].0] == items[j].1
    decreases |items|
  {
    var n := |items|;
    var prefix := items[..n - 1];
    if j < n - 1 {
      assert prefix[j] == items[j];
      RecordAllKeepsLatestValues(c, prefix, j);
    }
  }
}
