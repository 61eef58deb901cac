/**
 * The response cache of the full-deck path: a bounded store of
 * `(value, expiry)` entries with a time-to-live and first-in-first-out
 * eviction.
 *
 * The store is a sequence of key/entry pairs in insertion order, as a Python
 * dict keeps them: assigning to a present key updates its entry in place,
 * a new key goes to the end, and eviction pops from the front. Time is an
 * integer the caller passes in; `enabled`, `ttl` and `maxSize` are settings
 * passed alongside the store.
 */
module ResponseCache {
  import opened Wrappers

  datatype Config = Config(enabled: bool, ttl: int, maxSize: int)

  /** A stored value and the last instant at which it is still served. */
  datatype Entry<V> = Entry(value: V, expiry: int)

  type Cache<K, V> = seq<(K, Entry<V>)>

  function Keys<K, V>(c: Cache<K, V>): (ks: seq<K>)
    ensures |ks| == |c|
    ensures forall i | 0 <= i < |c| :: ks[i] == c[i].0
  {
    seq(|c|, i requires 0 <= i < |c| => c[i].0)
  }

  /** No key occurs twice: the invariant a dict keeps. */
  predicate Distinct<K(==), V>(c: Cache<K, V>) {
    forall i, j | 0 <= i < j < |c| :: c[i].0 != c[j].0
  }

  /** The entry stored under `k` (the first one, which under `Distinct` is the
      only one): the dict's view of the store. */
  function EntryOf<K(==), V>(c: Cache<K, V>, k: K): (r: Option<Entry<V>>)
    ensures r.None? <==> k !in Keys(c)
  {
    if c == [] then None
    else if c[0].0 == k then Some(c[0].1)
    else
      assert Keys(c) == [c[0].0] + Keys(c[1..]);
      EntryOf(c[1..], k)
  }

  /** The store with every pair under `k` left out, the rest in order. */
  function Without<K(==), V>(c: Cache<K, V>, k: K): (r: Cache<K, V>)
    ensures k !in Keys(r)
    ensures |r| <= |c|
  {
    if c == [] then []
    else if c[0].0 == k then Without(c[1..], k)
    else
      var rest := Without(c[1..], k);
      assert Keys([c[0]] + rest) == [c[0].0] + Keys(rest);
      [c[0]] + rest
  }

  /** Leaving out a key distributes over concatenation. */
  lemma {:induction false} WithoutAppend<K, V>(a: Cache<K, V>, b: Cache<K, V>, k: K)
    ensures Without(a + b, k) == Without(a, k) + Without(b, k)
    decreases |a|
  {
    if a != [] {
      assert (a + b)[1..] == a[1..] + b;
      WithoutAppend(a[1..], b, k);
    } else {
      assert a + b == b;
    }
  }

  /** Leaving out an absent key changes nothing. */
  lemma {:induction false} WithoutAbsent<K, V>(c: Cache<K, V>, k: K)
    requires k !in Keys(c)
    ensures Without(c, k) == c
    decreases |c|
  {
    if c != [] {
      assert Keys(c) == [c[0].0] + Keys(c[1..]);
      WithoutAbsent(c[1..], k);
    }
  }

  /** The position of `k`, found by scanning from the oldest pair. */
  function IndexOf<K(==), V>(c: Cache<K, V>, k: K): (r: Option<nat>)
    ensures r.None? <==> k !in Keys(c)
    ensures r.Some? ==> r.value < |c| && c[r.value].0 == k
    ensures r.Some? ==> k !in Keys(c[..r.value])
  {
    if c == [] then None
    else if c[0].0 == k then Some(0)
    else
      assert Keys(c) == [c[0].0] + Keys(c[1..]);
      match IndexOf(c[1..], k)
      case None => None
      case Some(i) =>
        assert Keys(c[..i + 1]) == [c[0].0] + Keys(c[1..][..i]);
        Some(i + 1)
  }

  /** The position found holds the entry the dict view reports. */
  lemma IndexOfFindsEntry<K, V>(c: Cache<K, V>, k: K)
    requires IndexOf(c, k).Some?
    ensures EntryOf(c, k) == Some(c[IndexOf(c, k).value].1)
    decreases |c|
  {
    if c[0].0 != k {
      assert Keys(c) == [c[0].0] + Keys(c[1..]);
      IndexOfFindsEntry(c[1..], k);
    }
  }

  /** Under `Distinct`, the key at a position occurs neither before nor
      after it. */
  lemma KeyOnlyAt<K, V>(c: Cache<K, V>, i: nat)
    requires Distinct(c) && i < |c|
    ensures c[i].0 !in Keys(c[..i]) && c[i].0 !in Keys(c[i + 1..])
  {
    var pre, post := c[..i], c[i + 1..];
    assert forall j | 0 <= j < |pre| :: Keys(pre)[j] == c[j].0;
    assert forall j | 0 <= j < |post| :: Keys(post)[j] == c[i + 1 + j].0;
  }

  /** Leaving out a key that occurs once removes just that pair. */
  lemma WithoutAround<K, V>(pre: Cache<K, V>, p: (K, Entry<V>), post: Cache<K, V>)
    requires p.0 !in Keys(pre) && p.0 !in Keys(post)
    ensures Without(pre + ([p] + post), p.0) == pre + post
  {
    var k := p.0;
    WithoutAbsent(pre, k);
    WithoutAbsent(post, k);
    WithoutAppend(pre, [p] + post, k);
    WithoutAppend([p], post, k);
    assert Without([p], k) == [];
  }

  /** Under `Distinct`, deleting the pair at the key's position is the same as
      leaving out every pair under the key. */
  lemma DeleteAtIsWithout<K, V>(c: Cache<K, V>, k: K, i: nat)
    requires Distinct(c)
    requires i < |c| && c[i].0 == k
    ensures c[..i] + c[i + 1..] == Without(c, k)
  {
    assert c == c[..i] + ([c[i]] + c[i + 1..]);
    KeyOnlyAt(c, i);
    WithoutAround(c[..i], c[i], c[i + 1..]);
  }

  /** The outcome of a lookup: the value served, if any, and the store after
      the lookup (which drops an expired entry it finds). */
  datatype Lookup<K, V> = Lookup(found: Option<V>, cache: Cache<K, V>)

  /** `_cache_get`: a miss when caching is off or the key is absent; a miss
      that also deletes the entry when `now` is past its expiry; otherwise
      the stored value, so an entry is still served at `now == expiry`. */
  function Get<K(==), V>(cfg: Config, c: Cache<K, V>, k: K, now: int): (r: Lookup<K, V>)
    requires Distinct(c)
    ensures Distinct(r.cache)
    ensures !cfg.enabled ==> r == Lookup(None, c)
    ensures EntryOf(c, k).None? ==> r == Lookup(None, c)
    ensures cfg.enabled && EntryOf(c, k).Some? && now > EntryOf(c, k).value.expiry
            ==> r == Lookup(None, Without(c, k))
    ensures cfg.enabled && EntryOf(c, k).Some? && now <= EntryOf(c, k).value.expiry
            ==> r == Lookup(Some(EntryOf(c, k).value.value), c)
  {
    if !cfg.enabled then Lookup(None, c)
    else
      match IndexOf(c, k)
      case None => Lookup(None, c)
      case Some(i) =>
        IndexOfFindsEntry(c, k);
        var e := c[i].1;
        if now > e.expiry then
          DeleteAtIsWithout(c, k, i);
          Lookup(None, c[..i] + c[i + 1..])
        else Lookup(Some(e.value), c)
  }

  /** The eviction loop: pops the oldest pair while the store holds at least
      `maxSize` pairs and is not empty. What is left is a suffix of the store:
      empty when `maxSize <= 0`, `maxSize - 1` pairs when the store was at or
      over capacity, the whole store otherwise. */
  function Evict<K, V>(c: Cache<K, V>, maxSize: int): (r: Cache<K, V>)
    ensures |r| <= |c| && r == c[|c| - |r|..]
    ensures |r| == (if maxSize <= 0 then 0 else if |c| >= maxSize then maxSize - 1 else |c|)
  {
    if |c| >= maxSize && |c| > 0 then Evict(c[1..], maxSize) else c
  }

  /** `cache[k] = e` on a dict: a present key keeps its position and gets the
      new entry; a new key is appended. */
  function Put<K(==), V>(c: Cache<K, V>, k: K, e: Entry<V>): (r: Cache<K, V>)
    requires Distinct(c)
    ensures Distinct(r)
    ensures EntryOf(r, k) == Some(e)
    ensures Without(r, k) == Without(c, k)
    ensures Keys(r) == if k in Keys(c) then Keys(c) else Keys(c) + [k]
  {
    match IndexOf(c, k)
    case Some(i) =>
      PutPresent(c, k, e, i);
      c[i := (k, e)]
    case None =>
      PutAbsent(c, k, e);
      c + [(k, e)]
  }

  /** Overwriting a present key in place. */
  lemma PutPresent<K, V>(c: Cache<K, V>, k: K, e: Entry<V>, i: nat)
    requires Distinct(c) && i < |c| && c[i].0 == k
    ensures var r := c[i := (k, e)];
            Distinct(r) && EntryOf(r, k) == Some(e) && Without(r, k) == Without(c, k) && Keys(r) == Keys(c)
  {
    var r := c[i := (k, e)];
    assert Keys(r) == Keys(c);
    KeyOnlyAt(c, i);
    assert IndexOf(r, k) == Some(i) by {
      assert r[..i] == c[..i];
    }
    IndexOfFindsEntry(r, k);
    DeleteAtIsWithout(c, k, i);
    DeleteAtIsWithout(r, k, i);
    assert r[..i] + r[i + 1..] == c[..i] + c[i + 1..];
  }

  /** Appending an absent key. */
  lemma PutAbsent<K, V>(c: Cache<K, V>, k: K, e: Entry<V>)
    requires Distinct(c) && k !in Keys(c)
    ensures var r := c + [(k, e)];
            Distinct(r) && EntryOf(r, k) == Some(e) && Without(r, k) == Without(c, k) && Keys(r) == Keys(c) + [k]
  {
    var r := c + [(k, e)];
    assert Keys(r) == Keys(c) + [k];
    assert Distinct(r) by {
      forall i, j | 0 <= i < j < |r|
        ensures r[i].0 != r[j].0
      {
        if j == |c| {
          assert r[i].0 == Keys(c)[i];
        }
      }
    }
    EntryOfAppended(c, k, e);
    WithoutAppend(c, [(k, e)], k);
    assert Without([(k, e)], k) == [];
    assert Without(c, k) + [] == Without(c, k);
  }

  /** A key appended to a store that lacks it is found with its entry. */
  lemma {:induction false} EntryOfAppended<K, V>(c: Cache<K, V>, k: K, e: Entry<V>)
    requires k !in Keys(c)
    ensures EntryOf(c + [(k, e)], k) == Some(e)
    decreases |c|
  {
    if c != [] {
      assert Keys(c) == [c[0].0] + Keys(c[1..]);
      assert (c + [(k, e)])[1..] == c[1..] + [(k, e)];
      EntryOfAppended(c[1..], k, e);
    }
  }

  /** What eviction keeps of a store without repeated keys has none either. */
  lemma DistinctSuffix<K, V>(c: Cache<K, V>, d: nat)
    requires Distinct(c) && d <= |c|
    ensures Distinct(c[d..])
  {
    forall i, j | 0 <= i < j < |c| - d
      ensures c[d..][i].0 != c[d..][j].0
    {
      assert c[d..][i] == c[d + i] && c[d..][j] == c[d + j];
    }
  }

  /** `_cache_set`: nothing when caching is off; otherwise evict from the
      front, then store `(value, now + ttl)` under `k`. */
  function Set<K(==), V>(cfg: Config, c: Cache<K, V>, k: K, v: V, now: int): (r: Cache<K, V>)
    requires Distinct(c)
    ensures Distinct(r)
    ensures !cfg.enabled ==> r == c
    ensures cfg.enabled ==> EntryOf(r, k) == Some(Entry(v, now + cfg.ttl))
    ensures cfg.enabled ==> Without(r, k) == Without(Evict(c, cfg.maxSize), k)
    ensures cfg.enabled && cfg.maxSize >= 1 ==> |r| <= cfg.maxSize
  {
    if !cfg.enabled then c
    else
      var kept := Evict(c, cfg.maxSize);
      DistinctSuffix(c, |c| - |kept|);
      Put(kept, k, Entry(v, now + cfg.ttl))
  }

  /** Inserting a new key into a full store evicts exactly the oldest pair and
      appends the new one. */
  lemma SetNewKeyAtCapacity<K, V>(cfg: Config, c: Cache<K, V>, k: K, v: V, now: int)
    requires Distinct(c)
    requires cfg.enabled && cfg.maxSize >= 1 && |c| == cfg.maxSize
    requires k !in Keys(c)
    ensures Set(cfg, c, k, v, now) == c[1..] + [(k, Entry(v, now + cfg.ttl))]
  {
    var kept := Evict(c, cfg.maxSize);
    assert kept == c[1..];
    assert Keys(c) == [c[0].0] + Keys(kept);
    assert k !in Keys(kept);
  }

  /** Re-setting the oldest key of a full store evicts that very key and
      re-inserts it at the end, with the new entry. */
  lemma SetOldestKeyAtCapacityMovesIt<K, V>(cfg: Config, c: Cache<K, V>, v: V, now: int)
    requires Distinct(c)
    requires cfg.enabled && cfg.maxSize >= 1 && |c| == cfg.maxSize
    ensures Set(cfg, c, c[0].0, v, now) == c[1..] + [(c[0].0, Entry(v, now + cfg.ttl))]
  {
    var k := c[0].0;
    var kept := Evict(c, cfg.maxSize);
    assert kept == c[1..];
    assert forall j | 0 <= j < |kept| :: kept[j].0 == c[j + 1].0 != k;
    assert k !in Keys(kept);
  }

  /** Re-setting a younger key of a full store still evicts the oldest pair,
      an unrelated one, while the key keeps its position. */
  lemma SetYoungerKeyAtCapacityEvictsOldest<K, V>(cfg: Config, c: Cache<K, V>, i: nat, v: V, now: int)
    requires Distinct(c)
    requires cfg.enabled && cfg.maxSize >= 1 && |c| == cfg.maxSize
    requires 1 <= i < |c|
    ensures Set(cfg, c, c[i].0, v, now) == c[1..][i - 1 := (c[i].0, Entry(v, now + cfg.ttl))]
  {
    var k := c[i].0;
    var kept := Evict(c, cfg.maxSize);
    assert kept == c[1..];
    assert Distinct(kept);
    assert kept[i - 1].0 == k;
    assert IndexOf(kept, k) == Some(i - 1) by {
      var j := IndexOf(kept, k);
      assert j.Some?;
      assert kept[j.value].0 == k;
    }
  }
}
