/**
 * The in-process cache tier (`LRUCache` and its cache-aside use in indexer/src/cacheLayer.js).
 * A JavaScript Map is its keys in insertion order together with what they map to.
 */
module Lru {
  import opened Wrappers

  datatype Entry<V> = Entry(value: V, expiresAt: int, computeMs: nat)

  datatype Cache<V> = Cache(order: seq<string>, entries: map<string, Entry<V>>)

  // ---------- what each operation does ----------

  function Unless(x: string, drop: bool): seq<string> {
    if drop then [] else [x]
  }

  function Without(s: seq<string>, k: string): seq<string> {
    if s == [] then [] else Unless(s[0], s[0] == k) + Without(s[1..], k)
  }

  function Remove<V>(c: Cache<V>, k: string): Cache<V> {
    Cache(Without(c.order, k), c.entries - {k})
  }

  function Append<V>(c: Cache<V>, k: string, e: Entry<V>): Cache<V> {
    Cache(c.order + [k], c.entries[k := e])
  }

  function GetFrom<V>(c: Cache<V>, k: string, now: int): (Cache<V>, Option<Entry<V>>) {
    if k !in c.entries then (c, None)
    else if now > c.entries[k].expiresAt then (Remove(c, k), None)
    else (Append(Remove(c, k), k, c.entries[k]), Some(c.entries[k]))
  }

  function Evict<V>(maxSize: nat, c: Cache<V>): Cache<V> {
    if |c.order| >= maxSize && c.order != [] then Remove(c, c.order[0]) else c
  }

  function SetIn<V>(c: Cache<V>, maxSize: nat, k: string, e: Entry<V>): Cache<V> {
    Append(Evict(maxSize, Remove(c, k)), k, e)
  }

  /** What a pattern removes: a non-empty prefix before a final star, otherwise the one key that equals it. */
  predicate Hits(pattern: string, key: string) {
    if |pattern| > 1 && pattern[|pattern| - 1] == '*' then pattern[..|pattern| - 1] <= key else key == pattern
  }

  function DropAll(s: seq<string>, pattern: string): seq<string> {
    if s == [] then [] else Unless(s[0], Hits(pattern, s[0])) + DropAll(s[1..], pattern)
  }

  function RemoveAll<V>(c: Cache<V>, pattern: string): Cache<V> {
    Cache(DropAll(c.order, pattern), map k | k in c.entries && !Hits(pattern, k) :: c.entries[k])
  }

  predicate Distinct(s: seq<string>) {
    forall i, j :: 0 <= i < j < |s| ==> s[i] != s[j]
  }

  ghost predicate WellFormed<V>(c: Cache<V>) {
    Distinct(c.order) && forall k :: k in c.order <==> k in c.entries
  }

  lemma {:induction false} WithoutMember(s: seq<string>, k: string, x: string)
    ensures x in Without(s, k) <==> x in s && x != k
  {
    if s != [] {
      WithoutMember(s[1..], k, x);
      assert s == [s[0]] + s[1..];
    }
  }

  lemma {:induction false} WithoutAbsent(s: seq<string>, k: string)
    requires k !in s
    ensures Without(s, k) == s
  {
    if s != [] {
      WithoutAbsent(s[1..], k);
      assert s == [s[0]] + s[1..];
    }
  }

  lemma {:induction false} WithoutConcat(a: seq<string>, b: seq<string>, k: string)
    ensures Without(a + b, k) == Without(a, k) + Without(b, k)
  {
    if a == [] {
      assert a + b == b;
    } else {
      assert (a + b)[1..] == a[1..] + b;
      WithoutConcat(a[1..], b, k);
      var x, r, t := Unless(a[0], a[0] == k), Without(a[1..], k), Without(b, k);
      assert x + (r + t) == x + r + t;
    }
  }

  /** Taking out the one occurrence of a key closes the gap and changes nothing else. */
  lemma TakeOut(a: seq<string>, k: string, b: seq<string>)
    requires k !in a && k !in b
    ensures Without(a + ([k] + b), k) == a + b
  {
    assert ([k] + b)[1..] == b;
    assert Without([k] + b, k) == Without(b, k);
    hide Without;
    WithoutConcat(a, [k] + b, k);
    WithoutAbsent(a, k);
    WithoutAbsent(b, k);
  }

  lemma WithoutAt(s: seq<string>, i: nat)
    requires Distinct(s) && i < |s|
    ensures Without(s, s[i]) == s[..i] + s[i + 1..]
  {
    hide Without;
    assert s == s[..i] + ([s[i]] + s[i + 1..]);
    assert s[i] !in s[..i] && s[i] !in s[i + 1..];
    TakeOut(s[..i], s[i], s[i + 1..]);
  }

  lemma WithoutKeeps(s: seq<string>, k: string)
    requires Distinct(s)
    ensures Distinct(Without(s, k))
    ensures |Without(s, k)| == if k in s then |s| - 1 else |s|
    ensures forall x :: x in Without(s, k) <==> x in s && x != k
  {
    forall x
      ensures x in Without(s, k) <==> x in s && x != k
    {
      WithoutMember(s, k, x);
    }
    if k in s {
      var i :| 0 <= i < |s| && s[i] == k;
      WithoutAt(s, i);
    } else {
      WithoutAbsent(s, k);
    }
  }

  lemma {:induction false} DropAllAppend(s: seq<string>, k: string, pattern: string)
    ensures DropAll(s + [k], pattern) == DropAll(s, pattern) + Unless(k, Hits(pattern, k))
  {
    hide Hits;
    if s == [] {
      assert s + [k] == [k];
    } else {
      assert (s + [k])[1..] == s[1..] + [k];
      DropAllAppend(s[1..], k, pattern);
      var x, r, t := Unless(s[0], Hits(pattern, s[0])), DropAll(s[1..], pattern), Unless(k, Hits(pattern, k));
      assert x + (r + t) == x + r + t;
    }
  }

  lemma DropNone(pattern: string)
    ensures DropAll([], pattern) == []
  {
  }

  lemma {:induction false} DropAllMember(s: seq<string>, pattern: string, k: string)
    ensures k in DropAll(s, pattern) ==> k in s
  {
    if s != [] {
      DropAllMember(s[1..], pattern, k);
      assert s == [s[0]] + s[1..];
    }
  }

  lemma DropStep(keys: seq<string>, i: nat, pattern: string)
    requires Distinct(keys) && i < |keys|
    ensures
      var before := DropAll(keys[..i], pattern) + keys[i..];
      DropAll(keys[..i + 1], pattern) + keys[i + 1..]
      == if Hits(pattern, keys[i]) then Without(before, keys[i]) else before
  {
    hide DropAll, Hits, Without;
    var done, k, rest := DropAll(keys[..i], pattern), keys[i], keys[i + 1..];
    assert keys[..i + 1] == keys[..i] + [k] && keys[i..] == [k] + rest;
    assert k !in keys[..i] && k !in rest;
    DropAllAppend(keys[..i], k, pattern);
    DropAllMember(keys[..i], pattern, k);
    TakeOut(done, k, rest);
    assert done + [k] + rest == done + ([k] + rest);
    assert done + [] + rest == done + rest;
  }

  /** The cache when `deletePattern` has gone through the first `i` of the keys it found. */
  function PartlyRemoved<V>(c: Cache<V>, i: nat, pattern: string): Cache<V>
    requires i <= |c.order|
  {
    Cache(DropAll(c.order[..i], pattern) + c.order[i..], Kept(c.entries, c.order[..i], pattern))
  }

  lemma RemovalStep<V>(c: Cache<V>, i: nat, pattern: string)
    requires WellFormed(c) && i < |c.order|
    ensures
      var before := PartlyRemoved(c, i, pattern);
      PartlyRemoved(c, i + 1, pattern) == if Hits(pattern, c.order[i]) then Remove(before, c.order[i]) else before
  {
    hide DropAll, Kept, Hits, Without;
    DropStep(c.order, i, pattern);
    KeptStep(c.entries, c.order[..i], c.order[i], pattern);
    assert c.order[..i + 1] == c.order[..i] + [c.order[i]];
  }

  lemma RemovalEnds<V>(c: Cache<V>, pattern: string)
    requires WellFormed(c)
    ensures PartlyRemoved(c, 0, pattern) == c && PartlyRemoved(c, |c.order|, pattern) == RemoveAll(c, pattern)
  {
    DropNone(pattern);
    hide DropAll, Hits;
    KeptEnds(c, pattern);
    var keys := c.order;
    assert keys[..0] == [] && [] + keys[0..] == keys;
    assert keys[..|keys|] == keys && DropAll(keys, pattern) + [] == DropAll(keys, pattern);
  }

  /** The entries left when the pattern has been applied to the keys in `keys`. */
  function Kept<V>(entries: map<string, Entry<V>>, keys: seq<string>, pattern: string): map<string, Entry<V>> {
    map k | k in entries && !(k in keys && Hits(pattern, k)) :: entries[k]
  }

  lemma KeptStep<V>(entries: map<string, Entry<V>>, keys: seq<string>, k: string, pattern: string)
    ensures Kept(entries, keys + [k], pattern)
         == if Hits(pattern, k) then Kept(entries, keys, pattern) - {k} else Kept(entries, keys, pattern)
  {
    hide Hits;
  }

  lemma KeptEnds<V>(c: Cache<V>, pattern: string)
    requires WellFormed(c)
    ensures Kept(c.entries, [], pattern) == c.entries
    ensures Kept(c.entries, c.order, pattern) == RemoveAll(c, pattern).entries
  {
    hide Hits;
  }

  class LRUCache<V> {
    const maxSize: nat
    var cache: Cache<V>

    ghost predicate Valid()
      reads this
    {
      WellFormed(cache)
    }

    constructor (maxSize: nat)
      ensures Valid() && cache == Cache([], map[]) && this.maxSize == maxSize
    {
      this.maxSize, cache := maxSize, Cache([], map[]);
    }

    method MapDelete(k: string)
      requires Valid()
      modifies this
      ensures Valid() && cache == Remove(old(cache), k)
    {
      WithoutKeeps(cache.order, k);
      cache := Remove(cache, k);
    }

    method MapSet(k: string, e: Entry<V>)
      requires Valid()
      modifies this
      ensures Valid() && k in cache.entries
      ensures k !in old(cache).entries ==> cache == Append(old(cache), k, e)
      ensures k in old(cache).entries ==> cache == Cache(old(cache).order, old(cache).entries[k := e])
    {
      var order := if k in cache.entries then cache.order else cache.order + [k];
      cache := Cache(order, cache.entries[k := e]);
    }

    method Get(k: string, now: int) returns (r: Option<Entry<V>>)
      requires Valid()
      modifies this
      ensures Valid() && (cache, r) == GetFrom(old(cache), k, now)
    {
      if k !in cache.entries { return None; }
      var entry := cache.entries[k];
      MapDelete(k);
      if now > entry.expiresAt { return None; }
      MapSet(k, entry);
      r := Some(entry);
    }

    method Set(k: string, value: V, now: int, ttlMs: nat, computeMs: nat)
      requires Valid()
      modifies this
      ensures Valid() && cache == SetIn(old(cache), maxSize, k, Entry(value, now + ttlMs, computeMs))
    {
      MapDelete(k);
      WithoutKeeps(old(cache).order, k);
      if |cache.order| >= maxSize && |cache.order| > 0 {
        WithoutKeeps(cache.order, cache.order[0]);
        MapDelete(cache.order[0]);
      }
      MapSet(k, Entry(value, now + ttlMs, computeMs));
    }

    method DeletePattern(pattern: string)
      requires Valid()
      modifies this
      ensures Valid() && cache == RemoveAll(old(cache), pattern)
    {
      hide PartlyRemoved, RemoveAll, Remove, Hits;
      var keys := cache.order;
      RemovalEnds(cache, pattern);
      for i := 0 to |keys|
        invariant Valid()
        invariant cache == PartlyRemoved(old(cache), i, pattern)
      {
        RemovalStep(old(cache), i, pattern);
        if Hits(pattern, keys[i]) {
          MapDelete(keys[i]);
        }
      }
    }

    method CacheAside(k: string, loaded: Option<V>, now: int, ttlMs: nat, computeMs: nat) returns (r: Option<V>)
      requires Valid()
      modifies this
      ensures Valid()
      ensures (cache, r) == AsideOn(old(cache), maxSize, Access(k, loaded, now, ttlMs, computeMs))
      ensures
        var alive := k in old(cache).entries && now <= old(cache).entries[k].expiresAt;
        && r == (if alive then Some(old(cache).entries[k].value) else loaded)
        && (alive ==> k in cache.entries && cache.entries[k] == old(cache).entries[k])
        && (!alive && loaded.Some? ==> k in cache.entries && cache.entries[k] == Entry(loaded.value, now + ttlMs, computeMs))
        && (!alive && loaded.None? ==> k !in cache.entries)
    {
      var hit := Get(k, now);
      if hit.Some? { return Some(hit.value.value); }
      if loaded.Some? {
        Set(k, loaded.value, now, ttlMs, computeMs);
      }
      r := loaded;
    }
  }

  /** One cache-aside request, outside the early-recomputation window: `loaded` is what the loader would return. */
  datatype Access<V> = Access(key: string, loaded: Option<V>, now: int, ttlMs: nat, computeMs: nat)

  function AsideOn<V>(c: Cache<V>, maxSize: nat, a: Access<V>): (Cache<V>, Option<V>) {
    var (c', hit) := GetFrom(c, a.key, a.now);
    if hit.Some? then (c', Some(hit.value.value))
    else if a.loaded.None? then (c', None)
    else (SetIn(c', maxSize, a.key, Entry(a.loaded.value, a.now + a.ttlMs, a.computeMs)), a.loaded)
  }
}
