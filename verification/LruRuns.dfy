/** What holds of the LRU cache over whole runs of operations. */
module LruRuns {
  import opened Lru

  datatype Op<V> =
    | Get(key: string, now: int)
    | Set(key: string, entry: Entry<V>)
    | Delete(key: string)
    | Pattern(pattern: string)

  /**
   * A run: the cache, the unbounded dictionary that the same operations would leave behind, and
   * the keys in the order in which they were touched, that is set or hit.
   */
  datatype Run<V> = Run(cache: Cache<V>, all: map<string, Entry<V>>, touches: seq<string>)

  function Apply<V>(maxSize: nat, r: Run<V>, op: Op<V>): Run<V> {
    match op
    case Get(k, now) =>
      var (c, hit) := GetFrom(r.cache, k, now);
      Run(c, if k in r.all && now > r.all[k].expiresAt then r.all - {k} else r.all,
          if hit.Some? then r.touches + [k] else r.touches)
    case Set(k, e) =>
      Run(SetIn(r.cache, maxSize, k, e), r.all[k := e], r.touches + [k])
    case Delete(k) =>
      Run(if k in r.cache.entries then Remove(r.cache, k) else r.cache, r.all - {k}, r.touches)
    case Pattern(p) =>
      Run(RemoveAll(r.cache, p), map k | k in r.all && !Hits(p, k) :: r.all[k], r.touches)
  }

  function After<V>(maxSize: nat, ops: seq<Op<V>>): Run<V> {
    if ops == [] then Run(Cache([], map[]), map[], [])
    else Apply(maxSize, After(maxSize, ops[..|ops| - 1]), ops[|ops| - 1])
  }

  /** The keys touched since `k` was touched last. */
  function Since(touches: seq<string>, k: string): set<string> {
    if touches == [] then {}
    else if touches[|touches| - 1] == k then {}
    else Since(touches[..|touches| - 1], k) + {touches[|touches| - 1]}
  }

  /** `order` lists keys by their last touch, the most recent one last. */
  ghost predicate ByLastTouch(order: seq<string>, touches: seq<string>) {
    forall i, j :: 0 <= i < j < |order| ==>
      order[j] in Since(touches, order[i]) && order[i] !in Since(touches, order[j])
  }

  ghost predicate Bounded<V>(maxSize: nat, c: Cache<V>) {
    WellFormed(c) && |c.order| <= if maxSize == 0 then 1 else maxSize
  }

  /** The cache holds nothing but what the dictionary holds. */
  ghost predicate Sound<V>(c: Cache<V>, all: map<string, Entry<V>>) {
    forall k :: k in c.entries ==> k in all && all[k] == c.entries[k]
  }

  /** What the dictionary holds and the cache does not has been pushed out by `maxSize` more recent keys. */
  ghost predicate Complete<V>(maxSize: nat, c: Cache<V>, all: map<string, Entry<V>>, touches: seq<string>) {
    forall k :: k in all ==> k in c.entries || |Since(touches, k)| >= maxSize
  }

  ghost predicate Inv<V>(maxSize: nat, r: Run<V>) {
    && Bounded(maxSize, r.cache)
    && Sound(r.cache, r.all)
    && ByLastTouch(r.cache.order, r.touches)
    && Complete(maxSize, r.cache, r.all, r.touches)
  }

  lemma SinceTouch(touches: seq<string>, k: string, x: string)
    ensures Since(touches + [k], x) == if x == k then {} else Since(touches, x) + {k}
  {
    assert (touches + [k])[..|touches|] == touches;
  }

  lemma ByLastTouchWithout(order: seq<string>, k: string, touches: seq<string>)
    requires Distinct(order) && ByLastTouch(order, touches)
    ensures ByLastTouch(Without(order, k), touches)
  {
    if k in order {
      var i :| 0 <= i < |order| && order[i] == k;
      WithoutAt(order, i);
    } else {
      WithoutAbsent(order, k);
    }
    hide Since, Without;
  }

  lemma ByLastTouchAppend(order: seq<string>, k: string, touches: seq<string>)
    requires k !in order && ByLastTouch(order, touches)
    ensures ByLastTouch(order + [k], touches + [k])
  {
  }

  lemma ByLastTouchDrop(order: seq<string>, touches: seq<string>, sub: seq<string>, pattern: string)
    requires ByLastTouch(order, touches) && Distinct(order) && sub == DropAll(order, pattern)
    ensures ByLastTouch(sub, touches)
    decreases |order|
  {
    if order != [] {
      var rest := DropAll(order[1..], pattern);
      ByLastTouchDrop(order[1..], touches, rest, pattern);
      forall j | 0 <= j < |rest|
        ensures rest[j] in Since(touches, order[0]) && order[0] !in Since(touches, rest[j])
      {
        DropAllMember(order[1..], pattern, rest[j]);
        var i :| 0 <= i < |order[1..]| && order[1..][i] == rest[j];
        assert order[i + 1] == rest[j];
      }
      hide Since, DropAll, Hits;
      assert sub == rest || sub == [order[0]] + rest;
    }
  }

  lemma {:induction false} DistinctSet(s: seq<string>)
    requires Distinct(s)
    ensures |set x | x in s| == |s|
  {
    if s != [] {
      DistinctSet(s[1..]);
      assert (set x | x in s) == (set x | x in s[1..]) + {s[0]};
    }
  }

  lemma SubsetSize(a: set<string>, b: set<string>)
    requires a <= b
    ensures |a| <= |b|
  {
    assert b == a + (b - a);
  }

  /** The key that a full cache evicts has seen every other key, and the new one, touched after it. */
  lemma EvictedLongAgo(order: seq<string>, touches: seq<string>, k: string)
    requires order != [] && Distinct(order) && k !in order && ByLastTouch(order, touches)
    ensures |Since(touches + [k], order[0])| >= |order|
  {
    SinceTouch(touches, k, order[0]);
    var later := set x | x in order[1..];
    DistinctSet(order[1..]);
    forall x | x in later
      ensures x in Since(touches, order[0])
    {
      var j :| 0 <= j < |order[1..]| && order[1..][j] == x;
      assert order[j + 1] == x;
    }
    hide Since, Without;
    SubsetSize(later + {k}, Since(touches + [k], order[0]));
  }

  lemma RemoveBounded<V>(maxSize: nat, c: Cache<V>, k: string)
    requires Bounded(maxSize, c)
    ensures Bounded(maxSize, Remove(c, k))
    ensures |Remove(c, k).order| <= |c.order| && k !in Remove(c, k).order && k !in Remove(c, k).entries
    ensures k in c.order ==> |Remove(c, k).order| == |c.order| - 1
  {
    WithoutKeeps(c.order, k);
    hide Without, Distinct;
  }

  lemma AppendBounded<V>(maxSize: nat, c: Cache<V>, k: string, e: Entry<V>)
    requires Bounded(maxSize, c) && k !in c.order && |c.order| < (if maxSize == 0 then 1 else maxSize)
    ensures Bounded(maxSize, Append(c, k, e))
  {
  }

  /** Room for one more: after eviction a cache is below its bound. */
  lemma EvictBounded<V>(maxSize: nat, c: Cache<V>)
    requires Bounded(maxSize, c)
    ensures
      var c2 := Evict(maxSize, c);
      Bounded(maxSize, c2) && |c2.order| < (if maxSize == 0 then 1 else maxSize)
    ensures forall k :: k in Evict(maxSize, c).order ==> k in c.order
  {
    if |c.order| >= maxSize && c.order != [] {
      assert c.order[0] in c.order;
      RemoveBounded(maxSize, c, c.order[0]);
      WithoutKeeps(c.order, c.order[0]);
      hide Without;
    }
  }

  lemma SetStep<V>(maxSize: nat, r: Run<V>, k: string, e: Entry<V>)
    requires Inv(maxSize, r)
    ensures Inv(maxSize, Apply(maxSize, r, Set(k, e)))
  {
    hide Since, Without, ByLastTouch, Distinct;
    var c1 := Remove(r.cache, k);
    var c2 := Evict(maxSize, c1);
    RemoveBounded(maxSize, r.cache, k);
    EvictBounded(maxSize, c1);
    AppendBounded(maxSize, c2, k, e);
    SetOrder(maxSize, r, k);
    SetComplete(maxSize, r, k, e);
    hide Bounded, Complete;
    assert SetIn(r.cache, maxSize, k, e) == Append(c2, k, e);
  }

  lemma SetOrder<V>(maxSize: nat, r: Run<V>, k: string)
    requires Inv(maxSize, r)
    ensures ByLastTouch(Evict(maxSize, Remove(r.cache, k)).order + [k], r.touches + [k])
  {
    hide Since, Without, Sound, Complete;
    var c1 := Remove(r.cache, k);
    RemoveBounded(maxSize, r.cache, k);
    EvictBounded(maxSize, c1);
    hide Distinct, ByLastTouch;
    ByLastTouchWithout(r.cache.order, k, r.touches);
    if |c1.order| >= maxSize && c1.order != [] {
      ByLastTouchWithout(c1.order, c1.order[0], r.touches);
    }
    ByLastTouchAppend(Evict(maxSize, c1).order, k, r.touches);
  }

  lemma SetComplete<V>(maxSize: nat, r: Run<V>, k: string, e: Entry<V>)
    requires Inv(maxSize, r)
    ensures Complete(maxSize, Append(Evict(maxSize, Remove(r.cache, k)), k, e), r.all[k := e], r.touches + [k])
  {
    hide Since, Without, Sound;
    var c1 := Remove(r.cache, k);
    RemoveBounded(maxSize, r.cache, k);
    ByLastTouchWithout(r.cache.order, k, r.touches);
    hide ByLastTouch, Distinct;
    if |c1.order| >= maxSize && c1.order != [] {
      EvictedLongAgo(c1.order, r.touches, k);
    }
    forall x | x in r.all && x != k
      ensures x in Evict(maxSize, c1).entries || |Since(r.touches + [k], x)| >= maxSize
    {
      SinceTouch(r.touches, k, x);
      SubsetSize(Since(r.touches, x), Since(r.touches + [k], x));
    }
  }

  lemma GetStep<V>(maxSize: nat, r: Run<V>, k: string, now: int)
    requires Inv(maxSize, r)
    ensures Inv(maxSize, Apply(maxSize, r, Get(k, now)))
  {
    if k in r.cache.entries {
      hide Since, Without;
      RemoveBounded(maxSize, r.cache, k);
      ByLastTouchWithout(r.cache.order, k, r.touches);
      hide ByLastTouch, Distinct;
      if now <= r.cache.entries[k].expiresAt {
        HitStep(maxSize, r, k, now);
      }
    }
  }

  lemma HitStep<V>(maxSize: nat, r: Run<V>, k: string, now: int)
    requires Inv(maxSize, r) && k in r.cache.entries && now <= r.cache.entries[k].expiresAt
    ensures Inv(maxSize, Apply(maxSize, r, Get(k, now)))
  {
    hide Since, Without;
    var c1, e := Remove(r.cache, k), r.cache.entries[k];
    RemoveBounded(maxSize, r.cache, k);
    AppendBounded(maxSize, c1, k, e);
    ByLastTouchWithout(r.cache.order, k, r.touches);
    ByLastTouchAppend(c1.order, k, r.touches);
    HitComplete(maxSize, r, k, now);
    hide ByLastTouch, Distinct, Bounded, Complete;
  }

  lemma HitComplete<V>(maxSize: nat, r: Run<V>, k: string, now: int)
    requires Inv(maxSize, r) && k in r.cache.entries
    ensures Complete(maxSize, Append(Remove(r.cache, k), k, r.cache.entries[k]), r.all, r.touches + [k])
  {
    hide Since, Without, ByLastTouch, Bounded, Sound;
    forall x | x in r.all && x != k
      ensures x in r.cache.entries || |Since(r.touches + [k], x)| >= maxSize
    {
      SinceTouch(r.touches, k, x);
      SubsetSize(Since(r.touches, x), Since(r.touches + [k], x));
    }
  }

  lemma DropKeeps(order: seq<string>, pattern: string)
    requires Distinct(order)
    ensures Distinct(DropAll(order, pattern)) && |DropAll(order, pattern)| <= |order|
    ensures forall k :: k in DropAll(order, pattern) <==> k in order && !Hits(pattern, k)
  {
  }

  lemma PatternStep<V>(maxSize: nat, r: Run<V>, pattern: string)
    requires Inv(maxSize, r)
    ensures Inv(maxSize, Apply(maxSize, r, Pattern(pattern)))
  {
    DropKeeps(r.cache.order, pattern);
    ByLastTouchDrop(r.cache.order, r.touches, DropAll(r.cache.order, pattern), pattern);
    hide Since, DropAll, Hits, ByLastTouch, Distinct;
  }

  lemma DeleteStep<V>(maxSize: nat, r: Run<V>, k: string)
    requires Inv(maxSize, r)
    ensures Inv(maxSize, Apply(maxSize, r, Delete(k)))
  {
    hide Since, Without;
    RemoveBounded(maxSize, r.cache, k);
    ByLastTouchWithout(r.cache.order, k, r.touches);
    hide ByLastTouch, Distinct;
  }

  lemma {:induction false} RunsKeepInv<V>(maxSize: nat, ops: seq<Op<V>>)
    ensures Inv(maxSize, After(maxSize, ops))
  {
    if ops != [] {
      var before := ops[..|ops| - 1];
      RunsKeepInv(maxSize, before);
      var r := After(maxSize, before);
      hide Inv, Apply;
      match ops[|ops| - 1]
      case Get(k, now) => GetStep(maxSize, r, k, now);
      case Set(k, e) => SetStep(maxSize, r, k, e);
      case Delete(k) => DeleteStep(maxSize, r, k);
      case Pattern(p) => PatternStep(maxSize, r, p);
    }
  }

  /**
   * After any run: at most `maxSize` keys, in the order of their last touch; a hit is exactly what an
   * unbounded dictionary holds, unexpired; and a miss on what it holds is due to `maxSize` keys touched since.
   */
  lemma RunsRefineDictionary<V>(maxSize: nat, ops: seq<Op<V>>, k: string, now: int)
    requires maxSize >= 1
    ensures
      var r := After(maxSize, ops);
      var hit := GetFrom(r.cache, k, now).1;
      && |r.cache.order| <= maxSize
      && ByLastTouch(r.cache.order, r.touches)
      && (hit.Some? ==> k in r.all && hit.value == r.all[k] && now <= r.all[k].expiresAt)
      && (k in r.all && now <= r.all[k].expiresAt && |Since(r.touches, k)| < maxSize ==> hit.Some?)
  {
    RunsKeepInv(maxSize, ops);
    hide After, Since, ByLastTouch;
  }

  // ---------- patterns ----------

  /** Any other pattern, and the star alone, names the one key that it equals. */
  lemma PlainPatternsNameOneKey(pattern: string, key: string)
    requires pattern == "*" || pattern == "" || pattern[|pattern| - 1] != '*'
    ensures Hits(pattern, key) <==> key == pattern
  {
  }

  /** A pattern with one star, at its end, stands for the keys with the prefix before it: true of all but the star alone. */
  lemma StarAloneMatchesItself(prefix: string)
    ensures (forall key :: Hits(prefix + "*", key) <==> prefix <= key) <==> prefix != ""
  {
    var pattern := prefix + "*";
    assert pattern[..|pattern| - 1] == prefix;
    if prefix == "" {
      assert !Hits(pattern, "") && prefix <= "";
    }
  }
}
