/** Cache-aside traces on caches of different sizes: a larger one holds what a smaller one holds. */
module LruInclusion {
  import opened Lru
  import opened LruRuns

  function Last(s: seq<string>, n: nat): seq<string> {
    if n < |s| then s[|s| - n..] else s
  }

  /** The keys of a trace, each where it was accessed last. */
  function Recency<V>(trace: seq<Access<V>>): seq<string> {
    if trace == [] then [] else
      var a := trace[|trace| - 1];
      Without(Recency(trace[..|trace| - 1]), a.key) + [a.key]
  }

  function AsideRun<V>(maxSize: nat, trace: seq<Access<V>>): Cache<V> {
    if trace == [] then Cache([], map[])
    else AsideOn(AsideRun(maxSize, trace[..|trace| - 1]), maxSize, trace[|trace| - 1]).0
  }

  /** Nothing stored during the trace expires before its end, `horizon`. */
  ghost predicate NoExpiry<V>(trace: seq<Access<V>>, horizon: int) {
    forall i :: 0 <= i < |trace| ==>
      trace[i].now <= horizon && (trace[i].loaded.Some? ==> horizon <= trace[i].now + trace[i].ttlMs)
  }

  /** No loader comes back with nothing. */
  ghost predicate Delivers<V>(trace: seq<Access<V>>) {
    forall i :: 0 <= i < |trace| ==> trace[i].loaded.Some?
  }

  // ---------- one access ----------

  /** What an access does to the order of a cache in which nothing expires. */
  function AfterAccess(s: seq<string>, n: nat, k: string, delivers: bool): seq<string>
    requires n > 0
  {
    if k in s then Without(s, k) + [k]
    else if !delivers then s
    else (if |s| >= n then s[1..] else s) + [k]
  }

  ghost predicate Unexpired<V>(c: Cache<V>, horizon: int) {
    WellFormed(c) && forall k :: k in c.entries ==> horizon <= c.entries[k].expiresAt
  }

  lemma TouchKeeps<V>(c: Cache<V>, k: string)
    requires WellFormed(c) && k in c.entries
    ensures WellFormed(Append(Remove(c, k), k, c.entries[k]))
    ensures Append(Remove(c, k), k, c.entries[k]).entries == c.entries
  {
    WithoutKeeps(c.order, k);
    hide Without;
  }

  lemma EvictFirst<V>(c: Cache<V>, n: nat)
    requires n > 0 && WellFormed(c)
    ensures
      var c2 := Evict(n, c);
      && WellFormed(c2) && c2.order == (if |c.order| >= n then c.order[1..] else c.order)
      && forall k :: k in c2.entries ==> k in c.entries && c2.entries[k] == c.entries[k]
  {
    if |c.order| >= n {
      WithoutAt(c.order, 0);
      WithoutKeeps(c.order, c.order[0]);
      hide Without;
    }
  }

  lemma AccessOrder<V>(c: Cache<V>, n: nat, horizon: int, a: Access<V>)
    requires n > 0 && Unexpired(c, horizon) && a.now <= horizon
    requires a.loaded.Some? ==> horizon <= a.now + a.ttlMs
    ensures Unexpired(AsideOn(c, n, a).0, horizon)
    ensures AsideOn(c, n, a).0.order == AfterAccess(c.order, n, a.key, a.loaded.Some?)
  {
    if a.key in c.order {
      TouchKeeps(c, a.key);
      hide Without, Distinct;
    } else if a.loaded.Some? {
      LoadOrder(c, n, horizon, a);
    }
  }

  lemma LoadOrder<V>(c: Cache<V>, n: nat, horizon: int, a: Access<V>)
    requires n > 0 && Unexpired(c, horizon) && a.key !in c.order
    requires a.loaded.Some? && horizon <= a.now + a.ttlMs
    ensures Unexpired(AsideOn(c, n, a).0, horizon)
    ensures AsideOn(c, n, a).0.order == (if |c.order| >= n then c.order[1..] else c.order) + [a.key]
  {
    hide Without;
    var k, e := a.key, Entry(a.loaded.value, a.now + a.ttlMs, a.computeMs);
    WithoutAbsent(c.order, k);
    assert Remove(c, k) == c;
    EvictFirst(c, n);
    assert AsideOn(c, n, a).0 == Append(Evict(n, c), k, e);
    hide Evict, AsideOn;
  }

  // ---------- loaders that deliver ----------

  /** A cache of size `n` is the last `n` keys of the recency list, and none of them has expired. */
  ghost predicate IsTail<V>(c: Cache<V>, recency: seq<string>, n: nat, horizon: int) {
    Unexpired(c, horizon) && Distinct(recency) && c.order == Last(recency, n)
  }

  lemma LastSplit(s: seq<string>, n: nat) returns (head: seq<string>)
    ensures s == head + Last(s, n) && |Last(s, n)| <= n && (head != [] ==> |Last(s, n)| == n)
  {
    head := s[..|s| - |Last(s, n)|];
  }

  lemma LastOf(head: seq<string>, tail: seq<string>, n: nat)
    requires |tail| <= n && (head != [] ==> |tail| == n)
    ensures Last(head + tail, n) == tail
  {
  }

  lemma TailHit(recency: seq<string>, n: nat, k: string)
    requires Distinct(recency) && k in Last(recency, n)
    ensures Without(Last(recency, n), k) + [k] == Last(Without(recency, k) + [k], n)
  {
    var head := LastSplit(recency, n);
    var tail := Last(recency, n);
    assert k !in head && Distinct(tail);
    WithoutKeeps(tail, k);
    hide Without, Distinct, Last;
    WithoutConcat(head, tail, k);
    WithoutAbsent(head, k);
    var w := Without(tail, k);
    assert head + w + [k] == head + (w + [k]);
    LastOf(head, w + [k], n);
  }

  lemma TailMiss(recency: seq<string>, n: nat, k: string)
    requires n > 0 && k !in Last(recency, n)
    ensures
      var tail := Last(recency, n);
      (if |tail| >= n then tail[1..] else tail) + [k] == Last(Without(recency, k) + [k], n)
  {
    var head := LastSplit(recency, n);
    var tail := Last(recency, n);
    WithoutConcat(head, tail, k);
    WithoutAbsent(tail, k);
    var h := Without(head, k);
    assert head == [] ==> h == [];
    hide Without, Last;
    if |tail| >= n {
      Regroup(h, tail, k);
      LastOf(h + [tail[0]], tail[1..] + [k], n);
    } else {
      assert h + tail + [k] == h + (tail + [k]);
      LastOf(h, tail + [k], n);
    }
  }

  lemma Regroup(h: seq<string>, tail: seq<string>, k: string)
    requires tail != []
    ensures h + tail + [k] == h + [tail[0]] + (tail[1..] + [k])
  {
  }

  lemma TouchDistinct(s: seq<string>, k: string)
    requires Distinct(s)
    ensures Distinct(Without(s, k) + [k])
  {
    WithoutKeeps(s, k);
    hide Without;
  }

  lemma AsideStep<V>(c: Cache<V>, recency: seq<string>, n: nat, horizon: int, a: Access<V>)
    requires n > 0 && IsTail(c, recency, n, horizon)
    requires a.loaded.Some? && a.now <= horizon <= a.now + a.ttlMs
    ensures IsTail(AsideOn(c, n, a).0, Without(recency, a.key) + [a.key], n, horizon)
  {
    AccessOrder(c, n, horizon, a);
    TouchDistinct(recency, a.key);
    hide Without, Unexpired, AsideOn, Distinct;
    if a.key in c.order {
      TailHit(recency, n, a.key);
    } else {
      TailMiss(recency, n, a.key);
    }
  }

  lemma {:induction false} AsideIsTail<V>(n: nat, trace: seq<Access<V>>, horizon: int)
    requires n > 0 && NoExpiry(trace, horizon) && Delivers(trace)
    ensures IsTail(AsideRun(n, trace), Recency(trace), n, horizon)
  {
    if trace != [] {
      AsideIsTail(n, trace[..|trace| - 1], horizon);
      AsideStep(AsideRun(n, trace[..|trace| - 1]), Recency(trace[..|trace| - 1]), n, horizon, trace[|trace| - 1]);
      hide IsTail, AsideOn, Without;
    }
  }

  /** If every loader delivers, a cache of size `n` holds exactly the `n` most recent keys. */
  lemma HoldsMostRecent<V>(n: nat, trace: seq<Access<V>>, horizon: int)
    requires n > 0 && NoExpiry(trace, horizon) && Delivers(trace)
    ensures AsideRun(n, trace).order == Last(Recency(trace), n)
  {
    AsideIsTail(n, trace, horizon);
  }

  /** `Recency` lists every accessed key once, by its last access. */
  lemma {:induction false} RecencyByLastAccess<V>(trace: seq<Access<V>>)
    ensures Distinct(Recency(trace))
    ensures ByLastTouch(Recency(trace), Keys(trace))
    ensures forall k :: k in Recency(trace) <==> k in Keys(trace)
  {
    if trace != [] {
      var before, k := trace[..|trace| - 1], trace[|trace| - 1].key;
      RecencyByLastAccess(before);
      assert Keys(trace) == Keys(before) + [k];
      WithoutKeeps(Recency(before), k);
      ByLastTouchWithout(Recency(before), k, Keys(before));
      hide ByLastTouch, Without;
      ByLastTouchAppend(Without(Recency(before), k), k, Keys(before));
    }
  }

  function Keys<V>(trace: seq<Access<V>>): (r: seq<string>)
    ensures |r| == |trace|
  {
    seq(|trace|, i requires 0 <= i < |trace| => trace[i].key)
  }

  // ---------- any loaders ----------

  /** `a` is `b` with some elements left out. */
  predicate Within(a: seq<string>, b: seq<string>) {
    a == [] || (b != [] && if a[0] == b[0] then Within(a[1..], b[1..]) else Within(a, b[1..]))
  }

  lemma {:induction false} WithinTail(a: seq<string>, b: seq<string>)
    requires a != [] && Within(a, b)
    ensures b != [] && Within(a[1..], b[1..]) && Within(a[1..], b)
    decreases |a| + |b|
  {
    if a[0] != b[0] {
      WithinTail(a, b[1..]);
    }
    WithinMore(a[1..], b);
  }

  lemma {:induction false} WithinMore(a: seq<string>, b: seq<string>)
    requires b != [] && Within(a, b[1..])
    ensures Within(a, b)
    decreases |a| + |b|
  {
    if a != [] && a[0] == b[0] {
      WithinTail(a, b[1..]);
    }
  }

  lemma {:induction false} WithinSelf(a: seq<string>)
    ensures Within(a, a)
  {
    if a != [] { WithinSelf(a[1..]); }
  }

  lemma {:induction false} WithinMember(a: seq<string>, b: seq<string>, x: string)
    requires Within(a, b) && x in a
    ensures x in b
  {
    if a[0] == b[0] && x != a[0] {
      WithinMember(a[1..], b[1..], x);
    } else if a[0] != b[0] {
      WithinMember(a, b[1..], x);
    }
  }

  lemma {:induction false} WithinAppend(a: seq<string>, b: seq<string>, k: string)
    requires Within(a, b)
    ensures Within(a + [k], b + [k])
  {
    if b == [] {
      WithinSelf([k]);
      assert a + [k] == [k] && b + [k] == [k];
    } else {
      assert (b + [k])[1..] == b[1..] + [k];
      if a != [] && a[0] == b[0] {
        assert (a + [k])[1..] == a[1..] + [k];
        WithinAppend(a[1..], b[1..], k);
      } else {
        WithinAppend(a, b[1..], k);
        WithinMore(a + [k], b + [k]);
      }
    }
  }

  lemma WithoutStep(s: seq<string>, k: string)
    requires s != []
    ensures Without(s, k) == if s[0] == k then Without(s[1..], k) else [s[0]] + Without(s[1..], k)
  {
  }

  lemma {:induction false} WithinWithout(a: seq<string>, b: seq<string>, k: string)
    requires Within(a, b)
    ensures Within(Without(a, k), Without(b, k))
    decreases |b|
  {
    WithoutAbsent([], k);
    hide Without;
    if a != [] {
      var w := Without(b[1..], k);
      WithoutStep(a, k);
      WithoutStep(b, k);
      if a[0] == b[0] {
        WithinWithout(a[1..], b[1..], k);
        if a[0] != k { WithinCons(a[0], Without(a[1..], k), w); }
      } else {
        WithinWithout(a, b[1..], k);
        if b[0] != k {
          assert ([b[0]] + w)[1..] == w;
          WithinMore(Without(a, k), [b[0]] + w);
        }
      }
    }
  }

  lemma WithinCons(x: string, a: seq<string>, b: seq<string>)
    requires Within(a, b)
    ensures Within([x] + a, [x] + b)
  {
    assert ([x] + a)[1..] == a && ([x] + b)[1..] == b;
  }

  // ---------- orders ----------

  /** The smaller order is within the larger one, and only lacks something because it is full. */
  predicate Nested(a: seq<string>, b: seq<string>, n: nat) {
    Distinct(a) && Distinct(b) && Within(a, b) && |a| <= n && (|a| == n || a == b)
  }

  lemma NestedTouch(a: seq<string>, b: seq<string>, n: nat, k: string)
    requires Nested(a, b, n) && k in a
    ensures Nested(Without(a, k) + [k], Without(b, k) + [k], n)
  {
    WithinWithout(a, b, k);
    WithinAppend(Without(a, k), Without(b, k), k);
    WithoutKeeps(a, k);
    TouchDistinct(a, k);
    TouchDistinct(b, k);
    hide Without, Within, Distinct;
  }

  /** A key that only the larger cache holds: the smaller one is full. */
  lemma NestedMiss(a: seq<string>, b: seq<string>, n: nat, k: string, delivers: bool)
    requires n > 0 && Nested(a, b, n) && k !in a && k in b
    ensures Nested(AfterAccess(a, n, k, delivers), Without(b, k) + [k], n)
  {
    WithinWithout(a, b, k);
    WithoutAbsent(a, k);
    WithoutKeeps(b, k);
    var w := Without(b, k);
    hide Without;
    if delivers {
      WithinTail(a, w);
      WithinAppend(a[1..], w, k);
    } else {
      WithinEnd(a, w, k);
    }
    hide Within;
  }

  lemma {:induction false} WithinEnd(a: seq<string>, b: seq<string>, k: string)
    requires Within(a, b)
    ensures Within(a, b + [k])
  {
    if a != [] {
      assert (b + [k])[1..] == b[1..] + [k];
      WithinEnd(if a[0] == b[0] then a[1..] else a, b[1..], k);
    }
  }

  /** A key that neither holds. */
  lemma NestedLoad(a: seq<string>, b: seq<string>, n: nat, m: nat, k: string)
    requires 0 < n <= m && Nested(a, b, n) && k !in a && k !in b
    ensures Nested(AfterAccess(a, n, k, true), AfterAccess(b, m, k, true), n)
  {
    var a', b' := if |a| >= n then a[1..] else a, if |b| >= m then b[1..] else b;
    if |a| >= n { WithinTail(a, b); }
    WithinAppend(a', b', k);
    hide Within;
  }

  lemma NestedStep(a: seq<string>, b: seq<string>, n: nat, m: nat, k: string, delivers: bool)
    requires 0 < n <= m && Nested(a, b, n)
    ensures Nested(AfterAccess(a, n, k, delivers), AfterAccess(b, m, k, delivers), n)
  {
    hide Without, Distinct;
    if k in a {
      WithinMember(a, b, k);
      NestedTouch(a, b, n, k);
    } else if k in b {
      NestedMiss(a, b, n, k, delivers);
    } else if delivers {
      NestedLoad(a, b, n, m, k);
    }
    hide Within, Nested;
  }

  lemma {:induction false} AsideIsNested<V>(n: nat, m: nat, trace: seq<Access<V>>, horizon: int)
    requires 0 < n <= m && NoExpiry(trace, horizon)
    ensures Unexpired(AsideRun(n, trace), horizon) && Unexpired(AsideRun(m, trace), horizon)
    ensures Nested(AsideRun(n, trace).order, AsideRun(m, trace).order, n)
  {
    if trace != [] {
      var before, a := trace[..|trace| - 1], trace[|trace| - 1];
      AsideIsNested(n, m, before, horizon);
      hide Nested, Unexpired, AsideOn, AfterAccess;
      var c, d := AsideRun(n, before), AsideRun(m, before);
      AccessOrder(c, n, horizon, a);
      AccessOrder(d, m, horizon, a);
      NestedStep(c.order, d.order, n, m, a.key, a.loaded.Some?);
    }
  }

  /** On every trace without expiry, whatever the loaders return, a larger cache holds every key a smaller one holds. */
  lemma LargerCacheHoldsMore<V>(n: nat, m: nat, trace: seq<Access<V>>, horizon: int)
    requires 0 < n <= m && NoExpiry(trace, horizon)
    ensures forall k :: k in AsideRun(n, trace).entries ==> k in AsideRun(m, trace).entries
  {
    AsideIsNested(n, m, trace, horizon);
    hide AsideRun, NoExpiry;
    forall k | k in AsideRun(n, trace).order
      ensures k in AsideRun(m, trace).order
    {
      WithinMember(AsideRun(n, trace).order, AsideRun(m, trace).order, k);
    }
  }
}
