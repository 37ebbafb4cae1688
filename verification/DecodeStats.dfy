/**
 * Decode outcomes over the last 24 hours, kept as hourly buckets (indexer/src/decoder.js).
 * Times are hour keys, that is hours since the epoch, from a clock that does not run backwards.
 */
module DecodeStats {

  const WINDOW_HOURS: int := 24

  datatype Bucket = Bucket(success: nat, failure: nat)

  /** One decode, as a full log would record it. */
  datatype Outcome = Outcome(hour: int, success: bool)

  /** How many outcomes of the one kind the log has in the given hours. */
  function CountIn(log: seq<Outcome>, hours: set<int>, success: bool): nat {
    if log == [] then 0 else
      var last := log[|log| - 1];
      CountIn(log[..|log| - 1], hours, success) + if last.hour in hours && last.success == success then 1 else 0
  }

  /** How many outcomes of the one kind the log has after the given hour. */
  function CountAfter(log: seq<Outcome>, hour: int, success: bool): nat {
    if log == [] then 0 else
      var last := log[|log| - 1];
      CountAfter(log[..|log| - 1], hour, success) + if last.hour > hour && last.success == success then 1 else 0
  }

  lemma {:induction false} CountUnion(log: seq<Outcome>, hours: set<int>, h: int, success: bool)
    requires h !in hours
    ensures CountIn(log, hours + {h}, success) == CountIn(log, hours, success) + CountIn(log, {h}, success)
  {
    if log != [] {
      CountUnion(log[..|log| - 1], hours, h, success);
    }
  }

  lemma {:induction false} CountNone(log: seq<Outcome>, hours: set<int>, success: bool)
    requires forall o :: o in log ==> o.hour !in hours
    ensures CountIn(log, hours, success) == 0
  {
    if log != [] {
      CountNone(log[..|log| - 1], hours, success);
    }
  }

  /** The hours present account for every outcome inside the window, and for no other. */
  lemma {:induction false} CountWindow(log: seq<Outcome>, hours: set<int>, hour: int, success: bool)
    requires forall o :: o in log ==> (o.hour in hours <==> o.hour > hour)
    ensures CountIn(log, hours, success) == CountAfter(log, hour, success)
  {
    if log != [] {
      CountWindow(log[..|log| - 1], hours, hour, success);
      assert log[|log| - 1] in log;
    }
  }

  lemma {:induction false} RangeSize(s: set<int>, lo: int, n: nat)
    requires forall x :: x in s ==> lo < x <= lo + n
    ensures |s| <= n
  {
    if n == 0 {
      assert forall x :: x !in s;
    } else {
      RangeSize(s - {lo + n}, lo, n - 1);
      if lo + n in s { assert s == s - {lo + n} + {lo + n}; } else { assert s - {lo + n} == s; }
    }
  }

  lemma NoElements(s: set<int>)
    requires forall x :: x !in s
    ensures |s| == 0
  {
    RangeSize(s, 0, 0);
  }

  lemma HasElement(s: set<int>)
    requires |s| > 0
    ensures exists x :: x in s
  {
    if forall x :: x !in s {
      NoElements(s);
    }
  }

  /**
   * Each bucket counts its hour, and only outcomes that have left the window, at hour `clock`, have no bucket.
   */
  ghost predicate Tracks(buckets: map<int, Bucket>, log: seq<Outcome>, clock: int) {
    && (forall h :: h in buckets ==> buckets[h] == Bucket(CountIn(log, {h}, true), CountIn(log, {h}, false)))
    && (forall o :: o in log ==> o.hour <= clock && (o.hour in buckets || o.hour <= clock - WINDOW_HOURS))
    && (forall h :: h in buckets ==> h <= clock)
  }

  function Pruned(buckets: map<int, Bucket>, now: int): map<int, Bucket> {
    map h | h in buckets && h > now - WINDOW_HOURS :: buckets[h]
  }

  lemma PruneTracks(buckets: map<int, Bucket>, log: seq<Outcome>, clock: int, now: int)
    requires Tracks(buckets, log, clock) && clock <= now
    ensures Tracks(Pruned(buckets, now), log, now) && |Pruned(buckets, now)| <= 24
    ensures forall h :: h in Pruned(buckets, now) ==> now - 24 < h <= now
    ensures forall o :: o in log ==> (o.hour in Pruned(buckets, now) <==> o.hour > now - WINDOW_HOURS)
  {
    hide CountIn;
    RangeSize(Pruned(buckets, now).Keys, now - WINDOW_HOURS, 24);
  }

  function Recorded(buckets: map<int, Bucket>, key: int, success: bool): map<int, Bucket> {
    var bucket := if key in buckets then buckets[key] else Bucket(0, 0);
    buckets[key := if success then bucket.(success := bucket.success + 1) else bucket.(failure := bucket.failure + 1)]
  }

  lemma RecordTracks(buckets: map<int, Bucket>, log: seq<Outcome>, clock: int, key: int, success: bool)
    requires Tracks(buckets, log, clock) && clock <= key
    ensures Tracks(Recorded(buckets, key, success), log + [Outcome(key, success)], key)
  {
    hide CountIn;
    RecordCounts(log, key, success);
    assert key !in buckets ==> forall o :: o in log ==> o.hour != key;
    forall o | o in log + [Outcome(key, success)]
      ensures o in log || o.hour == key
    {
    }
  }

  class DecodeCounter {
    var buckets: map<int, Bucket>
    ghost var log: seq<Outcome>
    ghost var clock: int  // the latest time at which the counter was used

    ghost predicate Valid()
      reads this
    {
      Tracks(buckets, log, clock)
    }

    constructor (now: int)
      ensures Valid() && log == [] && clock == now
    {
      buckets, log, clock := map[], [], now;
    }

    method Prune(now: int)
      modifies this`buckets
      ensures buckets == map h | h in old(buckets) && h > now - 24 :: old(buckets)[h]
    {
      var cutoff := now - WINDOW_HOURS;
      var keys := buckets.Keys;
      ghost var done: set<int> := {};
      while |keys| > 0
        invariant done !! keys && done + keys == old(buckets).Keys
        invariant buckets == map h | h in old(buckets) && !(h in done && h <= cutoff) :: old(buckets)[h]
        decreases keys
      {
        HasElement(keys);
        var h :| h in keys;
        if h <= cutoff {
          buckets := buckets - {h};
        }
        keys := keys - {h};
        done := done + {h};
      }
      assert done == old(buckets).Keys;
    }

    /** The clock is read once for the bucket and once more for the pruning. */
    method RecordDecodeOutcome(success: bool, key: int, now: int)
      requires Valid() && clock <= key <= now
      modifies this
      ensures Valid() && clock == now && log == old(log) + [Outcome(key, success)]
      ensures |buckets| <= 24 && forall h :: h in buckets ==> now - 24 < h <= now
    {
      hide Tracks;
      var bucket := if key in buckets then buckets[key] else Bucket(0, 0);
      bucket := if success then bucket.(success := bucket.success + 1) else bucket.(failure := bucket.failure + 1);
      RecordTracks(buckets, log, clock, key, success);
      buckets := buckets[key := bucket];
      log := log + [Outcome(key, success)];
      PruneTracks(buckets, log, key, now);
      Prune(now);
      clock := now;
    }

    /** The totals are those of the full log over the trailing 24 hours, although only buckets are kept. */
    method GetDecodeStats(now: int) returns (total: nat, decoded: nat, undecoded: nat)
      requires Valid() && clock <= now
      modifies this
      ensures Valid() && clock == now && log == old(log)
      ensures decoded == CountAfter(log, now - 24, true)
      ensures undecoded == CountAfter(log, now - 24, false)
      ensures total == decoded + undecoded
    {
      hide CountAfter, CountIn, Tracks;
      PruneTracks(buckets, log, clock, now);
      Prune(now);
      clock := now;
      decoded, undecoded := SumBuckets();
      CountWindow(log, buckets.Keys, now - WINDOW_HOURS, true);
      CountWindow(log, buckets.Keys, now - WINDOW_HOURS, false);
      total := decoded + undecoded;
    }

    method SumBuckets() returns (decoded: nat, undecoded: nat)
      requires Valid()
      ensures decoded == CountIn(log, buckets.Keys, true) && undecoded == CountIn(log, buckets.Keys, false)
    {
      hide CountIn;
      decoded, undecoded := 0, 0;
      var keys := buckets.Keys;
      ghost var done: set<int> := {};
      CountNone(log, {}, true);
      CountNone(log, {}, false);
      while |keys| > 0
        invariant done !! keys && done + keys == buckets.Keys
        invariant decoded == CountIn(log, done, true) && undecoded == CountIn(log, done, false)
        decreases keys
      {
        HasElement(keys);
        var h :| h in keys;
        CountUnion(log, done, h, true);
        CountUnion(log, done, h, false);
        decoded := decoded + buckets[h].success;
        undecoded := undecoded + buckets[h].failure;
        keys := keys - {h};
        done := done + {h};
      }
      assert done == buckets.Keys;
    }
  }

  lemma RecordCounts(log: seq<Outcome>, key: int, success: bool)
    ensures forall h, s :: CountIn(log + [Outcome(key, success)], {h}, s)
                        == CountIn(log, {h}, s) + if h == key && s == success then 1 else 0
    ensures (forall o :: o in log ==> o.hour != key) ==> CountIn(log, {key}, true) == 0 && CountIn(log, {key}, false) == 0
  {
  }
}
