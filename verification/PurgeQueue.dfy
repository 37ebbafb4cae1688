/**
 * The debounced CDN purge queue (`createPurgeQueue` in indexer/src/cdnPurge.js) on an event loop:
 * calls, timers, flushes chained one behind the other, and purges settling, in any order.
 */
module PurgeQueue {
  import opened Wrappers

  const MAX_KEYS_PER_REQUEST: nat := 256

  /** A flush in progress: its keys, and where the batch that is at the adapter begins. */
  datatype Flush = Flush(keys: seq<string>, i: nat)

  /** What can be observed: keys queued, batches handed to the adapter, and how they ended. */
  datatype Record = Queued(key: string) | Passed(batch: seq<string>) | Settled(ok: bool)

  /**
   * The queue's variables (`pending`, `timer`, `healthy`) and the loop's: timers that are armed,
   * flushes waiting behind `inFlight`, and the one that runs.
   */
  datatype Queue = Queue(
    pending: seq<string>, timer: Option<nat>, healthy: bool,
    armed: set<nat>, nextTimer: nat, waiting: nat, running: Option<Flush>, log: seq<Record>)

  const EMPTY := Queue([], None, true, {}, 0, 0, None, [])

  function AddKeys(pending: seq<string>, keys: seq<string>): seq<string>
    decreases |keys|
  {
    if keys == [] then pending
    else AddKeys(if keys[0] in pending then pending else pending + [keys[0]], keys[1..])
  }

  function Queueds(keys: seq<string>): (r: seq<Record>)
    ensures |r| == |keys|
  {
    seq(|keys|, i requires 0 <= i < |keys| => Queued(keys[i]))
  }

  function Enqueue(q: Queue, keys: seq<string>): Queue {
    var q1 := q.(pending := AddKeys(q.pending, keys), log := q.log + Queueds(keys));
    if q.timer.None? then q1.(timer := Some(q.nextTimer), armed := q.armed + {q.nextTimer}, nextTimer := q.nextTimer + 1)
    else q1
  }

  function FlushNow(q: Queue): Queue {
    q.(armed := if q.timer.Some? then q.armed - {q.timer.value} else q.armed, waiting := q.waiting + 1)
  }

  function TimerFires(q: Queue, id: nat): Queue {
    q.(armed := q.armed - {id}, waiting := q.waiting + 1)
  }

  function BatchAt(keys: seq<string>, i: nat): seq<string>
    requires i <= |keys|
  {
    if i + MAX_KEYS_PER_REQUEST < |keys| then keys[i..i + MAX_KEYS_PER_REQUEST] else keys[i..]
  }

  function FlushStarts(q: Queue): Queue
    requires q.waiting > 0
  {
    var q1 := q.(waiting := q.waiting - 1, timer := None);
    if q.pending == [] then q1
    else q1.(pending := [], running := Some(Flush(q.pending, 0)), log := q.log + [Passed(BatchAt(q.pending, 0))])
  }

  function PurgeSettles(q: Queue, ok: bool): Queue
    requires q.running.Some?
  {
    var Flush(keys, i) := q.running.value;
    var q1 := q.(healthy := ok, log := q.log + [Settled(ok)]);
    var next := i + MAX_KEYS_PER_REQUEST;
    if next < |keys| then q1.(running := Some(Flush(keys, next)), log := q1.log + [Passed(BatchAt(keys, next))])
    else q1.(running := None)
  }

  /** The queue object; `disabled` is the adapter named "none". */
  class Purger {
    const disabled: bool
    var pending: seq<string>
    var timer: Option<nat>
    var healthy: bool
    var armed: set<nat>
    var nextTimer: nat
    var waiting: nat
    var running: Option<Flush>
    ghost var log: seq<Record>

    ghost function State(): Queue
      reads this
    {
      Queue(pending, timer, healthy, armed, nextTimer, waiting, running, log)
    }

    constructor (disabled: bool)
      ensures State() == EMPTY && this.disabled == disabled && Inv(State())
    {
      this.disabled := disabled;
      pending, timer, healthy := [], None, true;
      armed, nextTimer, waiting, running, log := {}, 0, 0, None, [];
    }

    method EnqueueKeys(keys: seq<string>)
      modifies this
      ensures State() == if disabled then old(State()) else Enqueue(old(State()), keys)
      ensures old(Inv(State())) ==> Inv(State())
    {
      if disabled { return; }
      if Inv(State()) { EnqueueKeepsInv(State(), keys); }
      hide Inv;
      for i := 0 to |keys|
        invariant AddKeys(pending, keys[i..]) == AddKeys(old(pending), keys)
        invariant State() == old(State()).(pending := pending)
      {
        assert keys[i..][1..] == keys[i + 1..];
        if keys[i] !in pending {
          pending := pending + [keys[i]];
        }
      }
      log := log + Queueds(keys);
      if timer.None? {
        timer := Some(nextTimer);
        armed := armed + {nextTimer};
        nextTimer := nextTimer + 1;
      }
    }

    method FlushNowCalled()
      modifies this
      ensures State() == FlushNow(old(State()))
      ensures old(Inv(State())) ==> Inv(State())
    {
      if Inv(State()) { SchedulingKeepsInv(State(), timer); }
      hide Inv;
      if timer.Some? {
        armed := armed - {timer.value};
      }
      waiting := waiting + 1;
    }

    method TimerFired(id: nat)
      requires id in armed
      modifies this
      ensures State() == TimerFires(old(State()), id)
      ensures old(Inv(State())) ==> Inv(State())
    {
      if Inv(State()) { SchedulingKeepsInv(State(), Some(id)); }
      hide Inv;
      armed := armed - {id};
      waiting := waiting + 1;
    }

    /** The next flush behind `inFlight` begins, the one before it having ended. */
    method FlushBegins()
      requires waiting > 0 && running.None?
      modifies this
      ensures State() == FlushStarts(old(State()))
      ensures old(Inv(State())) ==> Inv(State())
    {
      if Inv(State()) { StartKeepsInv(State()); }
      hide Inv;
      waiting := waiting - 1;
      timer := None;
      if |pending| == 0 { return; }
      var keys := pending;
      pending := [];
      running := Some(Flush(keys, 0));
      log := log + [Passed(BatchAt(keys, 0))];
    }

    method PurgeEnded(ok: bool)
      requires running.Some?
      modifies this
      ensures State() == PurgeSettles(old(State()), ok)
      ensures old(Inv(State())) ==> Inv(State())
    {
      if Inv(State()) { SettleKeepsInv(State(), ok); }
      hide Inv;
      var Flush(keys, i) := running.value;
      healthy := ok;
      log := log + [Settled(ok)];
      i := i + MAX_KEYS_PER_REQUEST;
      if i < |keys| {
        running := Some(Flush(keys, i));
        log := log + [Passed(BatchAt(keys, i))];
      } else {
        running := None;
      }
    }
  }

  // ---------- every interleaving ----------

  datatype Event = EnqueueCall(keys: seq<string>) | FlushCall | Timer(id: nat) | Start | Settle(ok: bool)

  predicate Enabled(q: Queue, e: Event) {
    match e
    case EnqueueCall(_) => true
    case FlushCall => true
    case Timer(id) => id in q.armed
    case Start => q.waiting > 0 && q.running.None?
    case Settle(_) => q.running.Some?
  }

  function Step(q: Queue, e: Event): Queue
    requires Enabled(q, e)
  {
    match e
    case EnqueueCall(keys) => Enqueue(q, keys)
    case FlushCall => FlushNow(q)
    case Timer(id) => TimerFires(q, id)
    case Start => FlushStarts(q)
    case Settle(ok) => PurgeSettles(q, ok)
  }

  /** An event that cannot occur leaves the queue alone. */
  function Run(events: seq<Event>): Queue {
    if events == [] then EMPTY else
      var q := Run(events[..|events| - 1]);
      var e := events[|events| - 1];
      if Enabled(q, e) then Step(q, e) else q
  }

  /** Pending keys have a timer, and a timer is armed or its flush is waiting. */
  ghost predicate Scheduled(q: Queue) {
    && (q.pending != [] ==> q.timer.Some?)
    && (q.timer.Some? ==> q.timer.value in q.armed || q.waiting > 0)
  }

  /** The keys of the running flush that have not been handed to the adapter yet. */
  function Ahead(q: Queue): seq<string> {
    if q.running.Some? && q.running.value.i + MAX_KEYS_PER_REQUEST < |q.running.value.keys|
    then q.running.value.keys[q.running.value.i + MAX_KEYS_PER_REQUEST..] else []
  }

  ghost predicate PassedAfter(log: seq<Record>, a: nat, key: string) {
    exists b :: a < b < |log| && log[b].Passed? && key in log[b].batch
  }

  /** No key is lost: since it was queued it has been passed on, or it still is to be. */
  ghost predicate NoneLost(q: Queue) {
    forall a :: 0 <= a < |q.log| && q.log[a].Queued? ==>
      q.log[a].key in q.pending || q.log[a].key in Ahead(q) || PassedAfter(q.log, a, q.log[a].key)
  }

  ghost predicate SmallBatches(q: Queue) {
    && (q.running.Some? ==> q.running.value.i < |q.running.value.keys|)
    && forall r :: r in q.log && r.Passed? ==> 0 < |r.batch| <= 256
  }

  function LastOutcome(log: seq<Record>): bool {
    if log == [] then true
    else if log[|log| - 1].Settled? then log[|log| - 1].ok
    else LastOutcome(log[..|log| - 1])
  }

  ghost predicate Inv(q: Queue) {
    Scheduled(q) && NoneLost(q) && SmallBatches(q) && q.healthy == LastOutcome(q.log)
  }

  lemma {:induction false} AddKeysHas(pending: seq<string>, keys: seq<string>)
    ensures forall k :: k in AddKeys(pending, keys) <==> k in pending || k in keys
    ensures AddKeys(pending, keys) == [] <==> pending == [] && keys == []
    decreases |keys|
  {
    if keys != [] {
      AddKeysHas(if keys[0] in pending then pending else pending + [keys[0]], keys[1..]);
      assert keys == [keys[0]] + keys[1..];
    }
  }

  lemma {:induction false} LastOutcomeKeeps(log: seq<Record>, more: seq<Record>)
    requires forall r :: r in more ==> !r.Settled?
    ensures LastOutcome(log + more) == LastOutcome(log)
  {
    if more == [] {
      assert log + more == log;
    } else {
      assert (log + more)[..|log + more| - 1] == log + more[..|more| - 1];
      assert (log + more)[|log + more| - 1] == more[|more| - 1];
      LastOutcomeKeeps(log, more[..|more| - 1]);
    }
  }

  lemma PassedStays(log: seq<Record>, more: seq<Record>, a: nat, key: string)
    requires PassedAfter(log, a, key)
    ensures PassedAfter(log + more, a, key)
  {
    var b :| a < b < |log| && log[b].Passed? && key in log[b].batch;
    assert (log + more)[b] == log[b];
  }

  lemma PassedNow(log: seq<Record>, batch: seq<string>, a: nat, key: string)
    requires a < |log| && key in batch
    ensures PassedAfter(log + [Passed(batch)], a, key)
  {
    assert (log + [Passed(batch)])[|log|] == Passed(batch);
  }

  lemma EnqueueLosesNone(q: Queue, keys: seq<string>)
    requires NoneLost(q)
    ensures NoneLost(Enqueue(q, keys))
  {
    AddKeysHas(q.pending, keys);
    hide AddKeys, PassedAfter;
    var q' := Enqueue(q, keys);
    assert Ahead(q') == Ahead(q);
    hide Ahead;
    forall a | 0 <= a < |q'.log| && q'.log[a].Queued?
      ensures q'.log[a].key in q'.pending || q'.log[a].key in Ahead(q') || PassedAfter(q'.log, a, q'.log[a].key)
    {
      if a < |q.log| {
        if PassedAfter(q.log, a, q.log[a].key) { PassedStays(q.log, Queueds(keys), a, q.log[a].key); }
      } else {
        assert q'.log[a] == Queued(keys[a - |q.log|]);
      }
    }
  }

  lemma EnqueueIsSmall(q: Queue, keys: seq<string>)
    requires SmallBatches(q)
    ensures SmallBatches(Enqueue(q, keys))
  {
    hide AddKeys;
  }

  lemma EnqueueKeepsInv(q: Queue, keys: seq<string>)
    requires Inv(q)
    ensures Inv(Enqueue(q, keys))
  {
    LastOutcomeKeeps(q.log, Queueds(keys));
    EnqueueLosesNone(q, keys);
    EnqueueIsSmall(q, keys);
    hide AddKeys, LastOutcome, NoneLost, SmallBatches, Queueds;
  }

  /** Handing over a batch moves exactly its keys from what is ahead to what has been passed. */
  lemma BatchMoves(keys: seq<string>, i: nat, key: string)
    requires i <= |keys| && key in keys[i..]
    ensures key in BatchAt(keys, i) || (i + MAX_KEYS_PER_REQUEST < |keys| && key in keys[i + MAX_KEYS_PER_REQUEST..])
  {
  }

  lemma StartLosesNone(q: Queue)
    requires NoneLost(q) && Enabled(q, Start) && q.pending != []
    ensures NoneLost(FlushStarts(q))
  {
    hide PassedAfter;
    var q', batch := FlushStarts(q), BatchAt(q.pending, 0);
    assert q.pending[0..] == q.pending;
    forall a | 0 <= a < |q'.log| && q'.log[a].Queued?
      ensures q'.log[a].key in Ahead(q') || PassedAfter(q'.log, a, q'.log[a].key)
    {
      var key := q.log[a].key;
      if PassedAfter(q.log, a, key) {
        PassedStays(q.log, [Passed(batch)], a, key);
      } else {
        BatchMoves(q.pending, 0, key);
        if key in batch { PassedNow(q.log, batch, a, key); }
      }
    }
  }

  lemma StartIsSmall(q: Queue)
    requires SmallBatches(q) && Enabled(q, Start)
    ensures SmallBatches(FlushStarts(q))
  {
  }

  lemma StartKeepsInv(q: Queue)
    requires Inv(q) && Enabled(q, Start)
    ensures Inv(FlushStarts(q))
  {
    if q.pending != [] {
      LastOutcomeKeeps(q.log, [Passed(BatchAt(q.pending, 0))]);
      StartLosesNone(q);
      StartIsSmall(q);
      hide PassedAfter, LastOutcome, NoneLost, SmallBatches, BatchAt;
    }
  }

  lemma SettleKeepsInv(q: Queue, ok: bool)
    requires Inv(q) && Enabled(q, Settle(ok))
    ensures Inv(PurgeSettles(q, ok))
  {
    SettleLosesNone(q, ok);
    SettleIsHealth(q, ok);
    SettleIsSmall(q, ok);
    hide NoneLost, LastOutcome, SmallBatches;
  }

  lemma SettleIsHealth(q: Queue, ok: bool)
    requires Enabled(q, Settle(ok))
    ensures PurgeSettles(q, ok).healthy == LastOutcome(PurgeSettles(q, ok).log)
  {
    var Flush(keys, i) := q.running.value;
    var next := i + MAX_KEYS_PER_REQUEST;
    var more := if next < |keys| then [Passed(BatchAt(keys, next))] else [];
    SettledLast(q.log, ok, more);
    assert PurgeSettles(q, ok).log == q.log + [Settled(ok)] + more;
    hide LastOutcome;
  }

  lemma SettleIsSmall(q: Queue, ok: bool)
    requires Enabled(q, Settle(ok)) && SmallBatches(q)
    ensures SmallBatches(PurgeSettles(q, ok))
  {
  }

  lemma SettleLosesNone(q: Queue, ok: bool)
    requires NoneLost(q) && SmallBatches(q) && Enabled(q, Settle(ok))
    ensures NoneLost(PurgeSettles(q, ok))
  {
    hide PassedAfter, SmallBatches;
    var q' := PurgeSettles(q, ok);
    var Flush(keys, i) := q.running.value;
    var next := i + MAX_KEYS_PER_REQUEST;
    var settled := q.log + [Settled(ok)];
    forall a | 0 <= a < |q'.log| && q'.log[a].Queued?
      ensures q'.log[a].key in q'.pending || q'.log[a].key in Ahead(q') || PassedAfter(q'.log, a, q'.log[a].key)
    {
      var key := q.log[a].key;
      if PassedAfter(q.log, a, key) {
        PassedStays(q.log, [Settled(ok)], a, key);
        if next < |keys| { PassedStays(settled, [Passed(BatchAt(keys, next))], a, key); }
      } else if key !in q.pending {
        BatchMoves(keys, next, key);
        if key in BatchAt(keys, next) { PassedNow(settled, BatchAt(keys, next), a, key); }
      }
    }
  }

  lemma SettledLast(log: seq<Record>, ok: bool, more: seq<Record>)
    requires forall r :: r in more ==> !r.Settled?
    ensures LastOutcome(log + [Settled(ok)] + more) == ok
  {
    LastOutcomeKeeps(log + [Settled(ok)], more);
  }

  /**
   * On every interleaving: pending keys have a flush coming; every key queued is pending, in the running
   * flush, or was passed to the adapter since; batches hold at most 256 keys; and the health flag is how
   * the last batch ended.
   */
  lemma {:induction false} RunsKeepInv(events: seq<Event>)
    ensures Inv(Run(events))
  {
    if events != [] {
      var q, e := Run(events[..|events| - 1]), events[|events| - 1];
      RunsKeepInv(events[..|events| - 1]);
      if Enabled(q, e) {
        StepKeepsInv(q, e);
      }
      hide Inv, Step, Enabled;
    }
  }

  lemma StepKeepsInv(q: Queue, e: Event)
    requires Inv(q) && Enabled(q, e)
    ensures Inv(Step(q, e))
  {
    hide Inv;
    match e
    case EnqueueCall(keys) => EnqueueKeepsInv(q, keys);
    case FlushCall => SchedulingKeepsInv(q, q.timer);
    case Timer(id) => SchedulingKeepsInv(q, Some(id));
    case Start => StartKeepsInv(q);
    case Settle(ok) => SettleKeepsInv(q, ok);
  }

  lemma SchedulingKeepsInv(q: Queue, disarmed: Option<nat>)
    requires Inv(q)
    ensures Inv(q.(armed := if disarmed.Some? then q.armed - {disarmed.value} else q.armed, waiting := q.waiting + 1))
  {
    hide LastOutcome, PassedAfter;
  }

  // ---------- nothing stays behind ----------

  predicate Internal(e: Event) {
    e.Timer? || e.Start? || e.Settle?
  }

  function Batches(keys: nat): nat {
    (keys + MAX_KEYS_PER_REQUEST - 1) / MAX_KEYS_PER_REQUEST
  }

  /** Armed timers fire and then flush, waiting flushes start, and batches settle: how often all that is still to happen. */
  function ToHappen(q: Queue): nat {
    2 * |q.armed| + q.waiting + Batches(|q.pending|)
    + if q.running.Some? && q.running.value.i <= |q.running.value.keys|
      then Batches(|q.running.value.keys| - q.running.value.i) else 0
  }

  lemma InternalEventHappens(q: Queue, e: Event)
    requires Inv(q) && Internal(e) && Enabled(q, e)
    ensures ToHappen(Step(q, e)) == ToHappen(q) - 1
  {
    hide NoneLost, LastOutcome, Scheduled;
    if e.Timer? {
      assert q.armed == q.armed - {e.id} + {e.id};
    }
  }

  /** Every event can happen when its turn comes. */
  predicate AllEnabled(q: Queue, events: seq<Event>)
    decreases |events|
  {
    events == [] || (Enabled(q, events[0]) && AllEnabled(Step(q, events[0]), events[1..]))
  }

  function AfterAll(q: Queue, events: seq<Event>): Queue
    requires AllEnabled(q, events)
    decreases |events|
  {
    if events == [] then q else AfterAll(Step(q, events[0]), events[1..])
  }

  /**
   * Left to itself the loop comes to rest, in whatever order its timers, flushes and batches come: after
   * exactly as many internal events as were still to happen, when none is possible any more.
   */
  lemma {:induction false} InternalEventsRunOut(q: Queue, events: seq<Event>)
    requires Inv(q) && AllEnabled(q, events) && forall e :: e in events ==> Internal(e)
    ensures Inv(AfterAll(q, events))
    ensures |events| + ToHappen(AfterAll(q, events)) == ToHappen(q)
    ensures |events| == ToHappen(q) <==> forall e :: Internal(e) ==> !Enabled(AfterAll(q, events), e)
    decreases |events|
  {
    if events == [] {
      RestHasNothing(q);
    } else {
      var e := events[0];
      assert e in events && forall x :: x in events[1..] ==> x in events;
      InternalEventHappens(q, e);
      StepKeepsInv(q, e);
      hide Inv, Step, Enabled, ToHappen, Internal;
      InternalEventsRunOut(Step(q, e), events[1..]);
    }
  }

  lemma RestHasNothing(q: Queue)
    requires Inv(q)
    ensures ToHappen(q) == 0 <==> forall e :: Internal(e) ==> !Enabled(q, e)
  {
    hide NoneLost, LastOutcome;
    if forall e :: Internal(e) ==> !Enabled(q, e) {
      assert !Enabled(q, Start) && !Enabled(q, Settle(true));
      forall id
        ensures id !in q.armed
      {
        assert !Enabled(q, Timer(id));
      }
      assert q.armed == {};
    }
  }

  /** At rest, every key that was ever queued has been handed to the adapter since. */
  lemma AtRestAllIsPassed(q: Queue, a: nat)
    requires Inv(q) && a < |q.log| && q.log[a].Queued?
    requires forall e :: Internal(e) ==> !Enabled(q, e)
    ensures PassedAfter(q.log, a, q.log[a].key)
  {
    assert !Enabled(q, Start) && !Enabled(q, Settle(true));
    assert q.timer.Some? ==> !Enabled(q, Timer(q.timer.value));
  }
}
