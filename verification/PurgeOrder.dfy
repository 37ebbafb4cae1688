/** In which order, and how often, the CDN purge queue passes keys on to its adapter. */
module PurgeOrder {
  import opened Wrappers
  import opened Basics
  import opened PurgeQueue

  predicate NoRepeats(keys: seq<string>) {
    forall i, j :: 0 <= i < j < |keys| ==> keys[i] != keys[j]
  }

  /** The keys of a call that are not pending yet, each where it comes first. */
  function NewKeys(pending: seq<string>, keys: seq<string>): seq<string> {
    if keys == [] then [] else
      var before, key := keys[..|keys| - 1], keys[|keys| - 1];
      NewKeys(pending, before) + if key in pending || key in before then [] else [key]
  }

  lemma {:induction false} AddOneMore(pending: seq<string>, keys: seq<string>, key: string)
    ensures
      var added := AddKeys(pending, keys);
      AddKeys(pending, keys + [key]) == if key in added then added else added + [key]
    decreases |keys|
  {
    if keys == [] {
      assert keys + [key] == [key] && [key][1..] == [];
    } else {
      assert (keys + [key])[1..] == keys[1..] + [key];
      AddOneMore(if keys[0] in pending then pending else pending + [keys[0]], keys[1..], key);
    }
  }

  lemma {:induction false} AddsNewKeys(pending: seq<string>, keys: seq<string>)
    ensures AddKeys(pending, keys) == pending + NewKeys(pending, keys)
  {
    if keys == [] {
      assert pending + [] == pending;
    } else {
      var before, key := keys[..|keys| - 1], keys[|keys| - 1];
      assert keys == before + [key];
      AddsNewKeys(pending, before);
      AddOneMore(pending, before, key);
      AddKeysHas(pending, before);
      hide AddKeys;
      assert pending + NewKeys(pending, before) + [key] == pending + (NewKeys(pending, before) + [key]);
    }
  }

  lemma {:induction false} AddsNoRepeats(pending: seq<string>, keys: seq<string>)
    requires NoRepeats(pending)
    ensures NoRepeats(AddKeys(pending, keys))
    decreases |keys|
  {
    if keys != [] {
      AddsNoRepeats(if keys[0] in pending then pending else pending + [keys[0]], keys[1..]);
    }
  }

  /** No key is pending twice, or twice in the flush that runs. */
  ghost predicate Once(q: Queue) {
    NoRepeats(q.pending) && (q.running.Some? ==> NoRepeats(q.running.value.keys))
  }

  lemma StepKeepsOnce(q: Queue, e: Event)
    requires Once(q) && Enabled(q, e)
    ensures Once(Step(q, e))
  {
    if e.EnqueueCall? { AddsNoRepeats(q.pending, e.keys); }
    hide NoRepeats, AddKeys, BatchAt;
  }

  lemma {:induction false} RunsKeepOnce(events: seq<Event>)
    ensures Once(Run(events))
  {
    if events != [] {
      var q, e := Run(events[..|events| - 1]), events[|events| - 1];
      RunsKeepOnce(events[..|events| - 1]);
      if Enabled(q, e) { StepKeepsOnce(q, e); }
      hide Once, Step, Enabled;
    }
  }

  /**
   * When flushes come, and the health flag: keys arm a timer unless one is held, which stays held until the next flush
   * begins; a flush asked for disarms it; and only a batch that ends says how healthy the adapter is.
   */
  lemma TimersMove(q: Queue, e: Event)
    requires Enabled(q, e)
    ensures
      var q' := Step(q, e);
      match e
      case EnqueueCall(_) =>
        && q'.waiting == q.waiting && q'.healthy == q.healthy
        && if q.timer == None then q'.timer == Some(q.nextTimer) && q'.armed == q.armed + {q.nextTimer}
           else q'.timer == q.timer && q'.armed == q.armed
      case FlushCall =>
        && q'.waiting == q.waiting + 1 && q'.timer == q.timer && q'.healthy == q.healthy
        && q'.armed == (set t | t in q.armed && q.timer != Some(t))
      case Timer(id) =>
        q'.waiting == q.waiting + 1 && q'.timer == q.timer && q'.healthy == q.healthy && q'.armed == q.armed - {id}
      case Start =>
        q'.waiting == q.waiting - 1 && q'.timer == None && q'.healthy == q.healthy && q'.armed == q.armed
      case Settle(ok) =>
        q'.waiting == q.waiting && q'.timer == q.timer && q'.healthy == ok && q'.armed == q.armed
  {
    hide AddKeys, BatchAt;
  }

  // ---------- the stream of keys ----------

  /** The keys handed to the adapter so far, batch by batch. */
  function Handed(log: seq<Record>): seq<string> {
    if log == [] then [] else
      var last := log[|log| - 1];
      Handed(log[..|log| - 1]) + if last.Passed? then last.batch else []
  }

  lemma HandedNext(log: seq<Record>, r: Record)
    ensures Handed(log + [r]) == Handed(log) + if r.Passed? then r.batch else []
  {
    assert (log + [r])[..|log|] == log;
  }

  lemma {:induction false} HandedQueued(log: seq<Record>, keys: seq<string>)
    ensures Handed(log + Queueds(keys)) == Handed(log)
  {
    if keys == [] {
      assert log + Queueds(keys) == log;
    } else {
      var before := keys[..|keys| - 1];
      assert log + Queueds(keys) == log + Queueds(before) + [Queued(keys[|keys| - 1])];
      HandedQueued(log, before);
      HandedNext(log + Queueds(before), Queued(keys[|keys| - 1]));
    }
  }

  /** What has been handed over, what the running flush has left, and what waits for the next one. */
  function Stream(q: Queue): seq<string> {
    Handed(q.log) + (Ahead(q) + q.pending)
  }

  lemma BatchIsNext(keys: seq<string>, i: nat)
    requires i <= |keys|
    ensures
      var left := keys[i..];
      var n := Min(256, |left|);
      && BatchAt(keys, i) == left[..n]
      && left[n..] == if i + MAX_KEYS_PER_REQUEST < |keys| then keys[i + MAX_KEYS_PER_REQUEST..] else []
  {
  }

  lemma NothingLeft(handed: seq<string>, left: seq<string>)
    requires left == []
    ensures left[Min(256, |left|)..] == [] && handed + left[..Min(256, |left|)] == handed
  {
  }

  lemma StartPasses(q: Queue)
    requires q.waiting > 0 && q.running.None?
    ensures
      var q', n := FlushStarts(q), Min(256, |q.pending|);
      && Ahead(q') == q.pending[n..] && q'.pending == [] && Handed(q'.log) == Handed(q.log) + q.pending[..n]
      && (q'.running.Some? <==> q.pending != [])
      && (q.pending != [] ==> q'.log == q.log + [Passed(q.pending[..n])])
  {
    BatchIsNext(q.pending, 0);
    assert q.pending[0..] == q.pending;
    HandedNext(q.log, Passed(BatchAt(q.pending, 0)));
    hide Handed, BatchAt;
    if q.pending == [] { NothingLeft(Handed(q.log), q.pending); }
  }

  lemma SettlePasses(q: Queue, ok: bool)
    requires q.running.Some? && q.running.value.i < |q.running.value.keys|
    ensures
      var q', left := PurgeSettles(q, ok), Ahead(q);
      var n, settled := Min(256, |left|), q.log + [Settled(ok)];
      && Ahead(q') == left[n..] && q'.pending == q.pending && (q'.running.Some? <==> left != [])
      && q'.log == if left == [] then settled else settled + [Passed(left[..n])]
  {
    var next := q.running.value.i + MAX_KEYS_PER_REQUEST;
    if next < |q.running.value.keys| {
      BatchIsNext(q.running.value.keys, next);
      hide BatchAt;
    }
  }

  lemma SettleHands(log: seq<Record>, ok: bool, left: seq<string>)
    ensures
      var n, settled := Min(256, |left|), log + [Settled(ok)];
      Handed(if left == [] then settled else settled + [Passed(left[..n])]) == Handed(log) + left[..n]
  {
    HandedNext(log, Settled(ok));
    HandedNext(log + [Settled(ok)], Passed(left[..Min(256, |left|)]));
    hide Handed;
    assert Handed(log) + [] == Handed(log);
  }

  /** A flush that starts, or goes on, passes the next 256 of its keys, or all it has left; at the end it is over. */
  lemma BatchesAreFull(q: Queue, e: Event)
    requires Inv(q) && Enabled(q, e) && (e.Start? || e.Settle?)
    ensures
      var q', left := Step(q, e), if e.Start? then q.pending else Ahead(q);
      var n := Min(256, |left|);
      && Ahead(q') == left[n..] && q'.pending == (if e.Start? then [] else q.pending)
      && Handed(q'.log) == Handed(q.log) + left[..n]
      && (q'.running.Some? <==> left != [])
      && (left != [] ==> q'.log[|q'.log| - 1] == Passed(left[..n]))
  {
    hide Handed, Ahead, NoneLost, Scheduled, LastOutcome, FlushStarts, PurgeSettles;
    if e.Start? {
      StartPasses(q);
    } else {
      SettlePasses(q, e.ok);
      SettleHands(q.log, e.ok, Ahead(q));
    }
  }

  lemma CutStream(handed: seq<string>, left: seq<string>, n: nat, pending: seq<string>)
    requires n <= |left|
    ensures handed + left[..n] + (left[n..] + pending) == handed + (left + pending)
    ensures handed + ([] + left) == handed + (left + [])
  {
  }

  lemma FlushMoves(q: Queue, e: Event)
    requires Inv(q) && Enabled(q, e) && (e.Start? || e.Settle?)
    ensures Stream(Step(q, e)) == Stream(q)
  {
    BatchesAreFull(q, e);
    var left := if e.Start? then q.pending else Ahead(q);
    assert e.Start? ==> Ahead(q) == [];
    hide Step, Handed, Ahead, Inv;
    CutStream(Handed(q.log), left, Min(256, |left|), Step(q, e).pending);
  }

  lemma EnqueueMoves(q: Queue, keys: seq<string>)
    ensures Stream(Enqueue(q, keys)) == Stream(q) + NewKeys(q.pending, keys)
  {
    AddsNewKeys(q.pending, keys);
    HandedQueued(q.log, keys);
    hide AddKeys, NewKeys, Handed, Queueds;
    var added := NewKeys(q.pending, keys);
    assert Ahead(Enqueue(q, keys)) == Ahead(q);
    assert Handed(q.log) + (Ahead(q) + (q.pending + added)) == Handed(q.log) + (Ahead(q) + q.pending) + added;
  }

  lemma SchedulingMoves(q: Queue, e: Event)
    requires Enabled(q, e) && (e.FlushCall? || e.Timer?)
    ensures Stream(Step(q, e)) == Stream(q)
  {
    hide Handed;
  }

  lemma StepMoves(q: Queue, e: Event)
    requires Inv(q) && Enabled(q, e)
    ensures Stream(Step(q, e)) == Stream(q) + if e.EnqueueCall? then NewKeys(q.pending, e.keys) else []
  {
    if e.EnqueueCall? {
      EnqueueMoves(q, e.keys);
      assert Step(q, e) == Enqueue(q, e.keys);
    }
    hide *;
    if e.FlushCall? || e.Timer? {
      SchedulingMoves(q, e);
    } else if e.Start? || e.Settle? {
      FlushMoves(q, e);
    }
    assert Stream(q) + [] == Stream(q);
  }

  /** The keys of all calls of a run, each call's without those that were pending by then. */
  function Called(events: seq<Event>): seq<string> {
    if events == [] then [] else
      var before, e := events[..|events| - 1], events[|events| - 1];
      Called(before) + if e.EnqueueCall? then NewKeys(Run(before).pending, e.keys) else []
  }

  /**
   * First in, first out, on every interleaving: what was handed over, then what the running flush has left, then what
   * is pending are together the keys of all calls in their order, without those that were pending when they came.
   */
  lemma {:induction false} KeysGoInOrder(events: seq<Event>)
    ensures Stream(Run(events)) == Called(events)
  {
    if events != [] {
      var before, e := events[..|events| - 1], events[|events| - 1];
      KeysGoInOrder(before);
      RunsKeepInv(before);
      if Enabled(Run(before), e) { StepMoves(Run(before), e); }
      hide Inv, Step, NewKeys, Stream;
      assert Called(before) + [] == Called(before);
    } else {
      hide Inv;
    }
  }
}
