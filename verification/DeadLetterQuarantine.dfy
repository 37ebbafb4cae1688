/** Quarantine and backoff in the dead-letter queue, and what overlapping ticks can do to both. */
module DeadLetterQuarantine {
  import opened Wrappers
  import opened DeadLetter
  import opened DeadLetterRuns
  import opened DeadLetterSteps

  // ---------- entries that are done with ----------

  /**
   * Right after a group has been quarantined, no entry with its stack hash is queued or being retried; of the
   * failed row itself this holds if every claim so far was timely.
   */
  lemma GroupIsQuarantined(cfg: Config, events: seq<Event>, h: nat, now: int, id: nat)
    requires Enabled(cfg, Run(cfg, events), GroupWritten(h, now)) && id in Run(cfg, events).rows
    ensures
      var d := Run(cfg, events);
      var e := Step(cfg, d, GroupWritten(h, now)).rows[id];
      id != d.hand[h].row.id || (cfg.maxAttempts > 0 && TimelyRun(cfg, events)) ==>
        (e.stackHash == d.hand[h].stage.hash ==> e.state == Quarantined || e.state == Resolved)
  {
    hide Run, TimelyRun, Unshared, HeldOk, RestOk, Free;
    if cfg.maxAttempts > 0 && TimelyRun(cfg, events) {
      RunsKeepInv(cfg, events);
      assert GroupOk(Run(cfg, events), h);
    }
  }

  predicate Settled(e: Entry) {
    e.state == Quarantined || e.state == Resolved
  }

  /** A settled entry that no tick is going to attempt stays as it is, whatever happens. */
  lemma SettledHolds(cfg: Config, d: Dlq, e: Event, id: nat)
    requires Enabled(cfg, d, e) && id in d.rows && Settled(d.rows[id]) && Free(d.hand, id)
    ensures id in Step(cfg, d, e).rows && Step(cfg, d, e).rows[id] == d.rows[id] && Free(Step(cfg, d, e).hand, id)
  {
    hide ComputeBackoff, SameHash;
    if e.Claim? {
      assert forall i :: 0 <= i < |e.ids| ==> e.ids[i] in e.ids && Claimable(d.rows[e.ids[i]], e.now);
    }
  }

  /** So once it is free it stays quarantined or resolved for good, however the ticks overlap. */
  lemma {:induction false} SettledIsFinal(cfg: Config, events: seq<Event>, more: seq<Event>, id: nat)
    requires
      var d := Run(cfg, events);
      id in d.rows && Settled(d.rows[id]) && Free(d.hand, id)
    ensures
      var d, later := Run(cfg, events), Run(cfg, events + more);
      id in later.rows && later.rows[id] == d.rows[id] && Free(later.hand, id)
    decreases |more|
  {
    if more == [] {
      assert events + more == events;
    } else {
      var before, e := more[..|more| - 1], more[|more| - 1];
      assert events + more == events + before + [e];
      SettledIsFinal(cfg, events, before, id);
      RunExtends(cfg, events + before, e);
      hide Run, Step, Enabled, Free;
      if Enabled(cfg, Run(cfg, events + before), e) {
        SettledHolds(cfg, Run(cfg, events + before), e, id);
      }
    }
  }

  /** A resolved entry is put back exactly by a tick that had it in hand as well and writes the failure of its attempt. */
  lemma ResolutionEnds(cfg: Config, d: Dlq, e: Event, id: nat)
    requires Enabled(cfg, d, e) && id in d.rows && d.rows[id].state == Resolved
    ensures id in Step(cfg, d, e).rows
    ensures Step(cfg, d, e).rows[id].state != Resolved
       <==> e.FailureWritten? && d.hand[e.h].row.id == id && d.hand[e.h].stage.next != Resolved
  {
    hide ComputeBackoff, SameHash;
    if e.Claim? {
      assert !Claimable(d.rows[id], e.now);
    }
  }

  /** What has been resolved while every claim was timely stays resolved for good, however late claims are from then on. */
  lemma ResolvedIsFinal(cfg: Config, events: seq<Event>, more: seq<Event>, id: nat)
    requires cfg.maxAttempts > 0 && TimelyRun(cfg, events)
    requires id in Run(cfg, events).rows && Run(cfg, events).rows[id].state == Resolved
    ensures
      var d, later := Run(cfg, events), Run(cfg, events + more);
      id in later.rows && later.rows[id] == d.rows[id] && Free(later.hand, id)
  {
    RunsKeepInv(cfg, events);
    var d := Run(cfg, events);
    hide Run, TimelyRun, Unshared, RestOk, GroupOk;
    forall h | h in d.hand && Holding(d.hand[h])
      ensures d.hand[h].row.id != id
    {
      assert HeldOk(cfg, d, h);
    }
    hide Inv, HeldOk;
    SettledIsFinal(cfg, events, more, id);
  }

  /** The attempt of a row that was in hand when its group was quarantined ends, and does not fail for good. */
  ghost predicate FreesFromQuarantine(d: Dlq, e: Event, id: nat) {
    || (e.HandlerEnds? && e.h in d.hand && d.hand[e.h].row.id == id && !e.outcome.Failed?)
    || (e.FailureWritten? && e.h in d.hand && d.hand[e.h].row.id == id
        && d.hand[e.h].stage.Counted? && d.hand[e.h].stage.next != Quarantined)
  }

  /** An entry leaves quarantine by exactly that. */
  lemma QuarantineEnds(cfg: Config, d: Dlq, e: Event, id: nat)
    requires Enabled(cfg, d, e) && id in d.rows && d.rows[id].state == Quarantined
    ensures id in Step(cfg, d, e).rows
    ensures Step(cfg, d, e).rows[id].state != Quarantined <==> FreesFromQuarantine(d, e, id)
  {
    hide ComputeBackoff, SameHash;
    if e.Claim? {
      assert !Claimable(d.rows[id], e.now);
    }
  }

  /** Whatever the group quarantine did meanwhile, its own attempt decides about a row in hand. */
  lemma AttemptDecides(cfg: Config, rows: Table, c: Claimed, outcome: Outcome, now: int)
    requires c.id in rows
    ensures AfterAttempt(cfg, rows, c, outcome, now)[c.id].state == Quarantined
       <==> outcome.Failed? && Poisoned(cfg, rows, c.retryCount + 1, outcome.stackHash)
  {
    if outcome.Failed? { FailureTouches(cfg, rows, c, outcome.stackHash, now, c.id); }
    hide RecordFailure;
  }

  function TwoEntries(a: Entry, b: Entry): Table {
    map[0 := a, 1 := b]
  }

  lemma CountTwo(a: Entry, b: Entry, hash: string)
    requires a.state != Resolved && b.state != Resolved && a.stackHash == b.stackHash
    ensures SameHash(TwoEntries(a, b), hash) == if a.stackHash == hash then 2 else 0
  {
    assert OpenWith(TwoEntries(a, b), hash) == if a.stackHash == hash then {0, 1} else {};
  }

  lemma FirstQuarantinesBoth(cfg: Config, e: Entry, t: int)
    requires cfg.poisonThreshold == 2 && e.state == Retrying
    ensures AfterAttempt(cfg, TwoEntries(e, e), Claimed(0, 0), Failed(e.stackHash), t)
         == TwoEntries(Entry(Quarantined, 1, None, t, e.stackHash),
                       e.(state := Quarantined, nextRetryAt := None, updatedAt := t))
  {
    CountTwo(e, e, e.stackHash);
    hide SameHash, ComputeBackoff;
  }

  lemma SecondIsQueuedAgain(cfg: Config, a: Entry, b: Entry, q: string, t: int)
    requires cfg.poisonThreshold == 2 && cfg.maxAttempts >= 2
    requires a.state == b.state == Quarantined && a.stackHash == b.stackHash != q
    ensures AfterAttempt(cfg, TwoEntries(a, b), Claimed(1, 0), Failed(q), t)[1].state == Queued
  {
    CountTwo(a, b, q);
    hide SameHash, ComputeBackoff;
  }

  lemma TwoQueued(cfg: Config, p: string, t: int)
    requires t == ComputeBackoff(cfg, 1)
    ensures
      var e := Entry(Queued, 0, Some(t), 0, p);
      Run(cfg, [Enqueue(0, p, 0), Enqueue(1, p, 0)]) == Dlq(TwoEntries(e, e), map[], 0, 0, map[0 := 0, 1 := 0])
  {
    RunExtends(cfg, [], Enqueue(0, p, 0));
    RunExtends(cfg, [Enqueue(0, p, 0)], Enqueue(1, p, 0));
    assert [] + [Enqueue(0, p, 0)] + [Enqueue(1, p, 0)] == [Enqueue(0, p, 0), Enqueue(1, p, 0)];
    hide ComputeBackoff;
  }

  lemma BothDue(cfg: Config, p: string, t: int)
    requires cfg.batchSize >= 2
    ensures
      var e := Entry(Queued, 0, Some(t), 0, p);
      && ClaimAnswer(cfg, TwoEntries(e, e), [0, 1], t)
      && ClaimRows(TwoEntries(e, e), [0, 1], t)
         == TwoEntries(e.(state := Retrying, updatedAt := t), e.(state := Retrying, updatedAt := t))
      && ClaimedRows(TwoEntries(e, e), [0, 1]) == [Claimed(0, 0), Claimed(1, 0)]
  {
    assert forall id :: id in [0, 1] <==> id == 0 || id == 1;
  }

  lemma TickOfTwo(cfg: Config, rows: Table, a: Claimed, b: Claimed, x: (Outcome, int), y: (Outcome, int))
    requires a.id in rows && b.id in rows
    ensures b.id in AfterAttempt(cfg, rows, a, x.0, x.1)
    ensures (forall c :: c in [a, b] ==> c.id in rows)
         && TickRows(cfg, rows, [a, b], [x, y]) == AfterAttempt(cfg, AfterAttempt(cfg, rows, a, x.0, x.1), b, y.0, y.1)
  {
    KeepsIds(cfg, rows, a, x.0, x.1);
    hide AfterAttempt;
    assert [a, b][1..] == [b] && [x, y][1..] == [y] && [b][1..] == [] && [y][1..] == [];
    var rows' := AfterAttempt(cfg, rows, a, x.0, x.1);
    assert TickRows(cfg, rows', [b], [y]) == AfterAttempt(cfg, rows', b, y.0, y.1);
  }

  /**
   * From the empty table: two entries of kind `p` are claimed together; the first fails as `p` again and
   * quarantines both, and then the second fails as `q`.
   */
  function SecondFailsDifferently(p: string, q: string, t: int): (seq<Event>, seq<Event>) {
    ([Enqueue(0, p, 0), Enqueue(1, p, 0)] + [Claim([0, 1], t)], TickEvents(0, [(Failed(p), t), (Failed(q), t)]))
  }

  lemma QuarantineMayEndInTheSameTick(cfg: Config, p: string, q: string)
    requires cfg.poisonThreshold == 2 && cfg.maxAttempts >= 2 && cfg.batchSize >= 2 && p != q
    ensures
      var t: int := ComputeBackoff(cfg, 1);
      var (claim, tick) := SecondFailsDifferently(p, q, t);
      var grouped, ended := Run(cfg, claim + AttemptEvents(0, Failed(p), t)), Run(cfg, claim + tick);
      && 1 in grouped.rows && grouped.rows[1].state == Quarantined
      && 1 in ended.rows && ended.rows[1].state == Queued
  {
    var t: int := ComputeBackoff(cfg, 1);
    var queued := [Enqueue(0, p, 0), Enqueue(1, p, 0)];
    var d := Run(cfg, queued);
    TwoQueued(cfg, p, t);
    BothDue(cfg, p, t);
    RunExtends(cfg, queued, Claim([0, 1], t));
    hide Run, ComputeBackoff, AfterAttempt, TickRows, TickEvents, ClaimRows, ClaimedRows, ClaimAnswer;
    var e := Entry(Retrying, 0, Some(t), t, p);
    var q1 := AfterAttempt(cfg, TwoEntries(e, e), Claimed(0, 0), Failed(p), t);
    FirstQuarantinesBoth(cfg, e, t);
    AttemptIsThreeSteps(cfg, queued + [Claim([0, 1], t)], 0, Failed(p), t);
    SecondIsQueuedAgain(cfg, q1[0], q1[1], q, t);
    TickIsAttempts(cfg, queued, [0, 1], t, [(Failed(p), t), (Failed(q), t)]);
    TickOfTwo(cfg, TwoEntries(e, e), Claimed(0, 0), Claimed(1, 0), (Failed(p), t), (Failed(q), t));
  }

  // ---------- ticks that overlap too long ----------

  /** One entry, due at `t`, and claims of it that each come when the one before has just gone stale. */
  function StaleClaims(hash: string, t: int, n: nat): seq<Event> {
    if n == 0 then [Enqueue(0, hash, 0)]
    else StaleClaims(hash, t, n - 1) + [Claim([0], ClaimTime(t, n - 1))]
  }

  function ClaimTime(t: int, k: nat): int {
    t + k * (STALE_CLAIM_MS + 1)
  }

  function EntryAfter(hash: string, t: int, n: nat): Entry {
    if n == 0 then Entry(Queued, 0, Some(t), 0, hash) else Entry(Retrying, 0, Some(t), ClaimTime(t, n - 1), hash)
  }

  /** The entry, and a tick for each claim that has it in hand; the first `ended` of their handlers have failed. */
  ghost predicate AllHold(d: Dlq, e: Entry, n: nat, ended: nat) {
    && d.rows == map[0 := e] && d.attempts == map[0 := ended] && d.ticks == d.claims == n
    && (forall h: nat :: h in d.hand <==> h < n)
    && (forall h :: h in d.hand ==>
          && d.hand[h].tick == h && d.hand[h].row == Claimed(0, 0)
          && (if h < ended then d.hand[h].stage.Counted? else d.hand[h].stage.Handling?))
  }

  lemma ClaimTimeNext(t: int, k: nat)
    ensures ClaimTime(t, 0) == t && ClaimTime(t, k + 1) == ClaimTime(t, k) + STALE_CLAIM_MS + 1
  {
  }

  lemma ClaimOnce(cfg: Config, d: Dlq, hash: string, t: int, n: nat)
    requires cfg.batchSize > 0 && AllHold(d, EntryAfter(hash, t, n), n, 0)
    ensures Enabled(cfg, d, Claim([0], ClaimTime(t, n)))
    ensures AllHold(Step(cfg, d, Claim([0], ClaimTime(t, n))), EntryAfter(hash, t, n + 1), n + 1, 0)
  {
    ClaimTimeNext(t, if n == 0 then 0 else n - 1);
    hide ClaimTime;
    assert ClaimedRows(d.rows, [0]) == [Claimed(0, 0)];
    assert forall id :: id in [0] <==> id == 0;
  }

  lemma OneQueued(cfg: Config, hash: string, t: int)
    requires t == ComputeBackoff(cfg, 1)
    ensures AllHold(Run(cfg, StaleClaims(hash, t, 0)), EntryAfter(hash, t, 0), 0, 0)
  {
    RunExtends(cfg, [], Enqueue(0, hash, 0));
    assert [] + [Enqueue(0, hash, 0)] == StaleClaims(hash, t, 0);
    assert Run(cfg, []) == START && Enabled(cfg, START, Enqueue(0, hash, 0));
    hide ComputeBackoff, Run, StaleClaims;
  }

  lemma StaleClaimsNext(hash: string, t: int, n: nat)
    ensures StaleClaims(hash, t, n + 1) == StaleClaims(hash, t, n) + [Claim([0], ClaimTime(t, n))]
  {
  }

  lemma {:induction false} AllClaim(cfg: Config, hash: string, t: int, n: nat)
    requires cfg.batchSize > 0 && t == ComputeBackoff(cfg, 1)
    ensures AllHold(Run(cfg, StaleClaims(hash, t, n)), EntryAfter(hash, t, n), n, 0)
  {
    hide *;
    if n == 0 {
      OneQueued(cfg, hash, t);
    } else {
      AllClaim(cfg, hash, t, n - 1);
      ClaimOnce(cfg, Run(cfg, StaleClaims(hash, t, n - 1)), hash, t, n - 1);
      RunExtends(cfg, StaleClaims(hash, t, n - 1), Claim([0], ClaimTime(t, n - 1)));
      StaleClaimsNext(hash, t, n - 1);
    }
  }

  function AllFail(hash: string, now: int, n: nat): seq<Event> {
    if n == 0 then [] else AllFail(hash, now, n - 1) + [HandlerEnds(n - 1, Failed(hash), now)]
  }

  lemma EndOnce(cfg: Config, d: Dlq, e: Entry, n: nat, ended: nat, hash: string, now: int)
    requires AllHold(d, e, n, ended) && ended < n
    ensures Enabled(cfg, d, HandlerEnds(ended, Failed(hash), now))
    ensures AllHold(Step(cfg, d, HandlerEnds(ended, Failed(hash), now)), e, n, ended + 1)
  {
    hide FailureState;
  }

  lemma AllFailNext(claims: seq<Event>, hash: string, now: int, n: nat)
    ensures claims + AllFail(hash, now, 0) == claims
    ensures claims + AllFail(hash, now, n + 1) == claims + AllFail(hash, now, n) + [HandlerEnds(n, Failed(hash), now)]
  {
  }

  lemma {:induction false} AllEnd(cfg: Config, claims: seq<Event>, e: Entry, n: nat, ended: nat, hash: string, now: int)
    requires AllHold(Run(cfg, claims), e, n, 0) && ended <= n
    ensures AllHold(Run(cfg, claims + AllFail(hash, now, ended)), e, n, ended)
  {
    hide *;
    if ended == 0 {
      AllFailNext(claims, hash, now, 0);
    } else {
      AllFailNext(claims, hash, now, ended - 1);
      AllEnd(cfg, claims, e, n, ended - 1, hash, now);
      var before := claims + AllFail(hash, now, ended - 1);
      EndOnce(cfg, Run(cfg, before), e, n, ended - 1, hash, now);
      RunExtends(cfg, before, HandlerEnds(ended - 1, Failed(hash), now));
    }
  }

  /** Ticks that keep an entry in hand for more than ten minutes let it be attempted any number of times. */
  lemma OverlapExceedsTheBound(cfg: Config, hash: string, n: nat)
    requires cfg.batchSize > 0
    ensures
      var t: int := ComputeBackoff(cfg, 1);
      var events := StaleClaims(hash, t, n) + AllFail(hash, ClaimTime(t, n), n);
      var d := Run(cfg, events);
      && 0 in d.rows && 0 in d.attempts && d.attempts[0] == n
      && (n > cfg.maxAttempts > 0 ==> !TimelyRun(cfg, events))
  {
    var t: int := ComputeBackoff(cfg, 1);
    var events := StaleClaims(hash, t, n) + AllFail(hash, ClaimTime(t, n), n);
    AllClaim(cfg, hash, t, n);
    hide ComputeBackoff, StaleClaims, Run, EntryAfter, TimelyRun;
    AllEnd(cfg, StaleClaims(hash, t, n), EntryAfter(hash, t, n), n, n, hash, ClaimTime(t, n));
    if n > cfg.maxAttempts > 0 && TimelyRun(cfg, events) {
      AttemptsAreBounded(cfg, events, 0);
    }
  }

  lemma SucceedThenFail(cfg: Config, d: Dlq, e: Entry, hash: string, now: int)
    requires AllHold(d, e, 2, 0) && cfg.maxAttempts >= 2 && cfg.poisonThreshold >= 1
    ensures
      && Enabled(cfg, d, HandlerEnds(1, Success, now))
      && var d1 := Step(cfg, d, HandlerEnds(1, Success, now));
      && 0 in d1.rows && d1.rows[0].state == Resolved
      && Enabled(cfg, d1, HandlerEnds(0, Failed(hash), now))
      && var d2 := Step(cfg, d1, HandlerEnds(0, Failed(hash), now));
      && Enabled(cfg, d2, FailureWritten(0, now))
      && 0 in Step(cfg, d2, FailureWritten(0, now)).rows && Step(cfg, d2, FailureWritten(0, now)).rows[0].state == Queued
  {
    assert OpenWith(MarkResolved(d.rows, 0, now), hash) == {};
    hide ComputeBackoff;
  }

  /** And what one of them has resolved, the other puts back into the queue. */
  lemma ResolvedMayBeQueuedAgain(cfg: Config, hash: string)
    requires cfg.batchSize > 0 && cfg.maxAttempts >= 2 && cfg.poisonThreshold >= 1
    ensures
      var t: int := ComputeBackoff(cfg, 1);
      var now := ClaimTime(t, 2);
      var events := StaleClaims(hash, t, 2) + [HandlerEnds(1, Success, now)];
      var resolved := Run(cfg, events);
      var queued := Run(cfg, events + [HandlerEnds(0, Failed(hash), now)] + [FailureWritten(0, now)]);
      && 0 in resolved.rows && resolved.rows[0].state == Resolved
      && 0 in queued.rows && queued.rows[0].state == Queued
  {
    var t: int := ComputeBackoff(cfg, 1);
    var now := ClaimTime(t, 2);
    var claims := StaleClaims(hash, t, 2);
    AllClaim(cfg, hash, t, 2);
    hide ComputeBackoff, StaleClaims, Run, EntryAfter, ClaimTime;
    SucceedThenFail(cfg, Run(cfg, claims), EntryAfter(hash, t, 2), hash, now);
    hide Enabled, Step, AllHold;
    RunExtends(cfg, claims, HandlerEnds(1, Success, now));
    RunExtends(cfg, claims + [HandlerEnds(1, Success, now)], HandlerEnds(0, Failed(hash), now));
    RunExtends(cfg, claims + [HandlerEnds(1, Success, now)] + [HandlerEnds(0, Failed(hash), now)], FailureWritten(0, now));
  }
}
