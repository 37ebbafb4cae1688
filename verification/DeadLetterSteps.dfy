/** What each statement of the dead-letter queue does to each row, in terms of its columns. */
module DeadLetterSteps {
  import opened Wrappers
  import opened Basics
  import opened Bits
  import opened DeadLetter

  /** Why a failed attempt quarantines: it was the last one allowed, or too many open rows share the stack hash. */
  predicate Poisoned(cfg: Config, rows: Table, attempts: nat, hash: string) {
    || attempts >= cfg.maxAttempts
    || |set id | id in rows && rows[id].stackHash == hash && rows[id].state != Resolved| >= cfg.poisonThreshold
  }

  lemma FailureIsPoison(cfg: Config, rows: Table, c: Claimed, hash: string)
    ensures FailureState(cfg, rows, c, hash) == if Poisoned(cfg, rows, c.retryCount + 1, hash) then Quarantined else Queued
  {
    assert OpenWith(rows, hash) == set id | id in rows && rows[id].stackHash == hash && rows[id].state != Resolved;
  }

  /** A row that the quarantine of stack hash `hash` reaches. */
  predicate InGroup(e: Entry, hash: string) {
    e.stackHash == hash && (e.state == Queued || e.state == Retrying)
  }

  /**
   * A failed attempt without interruption: the failed row counts it and is quarantined or waits out its backoff;
   * every other row is left as it is, except that the open ones of the same stack hash are quarantined with it.
   */
  lemma FailureTouches(cfg: Config, rows: Table, c: Claimed, hash: string, now: int, id: nat)
    requires c.id in rows && id in rows
    ensures
      var after, e := RecordFailure(cfg, rows, c, hash, now), rows[id];
      var poison, n := Poisoned(cfg, rows, c.retryCount + 1, hash), c.retryCount + 1;
      && after.Keys == rows.Keys
      && after[id] ==
         if id == c.id && poison then Entry(Quarantined, n, None, now, hash)
         else if id == c.id then Entry(Queued, n, Some(now + ComputeBackoff(cfg, n)), now, hash)
         else if poison && InGroup(e, hash) then Entry(Quarantined, e.retryCount, None, now, hash)
         else e
  {
    FailureIsPoison(cfg, rows, c, hash);
    hide ComputeBackoff, Poisoned, FailureState;
  }

  /** Every step of every run: the rows it may change, and what becomes of them. All other rows stay as they are. */
  lemma StepTouches(cfg: Config, d: Dlq, ev: Event, id: nat)
    requires Enabled(cfg, d, ev) && id in d.rows
    ensures
      var after, e := Step(cfg, d, ev).rows, d.rows[id];
      && id in after
      && after[id] ==
         match ev
         case Enqueue(_, _, _) => e
         case Claim(ids, now) =>
           if id in ids then Entry(Retrying, e.retryCount, e.nextRetryAt, now, e.stackHash) else e
         case HandlerEnds(h, outcome, now) =>
           if id == d.hand[h].row.id && !outcome.Failed?
           then Entry(Resolved, e.retryCount, None, now, e.stackHash) else e
         case FailureWritten(h, now) =>
           var n, Counted(hash, next) := d.hand[h].row.retryCount + 1, d.hand[h].stage;
           if id == d.hand[h].row.id
           then Entry(next, n, if next == Queued then Some(now + ComputeBackoff(cfg, n)) else None, now, hash)
           else e
         case GroupWritten(h, now) =>
           if id != d.hand[h].row.id && InGroup(e, d.hand[h].stage.hash)
           then Entry(Quarantined, e.retryCount, None, now, e.stackHash) else e
  {
    hide ComputeBackoff, SameHash, ClaimAnswer;
  }

  /** No step takes rows out, and only an insertion adds one, which is queued behind its first backoff. */
  lemma StepKeepsRows(cfg: Config, d: Dlq, ev: Event)
    requires Enabled(cfg, d, ev)
    ensures Step(cfg, d, ev).rows.Keys == d.rows.Keys + if ev.Enqueue? then {ev.id} else {}
    ensures ev.Enqueue? ==>
      Step(cfg, d, ev).rows[ev.id] == Entry(Queued, 0, Some(ev.now + Min(cfg.max, cfg.base)), ev.now, ev.stackHash)
  {
    hide SameHash, ClaimAnswer;
    assert Pow2(0) == 1;
  }

  /** A handler that fails leads to quarantine exactly if the rows, as they are when they are counted, call for it. */
  lemma FailureDecides(cfg: Config, d: Dlq, h: nat, hash: string, now: int)
    requires Enabled(cfg, d, HandlerEnds(h, Failed(hash), now))
    ensures
      var d', poison := Step(cfg, d, HandlerEnds(h, Failed(hash), now)),
                        Poisoned(cfg, d.rows, d.hand[h].row.retryCount + 1, hash);
      d'.hand == d.hand[h := d.hand[h].(stage := Counted(hash, if poison then Quarantined else Queued))]
  {
    FailureIsPoison(cfg, d.rows, d.hand[h].row, hash);
    hide Poisoned, FailureState;
  }

  /** What the claiming query may pick: a row due by its backoff, or one retried for more than ten minutes. */
  predicate Due(e: Entry, now: int) {
    || (e.state == Queued && e.nextRetryAt != None && e.nextRetryAt.value <= now)
    || (e.state == Retrying && now - e.updatedAt > 600_000)
  }

  /**
   * A claim is any choice of due rows, no row twice, at most a batch, that passes over a due row only when the batch
   * is full of rows that have been due as long; rows retried without a time come first.
   */
  lemma ClaimsTakeWhatIsDue(cfg: Config, d: Dlq, ids: seq<nat>, now: int)
    ensures Enabled(cfg, d, Claim(ids, now)) <==>
      && |ids| <= cfg.batchSize
      && (forall i, j :: 0 <= i < j < |ids| ==> ids[i] != ids[j])
      && (forall id :: id in ids ==> id in d.rows && Due(d.rows[id], now))
      && (forall id :: id in d.rows && Due(d.rows[id], now) && id !in ids ==>
            && |ids| == cfg.batchSize
            && forall c :: c in ids ==>
              var first, second := d.rows[c].nextRetryAt, d.rows[id].nextRetryAt;
              first == None || (second != None && first.value <= second.value))
  {
    assert forall id :: id in d.rows ==> (Due(d.rows[id], now) <==> Claimable(d.rows[id], now));
    hide Due, Claimable;
  }

  // ---------- backoff ----------

  /** The first backoff is the base, each further one twice the one before, all of them up to a cap that is reached. */
  lemma BackoffGrows(cfg: Config, attempts: nat)
    ensures ComputeBackoff(cfg, 0) == ComputeBackoff(cfg, 1) == Min(cfg.max, cfg.base)
    ensures attempts > 0 ==> ComputeBackoff(cfg, attempts + 1) == Min(cfg.max, 2 * ComputeBackoff(cfg, attempts))
    ensures cfg.base > 0 && attempts > cfg.max ==> ComputeBackoff(cfg, attempts) == cfg.max
  {
    assert Pow2(0) == 1;
    if attempts > 0 {
      var p := Pow2(attempts - 1);
      assert Pow2(attempts) == 2 * p;
      Pow2Exceeds(attempts - 1);
      hide Pow2;
      assert cfg.base * (2 * p) == 2 * (cfg.base * p);
      if cfg.base > 0 { AtLeast(cfg.base, p); }
    }
  }

  lemma AtLeast(b: nat, p: nat)
    requires b > 0
    ensures b * p >= p
  {
    assert (b - 1) * p >= 0;
  }

  lemma {:induction false} Pow2Exceeds(n: nat)
    ensures Pow2(n) > n
  {
    if n > 0 {
      Pow2Exceeds(n - 1);
    }
  }
}
