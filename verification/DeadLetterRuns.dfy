/** What holds of the dead-letter queue over whole runs, however its ticks overlap. */
module DeadLetterRuns {
  import opened Wrappers
  import opened DeadLetter

  /** When a queued entry is due: a backoff after it was enqueued or last failed. */
  predicate Backed(cfg: Config, e: Entry) {
    e.nextRetryAt == Some(e.updatedAt + ComputeBackoff(cfg, e.retryCount))
  }

  /** A row that no tick will attempt: only if queued it will be attempted again, and then it may be. */
  predicate AtRest(cfg: Config, e: Entry, attempts: nat) {
    && e.state != Retrying && attempts <= cfg.maxAttempts
    && (e.state == Queued ==> e.retryCount == attempts < cfg.maxAttempts && Backed(cfg, e))
  }

  /** A claimed row; an entry with its stack hash may have been quarantined meanwhile, and it along with that. */
  predicate Held(cfg: Config, e: Entry, hold: Hold, attempts: nat) {
    && (e.state == Retrying || e.state == Quarantined)
    && e.retryCount == hold.row.retryCount < cfg.maxAttempts
    && attempts == hold.row.retryCount + (if hold.stage.Counted? then 1 else 0)
    && (hold.stage.Counted? ==>
          || hold.stage.next == Quarantined
          || (hold.stage.next == Queued && hold.row.retryCount + 1 < cfg.maxAttempts))
  }

  predicate Holding(hold: Hold) {
    !hold.stage.Grouping?
  }

  /** No tick is going to attempt row `id`, or to write what came of it. */
  ghost predicate Free(hand: map<nat, Hold>, id: nat) {
    forall h :: h in hand && Holding(hand[h]) ==> hand[h].row.id != id
  }

  /** No two claims hold the same row. */
  ghost predicate Unshared(hand: map<nat, Hold>) {
    forall g, h :: g in hand && h in hand && Holding(hand[g]) && Holding(hand[h]) && g != h ==>
      hand[g].row.id != hand[h].row.id
  }

  ghost predicate HeldOk(cfg: Config, d: Dlq, h: nat)
    requires h in d.hand
  {
    var hold := d.hand[h];
    Holding(hold) ==>
      hold.row.id in d.rows && hold.row.id in d.attempts && Held(cfg, d.rows[hold.row.id], hold, d.attempts[hold.row.id])
  }

  ghost predicate RestOk(cfg: Config, d: Dlq, id: nat)
    requires id in d.rows
  {
    id in d.attempts && (Free(d.hand, id) ==> AtRest(cfg, d.rows[id], d.attempts[id]))
  }

  /** A row whose group is about to be quarantined is in quarantine itself. */
  ghost predicate GroupOk(d: Dlq, h: nat)
    requires h in d.hand
  {
    var hold := d.hand[h];
    hold.stage.Grouping? ==>
      && hold.row.id in d.rows && Free(d.hand, hold.row.id)
      && d.rows[hold.row.id].state == Quarantined && d.rows[hold.row.id].stackHash == hold.stage.hash
  }

  ghost predicate Inv(cfg: Config, d: Dlq) {
    && Unshared(d.hand)
    && (forall h :: h in d.hand ==> h < d.claims && HeldOk(cfg, d, h) && GroupOk(d, h))
    && (forall id :: id in d.rows ==> RestOk(cfg, d, id))
  }

  // ---------- what one statement does to the rows it does not name ----------

  /** Left alone, or quarantined with its group. */
  predicate Quieter(e: Entry, e': Entry) {
    e' == e || ((e.state == Queued || e.state == Retrying) && e'.state == Quarantined
                && e'.retryCount == e.retryCount && e'.stackHash == e.stackHash)
  }

  lemma QuieterKeeps(cfg: Config, e: Entry, e': Entry, hold: Hold, attempts: nat)
    requires Quieter(e, e')
    ensures AtRest(cfg, e, attempts) ==> AtRest(cfg, e', attempts)
    ensures Held(cfg, e, hold, attempts) ==> Held(cfg, e', hold, attempts)
  {
  }

  /** The rows of `d'` other than `x` are as good as those of `d`, and nothing in hand has changed but claim `h` on `x`. */
  ghost predicate Moves(d: Dlq, d': Dlq, h: nat, x: nat) {
    && h in d.hand && d.hand[h].row.id == x && x in d.rows && x in d.attempts
    && d'.claims == d.claims && d'.rows.Keys == d.rows.Keys
    && (forall id :: id in d.attempts ==> id in d'.attempts && (id != x ==> d'.attempts[id] == d.attempts[id]))
    && (forall id :: id in d.rows && id != x ==> Quieter(d.rows[id], d'.rows[id]))
    && (forall g :: g in d.hand && g != h ==> g in d'.hand && d'.hand[g] == d.hand[g])
    && (forall g :: g in d'.hand ==> g in d.hand)
    && (h in d'.hand ==> d'.hand[h].row == d.hand[h].row && (Holding(d'.hand[h]) ==> Holding(d.hand[h])))
  }

  lemma MoveFree(d: Dlq, d': Dlq, h: nat, x: nat, id: nat)
    requires Moves(d, d', h, x) && id != x
    ensures Free(d'.hand, id) <==> Free(d.hand, id)
  {
    hide Quieter;
  }

  lemma MoveRest(cfg: Config, d: Dlq, d': Dlq, h: nat, x: nat, id: nat)
    requires Moves(d, d', h, x) && id in d.rows && id != x && RestOk(cfg, d, id)
    ensures RestOk(cfg, d', id)
  {
    MoveFree(d, d', h, x, id);
    QuieterKeeps(cfg, d.rows[id], d'.rows[id], d.hand[h], d.attempts[id]);
    hide AtRest, Free, Quieter;
  }

  lemma MoveHeld(cfg: Config, d: Dlq, d': Dlq, h: nat, x: nat, g: nat)
    requires Moves(d, d', h, x) && g in d.hand && g != h && HeldOk(cfg, d, g) && Unshared(d.hand)
    requires Holding(d.hand[h]) || (d'.rows[x] == d.rows[x] && d'.attempts[x] == d.attempts[x])
    ensures HeldOk(cfg, d', g)
  {
    var hold := d.hand[g];
    if Holding(hold) && hold.row.id != x {
      QuieterKeeps(cfg, d.rows[hold.row.id], d'.rows[hold.row.id], hold, d.attempts[hold.row.id]);
    }
    hide Held, Quieter;
  }

  lemma MoveGroup(cfg: Config, d: Dlq, d': Dlq, h: nat, x: nat, g: nat)
    requires Moves(d, d', h, x) && g in d.hand && g != h && GroupOk(d, g)
    requires Holding(d.hand[h]) || (d'.rows[x] == d.rows[x] && h !in d'.hand)
    ensures GroupOk(d', g)
  {
    var id := d.hand[g].row.id;
    if id != x { MoveFree(d, d', h, x, id); }
  }

  lemma MoveUnshared(d: Dlq, d': Dlq, h: nat, x: nat)
    requires Moves(d, d', h, x) && Unshared(d.hand)
    ensures Unshared(d'.hand)
  {
    hide Quieter;
  }

  /** It is enough to look at the row that a statement names. */
  lemma MoveKeepsInv(cfg: Config, d: Dlq, d': Dlq, h: nat, x: nat)
    requires Inv(cfg, d) && Moves(d, d', h, x)
    requires Holding(d.hand[h]) || (d'.rows[x] == d.rows[x] && d'.attempts[x] == d.attempts[x] && h !in d'.hand)
    requires h in d'.hand ==> HeldOk(cfg, d', h) && GroupOk(d', h)
    requires RestOk(cfg, d', x)
    ensures Inv(cfg, d')
  {
    hide HeldOk, GroupOk, RestOk, Unshared, Quieter;
    MoveUnshared(d, d', h, x);
    forall id | id in d'.rows
      ensures RestOk(cfg, d', id)
    {
      if id != x { MoveRest(cfg, d, d', h, x, id); }
    }
    forall g | g in d'.hand
      ensures HeldOk(cfg, d', g) && GroupOk(d', g)
    {
      if g != h {
        MoveHeld(cfg, d, d', h, x, g);
        MoveGroup(cfg, d, d', h, x, g);
      }
    }
  }

  // ---------- every step keeps the invariant ----------

  lemma HandlerKeepsInv(cfg: Config, d: Dlq, h: nat, outcome: Outcome, now: int)
    requires Inv(cfg, d) && Enabled(cfg, d, HandlerEnds(h, outcome, now))
    ensures Inv(cfg, Step(cfg, d, HandlerEnds(h, outcome, now)))
  {
    var d', x := Step(cfg, d, HandlerEnds(h, outcome, now)), d.hand[h].row.id;
    assert HeldOk(cfg, d, h);
    NowFree(d, h);
    HandlerMoves(cfg, d, h, outcome, now);
    hide SameHash, Moves, Inv, Unshared, Backed;
    MoveKeepsInv(cfg, d, d', h, x);
  }

  lemma HandlerMoves(cfg: Config, d: Dlq, h: nat, outcome: Outcome, now: int)
    requires Enabled(cfg, d, HandlerEnds(h, outcome, now)) && Unshared(d.hand)
    ensures
      var d', x := Step(cfg, d, HandlerEnds(h, outcome, now)), d.hand[h].row.id;
      Moves(d, d', h, x) && (h in d'.hand ==> Holding(d'.hand[h]) && !Free(d'.hand, x))
  {
    hide SameHash, Unshared;
  }

  lemma NowFree(d: Dlq, h: nat)
    requires Unshared(d.hand) && h in d.hand && Holding(d.hand[h])
    ensures Free(d.hand - {h}, d.hand[h].row.id)
    ensures !Free(d.hand, d.hand[h].row.id)
  {
  }

  lemma WriteMoves(cfg: Config, d: Dlq, h: nat, now: int)
    requires Enabled(cfg, d, FailureWritten(h, now)) && Unshared(d.hand)
    ensures
      var d', x := Step(cfg, d, FailureWritten(h, now)), d.hand[h].row.id;
      Moves(d, d', h, x) && Free(d'.hand, x) && (h in d'.hand ==> !Holding(d'.hand[h]))
  {
    hide ComputeBackoff;
  }

  lemma WriteKeepsInv(cfg: Config, d: Dlq, h: nat, now: int)
    requires Inv(cfg, d) && Enabled(cfg, d, FailureWritten(h, now))
    ensures Inv(cfg, Step(cfg, d, FailureWritten(h, now)))
  {
    var d', x := Step(cfg, d, FailureWritten(h, now)), d.hand[h].row.id;
    assert HeldOk(cfg, d, h);
    WriteMoves(cfg, d, h, now);
    hide ComputeBackoff, Moves, Free, Inv, Unshared;
    MoveKeepsInv(cfg, d, d', h, x);
  }

  lemma GroupKeepsInv(cfg: Config, d: Dlq, h: nat, now: int)
    requires Inv(cfg, d) && Enabled(cfg, d, GroupWritten(h, now))
    ensures Inv(cfg, Step(cfg, d, GroupWritten(h, now)))
  {
    var d', x := Step(cfg, d, GroupWritten(h, now)), d.hand[h].row.id;
    MoveKeepsInv(cfg, d, d', h, x);
  }

  /**
   * No claim meets a row that a tick still has in hand and that was last written more than ten minutes
   * before: ticks may overlap, but each deals with a row within that time.
   */
  ghost predicate Timely(d: Dlq, e: Event) {
    e.Claim? ==> forall h :: h in d.hand && Holding(d.hand[h]) && d.hand[h].row.id in d.rows ==>
      var row := d.rows[d.hand[h].row.id];
      row.state == Retrying ==> row.updatedAt >= e.now - STALE_CLAIM_MS
  }

  /** In time, nothing is claimed that is in hand already, or that was not queued. */
  lemma ClaimsAreFree(cfg: Config, d: Dlq, ids: seq<nat>, now: int, id: nat)
    requires Inv(cfg, d) && Enabled(cfg, d, Claim(ids, now)) && Timely(d, Claim(ids, now)) && id in ids
    ensures Free(d.hand, id) && d.rows[id].state == Queued && AtRest(cfg, d.rows[id], d.attempts[id])
  {
    assert Claimable(d.rows[id], now) && RestOk(cfg, d, id);
    hide Backed, Unshared;
  }

  /** After a claim exactly the rows that were free and are not among the claimed ones are free. */
  lemma ClaimFree(d: Dlq, ids: seq<nat>, id: nat)
    requires forall x :: x in ids ==> x in d.rows
    requires forall h :: h in d.hand ==> h < d.claims
    ensures Free(d.hand + Holds(ClaimedRows(d.rows, ids), d.ticks, d.claims), id) <==> Free(d.hand, id) && id !in ids
  {
    var claimed := ClaimedRows(d.rows, ids);
    var hand := d.hand + Holds(claimed, d.ticks, d.claims);
    hide Holds;
    assert forall h :: h in d.hand ==> hand[h] == d.hand[h];
    if id in ids {
      var i :| 0 <= i < |ids| && ids[i] == id;
      assert hand[d.claims + i].row == claimed[i];
    }
  }

  lemma JoinUnshared(a: map<nat, Hold>, b: map<nat, Hold>)
    requires Unshared(a) && Unshared(b) && forall h :: h in b ==> Free(a, b[h].row.id)
    ensures Unshared(a + b)
  {
  }

  lemma ClaimUnshared(d: Dlq, ids: seq<nat>)
    requires Unshared(d.hand) && forall i, j :: 0 <= i < j < |ids| ==> ids[i] != ids[j]
    requires forall x :: x in ids ==> x in d.rows && Free(d.hand, x)
    ensures Unshared(d.hand + Holds(ClaimedRows(d.rows, ids), d.ticks, d.claims))
  {
    var taken := Holds(ClaimedRows(d.rows, ids), d.ticks, d.claims);
    hide Holds, ClaimedRows, Free;
    assert forall h :: h in taken ==> taken[h].row.id == ids[h - d.claims] && ids[h - d.claims] in ids;
    assert Unshared(taken);
    hide Unshared;
    JoinUnshared(d.hand, taken);
  }

  /** A row comes into two hands exactly by a claim of one that is in hand, and such a claim is of a stale row. */
  lemma SharedByStaleClaims(cfg: Config, d: Dlq, ids: seq<nat>, now: int)
    requires Inv(cfg, d) && Enabled(cfg, d, Claim(ids, now))
    ensures Unshared(Step(cfg, d, Claim(ids, now)).hand) <==> forall id :: id in ids ==> Free(d.hand, id)
    ensures forall id :: id in ids && !Free(d.hand, id) ==>
              d.rows[id].state == Retrying && d.rows[id].updatedAt < now - STALE_CLAIM_MS
  {
    forall id | id in ids && !Free(d.hand, id)
      ensures !Unshared(d.hand + Holds(ClaimedRows(d.rows, ids), d.ticks, d.claims))
      ensures d.rows[id].state == Retrying
    {
      var g :| g in d.hand && Holding(d.hand[g]) && d.hand[g].row.id == id;
      var i :| 0 <= i < |ids| && ids[i] == id;
      assert HeldOk(cfg, d, g) && Claimable(d.rows[id], now);
      hide Inv, HeldOk, ClaimAnswer, Free;
      TwoHold(d, ids, g, i);
    }
    hide HeldOk, RestOk, GroupOk, Holds;
    if forall id :: id in ids ==> Free(d.hand, id) { ClaimUnshared(d, ids); }
    hide Unshared, Free;
  }

  lemma TwoHold(d: Dlq, ids: seq<nat>, g: nat, i: nat)
    requires (forall h :: h in d.hand ==> h < d.claims) && (forall id :: id in ids ==> id in d.rows)
    requires i < |ids| && g in d.hand && Holding(d.hand[g]) && d.hand[g].row.id == ids[i]
    ensures !Unshared(d.hand + Holds(ClaimedRows(d.rows, ids), d.ticks, d.claims))
  {
    var hand := d.hand + Holds(ClaimedRows(d.rows, ids), d.ticks, d.claims);
    hide Holds, ClaimedRows;
    assert hand[g] == d.hand[g] && hand[d.claims + i].row.id == ids[i];
  }

  lemma ClaimedIsHeld(cfg: Config, e: Entry, attempts: nat, tick: nat, id: nat, now: int)
    requires AtRest(cfg, e, attempts) && e.state == Queued
    ensures Held(cfg, e.(state := Retrying, updatedAt := now), Hold(tick, Claimed(id, e.retryCount), Handling), attempts)
  {
  }

  lemma AfterClaim(cfg: Config, d: Dlq, ids: seq<nat>, now: int)
    requires Enabled(cfg, d, Claim(ids, now))
    ensures
      var d' := Step(cfg, d, Claim(ids, now));
      && d'.claims == d.claims + |ids| && d'.ticks == d.ticks + 1
      && d'.rows == ClaimRows(d.rows, ids, now) && d'.rows.Keys == d.rows.Keys && d'.attempts == d.attempts
      && d'.hand == d.hand + Holds(ClaimedRows(d.rows, ids), d.ticks, d.claims)
      && forall h :: h in d'.hand <==> h in d.hand || d.claims <= h < d.claims + |ids|
  {
    hide Holds, ClaimAnswer, ClaimedRows;
  }

  lemma NewClaim(d: Dlq, ids: seq<nat>, now: int, i: nat)
    requires (forall id :: id in ids ==> id in d.rows) && i < |ids|
    ensures
      var hand := d.hand + Holds(ClaimedRows(d.rows, ids), d.ticks, d.claims);
      d.claims + i in hand && hand[d.claims + i] == Hold(d.ticks, Claimed(ids[i], d.rows[ids[i]].retryCount), Handling)
    ensures ClaimRows(d.rows, ids, now)[ids[i]] == d.rows[ids[i]].(state := Retrying, updatedAt := now)
  {
    var holds := Holds(ClaimedRows(d.rows, ids), d.ticks, d.claims);
    hide Holds;
    assert d.claims + i in holds;
  }

  lemma ClaimHeldNew(cfg: Config, d: Dlq, ids: seq<nat>, now: int, i: nat)
    requires Inv(cfg, d) && Enabled(cfg, d, Claim(ids, now)) && Timely(d, Claim(ids, now)) && i < |ids|
    ensures HeldOk(cfg, Step(cfg, d, Claim(ids, now)), d.claims + i)
  {
    var id := ids[i];
    assert id in ids && RestOk(cfg, d, id);
    ClaimsAreFree(cfg, d, ids, now, id);
    AfterClaim(cfg, d, ids, now);
    NewClaim(d, ids, now, i);
    hide Inv, AtRest, Held, ClaimAnswer, Timely, Free, RestOk, Holds, ClaimedRows, ClaimRows, Step;
    ClaimedIsHeld(cfg, d.rows[id], d.attempts[id], d.ticks, id, now);
  }

  lemma ClaimHeldOld(cfg: Config, d: Dlq, ids: seq<nat>, now: int, h: nat)
    requires Inv(cfg, d) && Enabled(cfg, d, Claim(ids, now)) && Timely(d, Claim(ids, now)) && h in d.hand
    ensures HeldOk(cfg, Step(cfg, d, Claim(ids, now)), h)
  {
    assert HeldOk(cfg, d, h);
    var id := d.hand[h].row.id;
    if id in ids { ClaimsAreFree(cfg, d, ids, now, id); }
    hide Inv, Held, ClaimAnswer, Timely;
  }

  lemma ClaimGroup(cfg: Config, d: Dlq, ids: seq<nat>, now: int, h: nat)
    requires Inv(cfg, d) && Enabled(cfg, d, Claim(ids, now))
    requires h in Step(cfg, d, Claim(ids, now)).hand
    ensures GroupOk(Step(cfg, d, Claim(ids, now)), h)
  {
    if h in d.hand && d.hand[h].stage.Grouping? {
      assert GroupOk(d, h);
      var id := d.hand[h].row.id;
      assert !Claimable(d.rows[id], now);
      ClaimFree(d, ids, id);
    }
    hide Inv, Free, ClaimAnswer;
  }

  lemma ClaimRest(cfg: Config, d: Dlq, ids: seq<nat>, now: int, id: nat)
    requires Inv(cfg, d) && Enabled(cfg, d, Claim(ids, now)) && id in d.rows
    ensures RestOk(cfg, Step(cfg, d, Claim(ids, now)), id)
  {
    assert RestOk(cfg, d, id);
    ClaimFree(d, ids, id);
    hide Inv, Free, AtRest, ClaimAnswer;
  }

  lemma ClaimKeepsInv(cfg: Config, d: Dlq, ids: seq<nat>, now: int)
    requires Inv(cfg, d) && Enabled(cfg, d, Claim(ids, now)) && Timely(d, Claim(ids, now))
    ensures Inv(cfg, Step(cfg, d, Claim(ids, now)))
  {
    hide HeldOk, GroupOk, RestOk, Holds, Free, Unshared, Timely;
    forall id | id in ids
      ensures Free(d.hand, id)
    {
      ClaimsAreFree(cfg, d, ids, now, id);
    }
    ClaimUnshared(d, ids);
    AfterClaim(cfg, d, ids, now);
    hide ClaimAnswer;
    var d' := Step(cfg, d, Claim(ids, now));
    forall h | h in d'.hand
      ensures h < d'.claims && HeldOk(cfg, d', h) && GroupOk(d', h)
    {
      if h in d.hand {
        ClaimHeldOld(cfg, d, ids, now, h);
      } else {
        ClaimHeldNew(cfg, d, ids, now, h - d.claims);
      }
      ClaimGroup(cfg, d, ids, now, h);
    }
    forall id | id in d'.rows
      ensures RestOk(cfg, d', id)
    {
      ClaimRest(cfg, d, ids, now, id);
    }
  }

  lemma EnqueueKeepsInv(cfg: Config, d: Dlq, id: nat, hash: string, now: int)
    requires cfg.maxAttempts > 0 && Inv(cfg, d) && id !in d.rows
    ensures Inv(cfg, Step(cfg, d, Enqueue(id, hash, now)))
  {
    var d' := Step(cfg, d, Enqueue(id, hash, now));
    assert ComputeBackoff(cfg, 0) == ComputeBackoff(cfg, 1);
    hide ComputeBackoff, Free, Unshared;
    forall k | k in d'.rows
      ensures RestOk(cfg, d', k)
    {
      assert k != id ==> RestOk(cfg, d, k);
    }
    forall h | h in d'.hand
      ensures HeldOk(cfg, d', h) && GroupOk(d', h)
    {
      assert HeldOk(cfg, d, h) && GroupOk(d, h);
    }
  }

  lemma StepKeepsInv(cfg: Config, d: Dlq, e: Event)
    requires cfg.maxAttempts > 0 && Inv(cfg, d) && Enabled(cfg, d, e) && Timely(d, e)
    ensures Inv(cfg, Step(cfg, d, e))
  {
    hide Inv, Step, Timely;
    match e
    case Enqueue(id, hash, now) => EnqueueKeepsInv(cfg, d, id, hash, now);
    case Claim(ids, now) => ClaimKeepsInv(cfg, d, ids, now);
    case HandlerEnds(h, outcome, now) => HandlerKeepsInv(cfg, d, h, outcome, now);
    case FailureWritten(h, now) => WriteKeepsInv(cfg, d, h, now);
    case GroupWritten(h, now) => GroupKeepsInv(cfg, d, h, now);
  }

  /** Every claim of the run is timely. */
  ghost predicate TimelyRun(cfg: Config, events: seq<Event>) {
    events == [] ||
      (TimelyRun(cfg, events[..|events| - 1])
       && Timely(Run(cfg, events[..|events| - 1]), events[|events| - 1]))
  }

  lemma {:induction false} RunsKeepInv(cfg: Config, events: seq<Event>)
    requires cfg.maxAttempts > 0 && TimelyRun(cfg, events)
    ensures Inv(cfg, Run(cfg, events))
  {
    if events != [] {
      var d, e := Run(cfg, events[..|events| - 1]), events[|events| - 1];
      RunsKeepInv(cfg, events[..|events| - 1]);
      if Enabled(cfg, d, e) {
        StepKeepsInv(cfg, d, e);
      }
      hide Inv, Step, Enabled, Timely;
    }
  }

  /**
   * If every claim is timely, no entry is attempted more often than the maximum, and one that is queued has
   * been attempted exactly as often as its retry count says, which is less; with no row in hand none is left
   * retrying.
   */
  lemma AttemptsAreBounded(cfg: Config, events: seq<Event>, id: nat)
    requires cfg.maxAttempts > 0 && TimelyRun(cfg, events) && id in Run(cfg, events).rows
    ensures
      var d := Run(cfg, events);
      && id in d.attempts && d.attempts[id] <= cfg.maxAttempts
      && (d.rows[id].state == Queued ==> d.rows[id].retryCount == d.attempts[id] < cfg.maxAttempts)
      && (d.hand == map[] ==> d.rows[id].state != Retrying)
  {
    RunsKeepInv(cfg, events);
    hide Run, TimelyRun, Backed, Unshared;
    assert RestOk(cfg, Run(cfg, events), id);
  }

  /** A queued entry is not claimed before its backoff since the last failure, or since it came, is over. */
  lemma ClaimsWaitForBackoff(cfg: Config, events: seq<Event>, ids: seq<nat>, now: int, id: nat)
    requires cfg.maxAttempts > 0 && TimelyRun(cfg, events + [Claim(ids, now)])
    requires Enabled(cfg, Run(cfg, events), Claim(ids, now)) && id in ids
    ensures
      var e := Run(cfg, events).rows[id];
      e.state == Queued && now >= e.updatedAt + ComputeBackoff(cfg, e.retryCount)
  {
    assert (events + [Claim(ids, now)])[..|events|] == events;
    RunsKeepInv(cfg, events);
    ClaimsAreFree(cfg, Run(cfg, events), ids, now, id);
    hide Run, TimelyRun, ComputeBackoff, Inv, Free;
  }

  // ---------- a tick without interruption ----------

  lemma RunExtends(cfg: Config, events: seq<Event>, e: Event)
    ensures
      var d := Run(cfg, events);
      Run(cfg, events + [e]) == if Enabled(cfg, d, e) then Step(cfg, d, e) else d
  {
    assert (events + [e])[..|events + [e]| - 1] == events;
    hide Enabled, Step;
  }

  /** The statements of one attempt; the last two only follow a failure, and the last only if it quarantines. */
  function AttemptEvents(h: nat, outcome: Outcome, now: int): seq<Event> {
    [HandlerEnds(h, outcome, now), FailureWritten(h, now), GroupWritten(h, now)]
  }

  lemma FailureSteps(cfg: Config, d: Dlq, h: nat, hash: string, now: int)
    requires Current(d, h) && d.hand[h].stage.Handling?
    ensures
      var d1 := Step(cfg, d, HandlerEnds(h, Failed(hash), now));
      && Enabled(cfg, d1, FailureWritten(h, now))
      && var d2 := Step(cfg, d1, FailureWritten(h, now));
      var d3 := if Enabled(cfg, d2, GroupWritten(h, now)) then Step(cfg, d2, GroupWritten(h, now)) else d2;
      && d3.rows == RecordFailure(cfg, d.rows, d.hand[h].row, hash, now) && d3.hand == d.hand - {h}
      && forall id :: id in d.attempts ==> id in d3.attempts
  {
    hide SameHash, ComputeBackoff, QuarantineGroup;
  }

  lemma AttemptIsThreeSteps(cfg: Config, events: seq<Event>, h: nat, outcome: Outcome, now: int)
    requires Current(Run(cfg, events), h) && Run(cfg, events).hand[h].stage.Handling?
    ensures
      var d, done := Run(cfg, events), Run(cfg, events + AttemptEvents(h, outcome, now));
      && done.rows == AfterAttempt(cfg, d.rows, d.hand[h].row, outcome, now) && done.hand == d.hand - {h}
      && forall id :: id in d.attempts ==> id in done.attempts
  {
    var d := Run(cfg, events);
    var e1, e2, e3 := HandlerEnds(h, outcome, now), FailureWritten(h, now), GroupWritten(h, now);
    RunExtends(cfg, events, e1);
    RunExtends(cfg, events + [e1], e2);
    RunExtends(cfg, events + [e1] + [e2], e3);
    assert events + AttemptEvents(h, outcome, now) == events + [e1] + [e2] + [e3];
    hide Run, RecordFailure, MarkResolved;
    if outcome.Failed? {
      FailureSteps(cfg, d, h, outcome.stackHash, now);
      hide Step, Enabled;
    } else {
      hide WriteFailure, QuarantineGroup, FailureState;
    }
  }

  /** Claims and ticks are numbered in order, and whatever is in hand is a row with a counter. */
  ghost predicate Numbered(d: Dlq) {
    && d.attempts.Keys == d.rows.Keys
    && forall h :: h in d.hand ==> h < d.claims && d.hand[h].tick < d.ticks && d.hand[h].row.id in d.rows
  }

  lemma ClaimKeepsNumbers(cfg: Config, d: Dlq, ids: seq<nat>, now: int)
    requires Numbered(d) && Enabled(cfg, d, Claim(ids, now))
    ensures Numbered(Step(cfg, d, Claim(ids, now)))
  {
    var claimed := ClaimedRows(d.rows, ids);
    var holds := Holds(claimed, d.ticks, d.claims);
    ClaimedKnown(d.rows, ids);
    AfterClaim(cfg, d, ids, now);
    assert forall h :: h in holds ==> holds[h].tick == d.ticks && holds[h].row in claimed;
    hide Step, Enabled, ClaimedRows, Holds;
  }

  lemma StepKeepsNumbers(cfg: Config, d: Dlq, e: Event)
    requires Numbered(d) && Enabled(cfg, d, e)
    ensures Numbered(Step(cfg, d, e))
  {
    hide ComputeBackoff, SameHash, ClaimAnswer, Holds;
    if e.Claim? {
      hide Numbered, Step;
      ClaimKeepsNumbers(cfg, d, e.ids, e.now);
    }
  }

  lemma {:induction false} RunsAreNumbered(cfg: Config, events: seq<Event>)
    ensures Numbered(Run(cfg, events))
  {
    if events != [] {
      var d, e := Run(cfg, events[..|events| - 1]), events[|events| - 1];
      RunsAreNumbered(cfg, events[..|events| - 1]);
      if Enabled(cfg, d, e) { StepKeepsNumbers(cfg, d, e); }
      hide Numbered, Step, Enabled;
    }
  }

  function TickEvents(first: nat, outcomes: seq<(Outcome, int)>): seq<Event>
    decreases |outcomes|
  {
    if outcomes == [] then []
    else AttemptEvents(first, outcomes[0].0, outcomes[0].1) + TickEvents(first + 1, outcomes[1..])
  }

  /** The tick has the claimed rows in hand, numbered from `first`, and has not begun with any. */
  ghost predicate InHand(d: Dlq, tick: nat, first: nat, claimed: seq<Claimed>) {
    var holds := Holds(claimed, tick, first);
    && (forall h :: h in d.hand && d.hand[h].tick == tick ==> h in holds)
    && (forall h :: h in holds ==> h in d.hand && d.hand[h] == holds[h])
    && (forall c :: c in claimed ==> c.id in d.rows && c.id in d.attempts)
  }

  lemma InHandNext(d: Dlq, d': Dlq, tick: nat, first: nat, claimed: seq<Claimed>)
    requires claimed != [] && InHand(d, tick, first, claimed) && d'.hand == d.hand - {first}
    requires d'.rows.Keys == d.rows.Keys && forall id :: id in d.attempts ==> id in d'.attempts
    ensures Current(d, first) && d.hand[first] == Hold(tick, claimed[0], Handling)
    ensures InHand(d', tick, first + 1, claimed[1..])
  {
    assert claimed[0] in claimed && first in d.hand;
    assert Holds(claimed[1..], tick, first + 1) == Holds(claimed, tick, first) - {first};
  }

  lemma OneTurn(cfg: Config, events: seq<Event>, tick: nat, first: nat, claimed: seq<Claimed>, outcome: Outcome, now: int)
    requires claimed != [] && InHand(Run(cfg, events), tick, first, claimed)
    ensures
      var d, next := Run(cfg, events), Run(cfg, events + AttemptEvents(first, outcome, now));
      && (forall c :: c in claimed ==> c.id in d.rows) && claimed[0] in claimed
      && next.rows == AfterAttempt(cfg, d.rows, claimed[0], outcome, now)
      && InHand(next, tick, first + 1, claimed[1..])
  {
    var d := Run(cfg, events);
    InHandNext(d, d.(hand := d.hand - {first}), tick, first, claimed);
    AttemptIsThreeSteps(cfg, events, first, outcome, now);
    KeepsIds(cfg, d.rows, claimed[0], outcome, now);
    hide Run, Current, AttemptEvents, AfterAttempt;
    InHandNext(d, Run(cfg, events + AttemptEvents(first, outcome, now)), tick, first, claimed);
  }

  lemma TickEventsNext(events: seq<Event>, first: nat, outcomes: seq<(Outcome, int)>)
    ensures outcomes == [] ==> events + TickEvents(first, outcomes) == events
    ensures outcomes != [] ==>
      events + TickEvents(first, outcomes)
      == events + AttemptEvents(first, outcomes[0].0, outcomes[0].1) + TickEvents(first + 1, outcomes[1..])
  {
  }

  lemma {:induction false} AttemptsInTurn(
      cfg: Config, events: seq<Event>, tick: nat, first: nat, claimed: seq<Claimed>, outcomes: seq<(Outcome, int)>)
    requires InHand(Run(cfg, events), tick, first, claimed) && |outcomes| == |claimed|
    ensures forall c :: c in claimed ==> c.id in Run(cfg, events).rows
    ensures
      Run(cfg, events + TickEvents(first, outcomes)).rows == TickRows(cfg, Run(cfg, events).rows, claimed, outcomes)
    decreases |claimed|
  {
    TickEventsNext(events, first, outcomes);
    if claimed != [] {
      var o := outcomes[0];
      OneTurn(cfg, events, tick, first, claimed, o.0, o.1);
      hide Run, InHand, TickEvents, AttemptEvents, AfterAttempt;
      AttemptsInTurn(cfg, events + AttemptEvents(first, o.0, o.1), tick, first + 1, claimed[1..], outcomes[1..]);
    }
  }

  /** What a whole tick does to the table, if nothing interrupts it, is a claim followed by its attempts in turn. */
  lemma TickIsAttempts(cfg: Config, events: seq<Event>, ids: seq<nat>, now: int, outcomes: seq<(Outcome, int)>)
    requires Enabled(cfg, Run(cfg, events), Claim(ids, now)) && |outcomes| == |ids|
    ensures
      var d := Run(cfg, events);
      var claimed := ClaimedRows(d.rows, ids);
      && (forall c :: c in claimed ==> c.id in ClaimRows(d.rows, ids, now))
      && Run(cfg, events + [Claim(ids, now)] + TickEvents(d.claims, outcomes)).rows
         == TickRows(cfg, ClaimRows(d.rows, ids, now), claimed, outcomes)
  {
    var d := Run(cfg, events);
    RunsAreNumbered(cfg, events);
    RunExtends(cfg, events, Claim(ids, now));
    ClaimsInHand(cfg, d, ids, now);
    hide Enabled, Numbered, Run, TickRows, TickEvents;
    AttemptsInTurn(cfg, events + [Claim(ids, now)], d.ticks, d.claims, ClaimedRows(d.rows, ids), outcomes);
  }

  lemma ClaimedKnown(rows: Table, ids: seq<nat>)
    requires forall id :: id in ids ==> id in rows
    ensures forall c :: c in ClaimedRows(rows, ids) ==> c.id in rows
  {
    assert forall i :: 0 <= i < |ids| ==> ids[i] in ids;
  }

  lemma ClaimsInHand(cfg: Config, d: Dlq, ids: seq<nat>, now: int)
    requires Numbered(d) && Enabled(cfg, d, Claim(ids, now))
    ensures InHand(Step(cfg, d, Claim(ids, now)), d.ticks, d.claims, ClaimedRows(d.rows, ids))
  {
    ClaimedKnown(d.rows, ids);
    AfterClaim(cfg, d, ids, now);
    hide Step, Enabled, ClaimedRows, Holds;
  }
}
