/**
 * The dead-letter queue's retry and poison state machine (indexer/src/deadLetterQueue.js). A timer starts
 * a tick every minute whether or not the one before has ended (indexer/src/index.js), so several ticks
 * may have rows in hand, and each of their statements may find the table changed by the others.
 */
module DeadLetter {
  import opened Wrappers
  import opened Basics
  import opened Bits

  const STALE_CLAIM_MS: int := 600_000

  datatype Config = Config(base: nat, max: nat, maxAttempts: nat, poisonThreshold: nat, batchSize: nat)

  datatype State = Queued | Retrying | Quarantined | Resolved

  datatype Entry = Entry(state: State, retryCount: nat, nextRetryAt: Option<int>, updatedAt: int, stackHash: string)

  /** A claimed row as RETURNING handed it out. */
  datatype Claimed = Claimed(id: nat, retryCount: nat)

  /** How the handler ended: well, because the contract is gone, or with an error of some stack hash. */
  datatype Outcome = Success | ContractGone | Failed(stackHash: string)

  function ComputeBackoff(cfg: Config, attempts: nat): nat {
    Min(cfg.max, cfg.base * Pow2(if attempts > 1 then attempts - 1 else 0))
  }

  function NextStateAfterFailure(cfg: Config, attempts: nat, sameHashCount: nat): State {
    if attempts >= cfg.maxAttempts then Quarantined
    else if sameHashCount >= cfg.poisonThreshold then Quarantined
    else Queued
  }

  // ---------- the statements on the table ----------

  type Table = map<nat, Entry>

  predicate Claimable(e: Entry, now: int) {
    || (e.state == Queued && e.nextRetryAt.Some? && e.nextRetryAt.value <= now)
    || (e.state == Retrying && e.updatedAt < now - STALE_CLAIM_MS)
  }

  /** ORDER BY next_retry_at ASC NULLS FIRST */
  predicate DueFirst(a: Entry, b: Entry) {
    a.nextRetryAt.None? || (b.nextRetryAt.Some? && a.nextRetryAt.value <= b.nextRetryAt.value)
  }

  /** `ids` is an answer to the claiming query: claimable rows, the ones longest due, as many as a batch holds. */
  ghost predicate ClaimAnswer(cfg: Config, rows: Table, ids: seq<nat>, now: int) {
    && |ids| <= cfg.batchSize
    && (forall i, j :: 0 <= i < j < |ids| ==> ids[i] != ids[j])
    && (forall id :: id in ids ==> id in rows && Claimable(rows[id], now))
    && (forall id :: id in rows && Claimable(rows[id], now) && id !in ids ==>
          |ids| == cfg.batchSize && forall c :: c in ids ==> DueFirst(rows[c], rows[id]))
  }

  function ClaimRows(rows: Table, ids: seq<nat>, now: int): Table {
    map id | id in rows :: if id in ids then rows[id].(state := Retrying, updatedAt := now) else rows[id]
  }

  function MarkResolved(rows: Table, id: nat, now: int): Table
    requires id in rows
  {
    rows[id := rows[id].(state := Resolved, nextRetryAt := None, updatedAt := now)]
  }

  function OpenWith(rows: Table, hash: string): set<nat> {
    set id | id in rows && rows[id].stackHash == hash && rows[id].state != Resolved
  }

  function SameHash(rows: Table, hash: string): nat {
    |OpenWith(rows, hash)|
  }

  /** The group quarantine: every other open entry with the stack hash. */
  function QuarantineGroup(rows: Table, hash: string, except: nat, now: int): Table {
    map id | id in rows ::
      if id != except && rows[id].stackHash == hash && (rows[id].state == Queued || rows[id].state == Retrying)
      then rows[id].(state := Quarantined, nextRetryAt := None, updatedAt := now)
      else rows[id]
  }

  function FailureState(cfg: Config, rows: Table, c: Claimed, hash: string): State {
    NextStateAfterFailure(cfg, c.retryCount + 1, SameHash(rows, hash))
  }

  function WriteFailure(cfg: Config, rows: Table, c: Claimed, hash: string, state: State, now: int): Table {
    var attempts := c.retryCount + 1;
    var next := if state == Queued then Some(now + ComputeBackoff(cfg, attempts)) else None;
    rows[c.id := Entry(state, attempts, next, now, hash)]
  }

  /** The count and both updates of a failed attempt with nothing in between. */
  function RecordFailure(cfg: Config, rows: Table, c: Claimed, hash: string, now: int): Table {
    var state := FailureState(cfg, rows, c, hash);
    var updated := WriteFailure(cfg, rows, c, hash, state, now);
    if state == Quarantined then QuarantineGroup(updated, hash, c.id, now) else updated
  }

  function AfterAttempt(cfg: Config, rows: Table, c: Claimed, outcome: Outcome, now: int): Table
    requires c.id in rows
  {
    match outcome
    case Failed(hash) => RecordFailure(cfg, rows, c, hash, now)
    case _ => MarkResolved(rows, c.id, now)
  }

  function Enqueued(cfg: Config, rows: Table, id: nat, hash: string, now: int): Table {
    rows[id := Entry(Queued, 0, Some(now + ComputeBackoff(cfg, 1)), now, hash)]
  }

  function ClaimedRows(rows: Table, ids: seq<nat>): (r: seq<Claimed>)
    requires forall id :: id in ids ==> id in rows
    ensures |r| == |ids| && forall i :: 0 <= i < |ids| ==> r[i].id == ids[i]
  {
    seq(|ids|, i requires 0 <= i < |ids| => Claimed(ids[i], rows[ids[i]].retryCount))
  }

  // ---------- the ticks, statement by statement ----------

  /** How far a tick is with a row: its handler runs, its failure has been counted, or has been written. */
  datatype Stage = Handling | Counted(hash: string, next: State) | Grouping(hash: string)

  /** A row that a tick has claimed and not dealt with yet. */
  datatype Hold = Hold(tick: nat, row: Claimed, stage: Stage)

  /** The table, the rows in hand by the number of their claim, and how often each handler has ended. */
  datatype Dlq = Dlq(rows: Table, hand: map<nat, Hold>, ticks: nat, claims: nat, attempts: map<nat, nat>)

  const START := Dlq(map[], map[], 0, 0, map[])

  datatype Event =
    | Enqueue(id: nat, stackHash: string, now: int)
    | Claim(ids: seq<nat>, now: int)
    | HandlerEnds(h: nat, outcome: Outcome, now: int)
    | FailureWritten(h: nat, now: int)
    | GroupWritten(h: nat, now: int)

  /** The row its tick is busy with: the earliest one of those it has left. */
  ghost predicate Current(d: Dlq, h: nat) {
    h in d.hand && d.hand[h].row.id in d.rows && d.hand[h].row.id in d.attempts
    && forall g :: g in d.hand && d.hand[g].tick == d.hand[h].tick ==> h <= g
  }

  /** Ids are serial numbers; a claim may come at any time; a tick deals with one row after the other. */
  ghost predicate Enabled(cfg: Config, d: Dlq, e: Event) {
    match e
    case Enqueue(id, _, _) => id !in d.rows
    case Claim(ids, now) => ClaimAnswer(cfg, d.rows, ids, now)
    case HandlerEnds(h, _, _) => Current(d, h) && d.hand[h].stage.Handling?
    case FailureWritten(h, _) => Current(d, h) && d.hand[h].stage.Counted?
    case GroupWritten(h, _) => Current(d, h) && d.hand[h].stage.Grouping?
  }

  /** The claims of one tick, numbered from `first`. */
  function Holds(claimed: seq<Claimed>, tick: nat, first: nat): (hand: map<nat, Hold>)
    ensures forall h :: h in hand <==> first <= h < first + |claimed|
    ensures forall h :: h in hand ==> hand[h] == Hold(tick, claimed[h - first], Handling)
  {
    if claimed == [] then map[] else Holds(claimed[1..], tick, first + 1)[first := Hold(tick, claimed[0], Handling)]
  }

  ghost function Step(cfg: Config, d: Dlq, e: Event): Dlq
    requires Enabled(cfg, d, e)
  {
    match e
    case Enqueue(id, hash, now) =>
      d.(rows := Enqueued(cfg, d.rows, id, hash, now), attempts := d.attempts[id := 0])
    case Claim(ids, now) =>
      d.(rows := ClaimRows(d.rows, ids, now), hand := d.hand + Holds(ClaimedRows(d.rows, ids), d.ticks, d.claims),
         ticks := d.ticks + 1, claims := d.claims + |ids|)
    case HandlerEnds(h, outcome, now) =>
      var c := d.hand[h].row;
      var d1 := d.(attempts := d.attempts[c.id := d.attempts[c.id] + 1]);
      if outcome.Failed? then
        var hash := outcome.stackHash;
        d1.(hand := d.hand[h := d.hand[h].(stage := Counted(hash, FailureState(cfg, d.rows, c, hash)))])
      else d1.(rows := MarkResolved(d.rows, c.id, now), hand := d.hand - {h})
    case FailureWritten(h, now) =>
      var c, Counted(hash, next) := d.hand[h].row, d.hand[h].stage;
      d.(rows := WriteFailure(cfg, d.rows, c, hash, next, now),
         hand := if next == Quarantined then d.hand[h := d.hand[h].(stage := Grouping(hash))] else d.hand - {h})
    case GroupWritten(h, now) =>
      d.(rows := QuarantineGroup(d.rows, d.hand[h].stage.hash, d.hand[h].row.id, now), hand := d.hand - {h})
  }

  /** An event that cannot occur leaves everything alone. */
  ghost function Run(cfg: Config, events: seq<Event>): Dlq {
    if events == [] then START else
      var d := Run(cfg, events[..|events| - 1]);
      if Enabled(cfg, d, events[|events| - 1]) then Step(cfg, d, events[|events| - 1]) else d
  }

  // ---------- one tick that nothing interrupts ----------

  datatype Tally = Tally(retried: nat, resolved: nat, failed: nat, quarantined: nat)

  /** Attempt each claimed row in turn. */
  function TickRows(cfg: Config, rows: Table, claimed: seq<Claimed>, outcomes: seq<(Outcome, int)>): Table
    requires |outcomes| == |claimed| && forall c :: c in claimed ==> c.id in rows
    decreases |claimed|
  {
    if claimed == [] then rows
    else TickRows(cfg, AfterAttempt(cfg, rows, claimed[0], outcomes[0].0, outcomes[0].1), claimed[1..], outcomes[1..])
  }

  function Failures(outcomes: seq<(Outcome, int)>): nat {
    if outcomes == [] then 0 else (if outcomes[0].0.Failed? then 1 else 0) + Failures(outcomes[1..])
  }

  /** How many attempts of a tick end in quarantine by their own failure. */
  function Quarantines(cfg: Config, rows: Table, claimed: seq<Claimed>, outcomes: seq<(Outcome, int)>): nat
    requires |outcomes| == |claimed| && forall c :: c in claimed ==> c.id in rows
    decreases |claimed|
  {
    if claimed == [] then 0
    else
      var o := outcomes[0];
      (if o.0.Failed? && FailureState(cfg, rows, claimed[0], o.0.stackHash) == Quarantined then 1 else 0)
      + Quarantines(cfg, AfterAttempt(cfg, rows, claimed[0], o.0, o.1), claimed[1..], outcomes[1..])
  }

  class Processor {
    const cfg: Config
    var rows: Table

    constructor (cfg: Config)
      ensures this.cfg == cfg && rows == map[]
    {
      this.cfg, rows := cfg, map[];
    }

    /** The new entry waits out the first backoff and can be claimed from then on; no other row is touched. */
    method EnqueueFailed(id: nat, stackHash: string, now: int)
      requires id !in rows
      modifies this
      ensures rows == Enqueued(cfg, old(rows), id, stackHash, now)
      ensures rows.Keys == old(rows.Keys) + {id} && rows[id].retryCount == 0 && rows[id].stackHash == stackHash
      ensures forall t :: Claimable(rows[id], t) <==> t >= now + Min(cfg.base, cfg.max)
      ensures forall k :: k in old(rows) ==> rows[k] == old(rows)[k]
    {
      rows := rows[id := Entry(Queued, 0, Some(now + ComputeBackoff(cfg, 1)), now, stackHash)];
      assert Pow2(0) == 1;
    }

    method RecordFailedAttempt(c: Claimed, stackHash: string, now: int) returns (state: State)
      requires c.id in rows
      modifies this
      ensures rows == RecordFailure(cfg, old(rows), c, stackHash, now)
      ensures state == FailureState(cfg, old(rows), c, stackHash)
      ensures forall k :: k in old(rows) && k != c.id && rows[k] != old(rows)[k] ==>
        && old(rows)[k].stackHash == stackHash && (old(rows)[k].state == Queued || old(rows)[k].state == Retrying)
        && rows[k] == Entry(Quarantined, old(rows)[k].retryCount, None, now, stackHash)
    {
      var attempts := c.retryCount + 1;
      var n := SameHash(rows, stackHash);
      state := NextStateAfterFailure(cfg, attempts, n);
      var nextRetry := if state == Queued then Some(now + ComputeBackoff(cfg, attempts)) else None;
      rows := rows[c.id := Entry(state, attempts, nextRetry, now, stackHash)];
      if state == Quarantined {
        rows := QuarantineGroup(rows, stackHash, c.id, now);
      }
    }

    /** `outcomes` is what the handler does with the claimed rows, and when. */
    method ProcessRetries(ids: seq<nat>, now: int, outcomes: seq<(Outcome, int)>) returns (tally: Tally)
      requires ClaimAnswer(cfg, rows, ids, now) && |outcomes| == |ids|
      modifies this
      ensures rows == TickRows(cfg, ClaimRows(old(rows), ids, now), ClaimedRows(old(rows), ids), outcomes)
      ensures tally.retried == |ids| == tally.resolved + tally.failed && tally.failed == Failures(outcomes)
      ensures tally.quarantined == Quarantines(cfg, ClaimRows(old(rows), ids, now), ClaimedRows(old(rows), ids), outcomes)
    {
      var claimed := ClaimedRows(rows, ids);
      rows := ClaimRows(rows, ids, now);
      ghost var start := rows;
      hide ClaimRows, ClaimedRows, RecordFailure, MarkResolved, FailureState, TickRows, Quarantines, Failures, ClaimAnswer;
      tally := Tally(0, 0, 0, 0);
      for i := 0 to |claimed|
        invariant forall c :: c in claimed ==> c.id in rows
        invariant TickRows(cfg, rows, claimed[i..], outcomes[i..]) == TickRows(cfg, start, claimed, outcomes)
        invariant tally.retried == i == tally.resolved + tally.failed
        invariant tally.failed + Failures(outcomes[i..]) == Failures(outcomes)
        invariant tally.quarantined + Quarantines(cfg, rows, claimed[i..], outcomes[i..])
               == Quarantines(cfg, start, claimed, outcomes)
      {
        var entry := claimed[i];
        TickUnfolds(cfg, rows, claimed, outcomes, i);
        KeepsIds(cfg, rows, entry, outcomes[i].0, outcomes[i].1);
        tally := tally.(retried := tally.retried + 1);
        if outcomes[i].0.Failed? {
          var state := RecordFailedAttempt(entry, outcomes[i].0.stackHash, outcomes[i].1);
          tally := tally.(failed := tally.failed + 1,
                          quarantined := tally.quarantined + if state == Quarantined then 1 else 0);
        } else {
          rows := MarkResolved(rows, entry.id, outcomes[i].1);
          tally := tally.(resolved := tally.resolved + 1);
        }
      }
      TickEnds(cfg, rows, claimed[|claimed|..], outcomes[|claimed|..]);
    }
  }

  lemma TickUnfolds(cfg: Config, rows: Table, claimed: seq<Claimed>, outcomes: seq<(Outcome, int)>, i: nat)
    requires |outcomes| == |claimed| && i < |claimed| && forall c :: c in claimed ==> c.id in rows
    ensures
      var o := outcomes[i];
      var after := AfterAttempt(cfg, rows, claimed[i], o.0, o.1);
      var ended := o.0.Failed? && FailureState(cfg, rows, claimed[i], o.0.stackHash) == Quarantined;
      && after.Keys == rows.Keys
      && TickRows(cfg, rows, claimed[i..], outcomes[i..]) == TickRows(cfg, after, claimed[i + 1..], outcomes[i + 1..])
      && Failures(outcomes[i..]) == (if o.0.Failed? then 1 else 0) + Failures(outcomes[i + 1..])
      && Quarantines(cfg, rows, claimed[i..], outcomes[i..])
         == (if ended then 1 else 0) + Quarantines(cfg, after, claimed[i + 1..], outcomes[i + 1..])
  {
  }

  lemma TickEnds(cfg: Config, rows: Table, claimed: seq<Claimed>, outcomes: seq<(Outcome, int)>)
    requires claimed == [] && outcomes == []
    ensures TickRows(cfg, rows, claimed, outcomes) == rows
    ensures Failures(outcomes) == 0 && Quarantines(cfg, rows, claimed, outcomes) == 0
  {
  }

  lemma KeepsIds(cfg: Config, rows: Table, c: Claimed, outcome: Outcome, now: int)
    requires c.id in rows
    ensures AfterAttempt(cfg, rows, c, outcome, now).Keys == rows.Keys
  {
  }
}
