/** What a badge means, on every interleaving of the verifier with the chain and its observers. */
module VerifierRuns {
  import opened Wrappers
  import opened Verifier

  /** What the processor last saw of a job: both reads of the chain and both builds. */
  datatype Attempt = Attempt(before: Hash, first: Option<Hash>, second: Option<Hash>, after: Option<Hash>)

  /**
   * The tables, the chain with all it has ever held, the last attempt on each job, the requests that have found
   * no open job and not inserted theirs yet, and the number of events so far, `readAt` being the one at which
   * the processor last read a hash before building.
   */
  datatype World = World(
    db: Db, chain: map<string, Hash>, held: set<(string, Hash)>, attempts: map<nat, Attempt>,
    asking: multiset<(string, Source)>, clock: nat, readAt: nat)

  const START := World(Db([], map[], Idle), map[], {}, map[], multiset{}, 0, 0)

  /**
   * A request is one event if nothing comes between its two statements, and two otherwise. The processor may
   * fail in any phase: a statement rejects, or the process is started anew.
   */
  datatype Event =
    | Requested(contract: string, source: Source)
    | RequestChecked(contract: string, source: Source)
    | RequestInserted(contract: string, source: Source)
    | Claimed
    | ReadBefore(answer: Option<Hash>)
    | BuiltTwice(first: Option<Hash>, second: Option<Hash>)
    | BuildThrew(gone: bool)
    | ReadAfter(answer: Option<Hash>)
    | OwnRecorded
    | ProcessorFailed
    | Upgraded(contract: string, hash: Hash)
    | Observed(contract: string, hash: Hash)

  /** A read that answers, answers with what the chain holds at that moment. */
  predicate ReadsChain(w: World, contract: string, hash: Option<Hash>) {
    hash.Some? ==> contract in w.chain && w.chain[contract] == hash.value
  }

  predicate Enabled(w: World, e: Event) {
    var db := w.db;
    match e
    case RequestChecked(c, _) => !HasOpen(db.jobs, c)
    case RequestInserted(c, s) => (c, s) in w.asking
    case Claimed => db.phase == Idle
    case ReadBefore(h) =>
      db.phase.FetchingBefore? && db.phase.job < |db.jobs| && ReadsChain(w, db.jobs[db.phase.job].contract, h)
    case BuiltTwice(_, _) => db.phase.BuildingTwice? && db.phase.job < |db.jobs|
    case BuildThrew(_) => db.phase.BuildingTwice? && db.phase.job < |db.jobs|
    case ReadAfter(h) =>
      db.phase.FetchingAfter? && db.phase.job < |db.jobs| && ReadsChain(w, db.jobs[db.phase.job].contract, h)
    case OwnRecorded => db.phase.Recording?
    case ProcessorFailed => db.phase != Idle
    case _ => true
  }

  function Step(w: World, e: Event): World
    requires Enabled(w, e)
  {
    Effect(w, e).(clock := w.clock + 1)
  }

  function Effect(w: World, e: Event): World
    requires Enabled(w, e)
  {
    var db := w.db;
    var p := db.phase;
    match e
    case Requested(c, s) => w.(db := Request(db, c, s))
    case RequestChecked(c, s) => w.(asking := w.asking + multiset{(c, s)})
    case RequestInserted(c, s) => w.(db := Insert(db, c, s), asking := w.asking - multiset{(c, s)})
    case Claimed => w.(db := ClaimNext(db))
    case ReadBefore(h) => w.(db := FetchedBefore(db, p.job, h), readAt := w.clock)
    case BuiltTwice(first, second) => w.(db := Built(db, p.job, p.before, first, second))
    case BuildThrew(gone) => w.(db := BuildFailed(db, p.job, p.before, gone))
    case ReadAfter(h) =>
      w.(db := FetchedAfter(db, p.job, p.before, p.first, p.second, h),
         attempts := w.attempts[p.job := Attempt(p.before, p.first, p.second, h)])
    case OwnRecorded => w.(db := Recorded(db, p.contract, p.before))
    case ProcessorFailed => w.(db := Dropped(db))
    case Upgraded(c, h) => w.(chain := w.chain[c := h], held := w.held + {(c, h)})
    case Observed(c, h) => w.(db := db.(codeState := RecordOnChainHash(db.codeState, c, h)))
  }

  /** An event that cannot occur leaves the world alone. */
  function Run(w: World, events: seq<Event>): World
    decreases |events|
  {
    if events == [] then w else Run(if Enabled(w, events[0]) then Step(w, events[0]) else w, events[1..])
  }

  lemma RunNext(w: World, events: seq<Event>, k: nat)
    requires k < |events| && Enabled(w, events[k])
    ensures Run(w, events[k..]) == Run(Step(w, events[k]), events[k + 1..])
  {
    hide Enabled, Step;
    assert events[k..][1..] == events[k + 1..];
  }

  lemma RunNone(w: World, events: seq<Event>)
    ensures events == [] ==> Run(w, events) == w
    ensures Run(w, events[..0]) == w
  {
  }

  // ---------- invariant ----------

  /** The processor works on a hash that it read off the chain. */
  predicate HasRead(p: Phase) {
    p.BuildingTwice? || p.FetchingAfter?
  }

  /** The tables are in order, and the hash that the processor works on has been on the chain. */
  ghost predicate PhaseOk(w: World) {
    var p, jobs := w.db.phase, w.db.jobs;
    DbOk(w.db) && (HasRead(p) ==> (jobs[p.job].contract, p.before) in w.held)
  }

  /** A completed job records what its builds gave and what the chain held, before and, if it could be read, after. */
  ghost predicate JobOk(w: World, i: nat)
    requires i < |w.db.jobs|
  {
    var job := w.db.jobs[i];
    job.status == Completed ==>
      && i in w.attempts && w.attempts[i].first.Some?
      && job.builtHash == w.attempts[i].first
      && (job.reproducible <==> w.attempts[i].second == w.attempts[i].first)
      && job.onchainHash == Some(w.attempts[i].before)
      && (w.attempts[i].after.Some? ==> w.attempts[i].after.value == w.attempts[i].before)
      && (job.contract, w.attempts[i].before) in w.held
  }

  ghost predicate Inv(w: World) {
    && PhaseOk(w)
    && (forall i :: 0 <= i < |w.db.jobs| ==> JobOk(w, i))
    && (forall c :: c in w.chain ==> (c, w.chain[c]) in w.held)
  }

  predicate OfProcessor(e: Event) {
    e.Claimed? || e.ReadBefore? || e.BuiltTwice? || e.BuildThrew?
  }

  lemma ProcessorKeepsPhase(w: World, e: Event)
    requires Inv(w) && Enabled(w, e) && OfProcessor(e)
    ensures PhaseOk(Step(w, e))
  {
    hide Hex64, JobOk;
  }

  lemma OthersKeepPhase(w: World, e: Event)
    requires Inv(w) && Enabled(w, e) && !OfProcessor(e)
    ensures PhaseOk(Step(w, e))
  {
    hide Hex64, JobOk, HasOpen;
  }

  lemma StepKeepsPhase(w: World, e: Event)
    requires Inv(w) && Enabled(w, e)
    ensures PhaseOk(Step(w, e))
  {
    hide Inv, PhaseOk, Enabled, Step;
    if OfProcessor(e) {
      ProcessorKeepsPhase(w, e);
    } else {
      OthersKeepPhase(w, e);
    }
  }

  lemma ReadAfterKeepsJob(w: World, answer: Option<Hash>, i: nat)
    requires Inv(w) && Enabled(w, ReadAfter(answer)) && i < |w.db.jobs|
    ensures JobOk(Step(w, ReadAfter(answer)), i)
  {
    assert JobOk(w, i);
    hide Hex64;
  }

  lemma ProcessorKeepsJob(w: World, e: Event, i: nat)
    requires Inv(w) && Enabled(w, e) && OfProcessor(e) && i < |Step(w, e).db.jobs|
    ensures JobOk(Step(w, e), i)
  {
    hide Hex64;
    assert JobOk(w, i);
  }

  lemma OthersKeepJob(w: World, e: Event, i: nat)
    requires Inv(w) && Enabled(w, e) && !OfProcessor(e) && !e.ReadAfter? && i < |Step(w, e).db.jobs|
    ensures JobOk(Step(w, e), i)
  {
    hide Hex64, HasOpen;
    if i < |w.db.jobs| {
      assert JobOk(w, i);
    }
  }

  lemma StepKeepsJob(w: World, e: Event, i: nat)
    requires Inv(w) && Enabled(w, e) && i < |Step(w, e).db.jobs|
    ensures JobOk(Step(w, e), i)
  {
    hide Inv, JobOk, Enabled, Step;
    if e.ReadAfter? {
      ReadAfterJobs(w, e.answer);
      ReadAfterKeepsJob(w, e.answer, i);
    } else if OfProcessor(e) {
      ProcessorKeepsJob(w, e, i);
    } else {
      OthersKeepJob(w, e, i);
    }
  }

  lemma ReadAfterJobs(w: World, answer: Option<Hash>)
    requires Enabled(w, ReadAfter(answer))
    ensures |Step(w, ReadAfter(answer)).db.jobs| == |w.db.jobs|
  {
  }

  lemma StepKeepsInv(w: World, e: Event)
    requires Inv(w) && Enabled(w, e)
    ensures Inv(Step(w, e))
  {
    StepKeepsPhase(w, e);
    forall i | 0 <= i < |Step(w, e).db.jobs|
      ensures JobOk(Step(w, e), i)
    {
      StepKeepsJob(w, e, i);
    }
    StepKeepsChain(w, e);
    hide PhaseOk, JobOk, Step, Enabled;
  }

  lemma StepKeepsChain(w: World, e: Event)
    requires Inv(w) && Enabled(w, e)
    ensures forall c :: c in Step(w, e).chain ==> (c, Step(w, e).chain[c]) in Step(w, e).held
  {
    hide Hex64, PhaseOk, JobOk;
  }

  lemma {:induction false} RunsKeepInv(w: World, events: seq<Event>)
    requires Inv(w)
    ensures Inv(Run(w, events))
    decreases |events|
  {
    if events != [] {
      if Enabled(w, events[0]) {
        StepKeepsInv(w, events[0]);
      }
      hide Inv, Step, Enabled;
      RunsKeepInv(if Enabled(w, events[0]) then Step(w, events[0]) else w, events[1..]);
    }
  }

  // ---------- one job building, and jobs that are stuck ----------

  /** The processor fails while it works on a job. */
  predicate DropsJob(w: World, e: Event) {
    e.ProcessorFailed? && Working(w.db.phase)
  }

  /** The job is building and the processor is not at work on it. */
  predicate Stuck(db: Db, i: nat) {
    i < |db.jobs| && db.jobs[i].status == Building && !(Working(db.phase) && db.phase.job == i)
  }

  lemma ProcessorKeepsStuck(w: World, e: Event, i: nat)
    requires Inv(w) && Enabled(w, e) && OfProcessor(e)
    ensures Stuck(Step(w, e).db, i) <==> Stuck(w.db, i)
  {
    hide Hex64, JobOk;
  }

  /** A job gets stuck exactly by a failure of the processor at work on it, and is stuck from then on. */
  lemma JobGetsStuck(w: World, e: Event, i: nat)
    requires Inv(w) && Enabled(w, e)
    ensures Stuck(Step(w, e).db, i) <==> Stuck(w.db, i) || (DropsJob(w, e) && w.db.phase.job == i)
  {
    if OfProcessor(e) {
      ProcessorKeepsStuck(w, e, i);
      hide Stuck, Inv, Enabled, Step;
    } else {
      hide Hex64, JobOk, HasOpen;
    }
  }

  lemma NoneStuck(db: Db)
    requires forall i: nat :: !Stuck(db, i)
    ensures OneBuilding(db)
  {
    forall i | 0 <= i < |db.jobs| && db.jobs[i].status == Building
      ensures Working(db.phase) && db.phase.job == i
    {
      assert !Stuck(db, i);
    }
  }

  lemma StepKeepsOneBuilding(w: World, e: Event)
    requires Inv(w) && Enabled(w, e) && OneBuilding(w.db)
    ensures OneBuilding(Step(w, e).db) <==> !DropsJob(w, e)
  {
    forall i: nat
      ensures Stuck(Step(w, e).db, i) <==> DropsJob(w, e) && w.db.phase.job == i
    {
      JobGetsStuck(w, e, i);
    }
    hide Inv, Step, Enabled;
    if DropsJob(w, e) {
      assert Stuck(Step(w, e).db, w.db.phase.job);
    } else {
      NoneStuck(Step(w, e).db);
    }
  }

  lemma StuckStays(w: World, e: Event, i: nat)
    requires Inv(w) && Enabled(w, e) && Stuck(w.db, i)
    ensures Stuck(Step(w, e).db, i) && Step(w, e).db.jobs[i].contract == w.db.jobs[i].contract
  {
    JobGetsStuck(w, e, i);
    hide Hex64, JobOk, HasOpen, Inv;
  }

  lemma StuckIsOpen(db: Db, i: nat)
    requires Stuck(db, i)
    ensures HasOpen(db.jobs, db.jobs[i].contract)
  {
    assert Open(db.jobs[i]);
  }

  /** A stuck job stays so whatever follows, and its contract is refused every further request. */
  lemma {:induction false} StuckForGood(w: World, events: seq<Event>, i: nat)
    requires Inv(w) && Stuck(w.db, i)
    ensures
      var db, contract := Run(w, events).db, w.db.jobs[i].contract;
      && Stuck(db, i) && db.jobs[i].contract == contract
      && HasOpen(db.jobs, contract) && forall source :: Request(db, contract, source) == db
    decreases |events|
  {
    StuckIsOpen(w.db, i);
    if events != [] {
      if Enabled(w, events[0]) {
        StuckStays(w, events[0], i);
        StepKeepsInv(w, events[0]);
      }
      hide Inv, Step, Enabled, Stuck, HasOpen;
      StuckForGood(if Enabled(w, events[0]) then Step(w, events[0]) else w, events[1..], i);
    }
  }

  /** As happens to a job whose on-chain hash has been asked for when the processor fails. */
  lemma ARunGetsStuck(contract: string, source: Source)
    ensures Stuck(Run(START, [Requested(contract, source), Claimed, ProcessorFailed]).db, 0)
  {
    var events := [Requested(contract, source), Claimed, ProcessorFailed];
    hide Run;
    assert events[0..] == events && events[3..] == [];
    RunNext(START, events, 0);
    var w1 := Step(START, events[0]);
    RunNext(w1, events, 1);
    var w2 := Step(w1, events[1]);
    RunNext(w2, events, 2);
    RunNone(Step(w2, events[2]), []);
  }

  predicate NeverDrops(w: World, events: seq<Event>)
    decreases |events|
  {
    events == [] ||
    if Enabled(w, events[0]) then !DropsJob(w, events[0]) && NeverDrops(Step(w, events[0]), events[1..])
    else NeverDrops(w, events[1..])
  }

  /** One job at a time is building, the one in work, on exactly the runs that never drop a job. */
  lemma {:induction false} RunsKeepOneBuilding(w: World, events: seq<Event>)
    requires Inv(w) && OneBuilding(w.db)
    ensures OneBuilding(Run(w, events).db) <==> NeverDrops(w, events)
    decreases |events|
  {
    if events != [] {
      var next := if Enabled(w, events[0]) then Step(w, events[0]) else w;
      if Enabled(w, events[0]) {
        StepKeepsInv(w, events[0]);
        StepKeepsOneBuilding(w, events[0]);
        if DropsJob(w, events[0]) {
          JobGetsStuck(w, events[0], w.db.phase.job);
          StuckForGood(next, events[1..], w.db.phase.job);
          assert !OneBuilding(Run(next, events[1..]).db);
        }
      }
      hide Inv, Step, Enabled, OneBuilding, HasOpen, Request;
      if OneBuilding(next.db) {
        RunsKeepOneBuilding(next, events[1..]);
      }
    }
  }

  // ---------- one open job per contract ----------

  /** No job is opened that was not open before, except for the last one of `more`, if its contract has none. */
  lemma OneOpenStays(jobs: seq<Job>, more: seq<Job>)
    requires OneOpen(jobs) && |jobs| <= |more| <= |jobs| + 1
    requires forall i :: 0 <= i < |jobs| ==> more[i].contract == jobs[i].contract && (Open(more[i]) ==> Open(jobs[i]))
    requires |more| > |jobs| ==> forall i :: 0 <= i < |jobs| && Open(jobs[i]) ==> jobs[i].contract != more[|jobs|].contract
    ensures OneOpen(more)
  {
  }

  /** Only an insertion that no longer finds what its check found breaks it. */
  predicate StillFree(w: World, e: Event) {
    e.RequestInserted? ==> !HasOpen(w.db.jobs, e.contract)
  }

  lemma StepKeepsOneOpen(w: World, e: Event)
    requires Inv(w) && Enabled(w, e) && OneOpen(w.db.jobs)
    ensures OneOpen(Step(w, e).db.jobs) <==> StillFree(w, e)
  {
    if StillFree(w, e) {
      hide OneOpen, Hex64, JobOk;
      OneOpenStays(w.db.jobs, Step(w, e).db.jobs);
    } else {
      var i :| 0 <= i < |w.db.jobs| && w.db.jobs[i].contract == e.contract && Open(w.db.jobs[i]);
      hide Hex64, JobOk, Inv;
      assert Step(w, e).db.jobs[i] == w.db.jobs[i] && Open(Step(w, e).db.jobs[|w.db.jobs|]);
    }
  }

  predicate AllStillFree(w: World, events: seq<Event>)
    decreases |events|
  {
    events == [] ||
    if Enabled(w, events[0]) then StillFree(w, events[0]) && AllStillFree(Step(w, events[0]), events[1..])
    else AllStillFree(w, events[1..])
  }

  /** As long as each insertion still finds no open job, a contract never has two jobs that are pending or building. */
  lemma {:induction false} RunsKeepOneOpen(w: World, events: seq<Event>)
    requires Inv(w) && OneOpen(w.db.jobs) && AllStillFree(w, events)
    ensures OneOpen(Run(w, events).db.jobs)
    decreases |events|
  {
    hide Inv, OneOpen, Step, Enabled, StillFree;
    if events != [] {
      if Enabled(w, events[0]) {
        StepKeepsInv(w, events[0]);
        StepKeepsOneOpen(w, events[0]);
      }
      RunsKeepOneOpen(if Enabled(w, events[0]) then Step(w, events[0]) else w, events[1..]);
    }
  }

  /** Two requests that overlap both get a job. */
  lemma OverlappingRequests(contract: string, s: Source, t: Source)
    ensures
      var w := Run(START, [RequestChecked(contract, s), RequestChecked(contract, t),
                           RequestInserted(contract, s), RequestInserted(contract, t)]);
      |w.db.jobs| == 2 && w.db.jobs[0].contract == w.db.jobs[1].contract == contract && !OneOpen(w.db.jobs)
  {
    var events := [RequestChecked(contract, s), RequestChecked(contract, t),
                   RequestInserted(contract, s), RequestInserted(contract, t)];
    hide Run;
    RunNext(START, events, 0);
    var w1 := Step(START, events[0]);
    RunNext(w1, events, 1);
    var w2 := Step(w1, events[1]);
    RunNext(w2, events, 2);
    var w3 := Step(w2, events[2]);
    RunNext(w3, events, 3);
    var w4 := Step(w3, events[3]);
    assert events[0..] == events && events[4..] == [];
    RunNone(w4, []);
    assert Open(w4.db.jobs[0]) && Open(w4.db.jobs[1]);
  }

  // ---------- what a badge means ----------

  lemma {:induction false} LatestIndex(jobs: seq<Job>, contract: string) returns (i: nat)
    requires Latest(jobs, contract).Some?
    ensures i < |jobs| && jobs[i].contract == contract && Latest(jobs, contract) == Some(jobs[i])
    ensures forall k :: i < k < |jobs| ==> jobs[k].contract != contract
  {
    if jobs[|jobs| - 1].contract == contract {
      i := |jobs| - 1;
    } else {
      i := LatestIndex(jobs[..|jobs| - 1], contract);
    }
  }

  /**
   * On every run, a contract shown as reproducibly verified is shown for its latest job, both of whose
   * builds gave the hash that is now recorded for the contract; the chain held the hash that the job read,
   * and if the chain could be read again after the builds it still held it.
   */
  lemma VerifiedMeansBothBuildsMatch(events: seq<Event>, contract: string) returns (i: nat)
    requires Badge(Run(START, events).db, contract) == VerifiedReproducible
    ensures
      var w := Run(START, events);
      && i < |w.db.jobs| && w.db.jobs[i].contract == contract && i in w.attempts
      && (forall k :: i < k < |w.db.jobs| ==> w.db.jobs[k].contract != contract)
      && var a := w.attempts[i];
      && a.first.Some? && a.first == a.second
      && a.first.value == (if contract in w.db.codeState then w.db.codeState[contract] else a.before)
      && (contract, a.before) in w.held
      && (a.after.Some? ==> a.after.value == a.before)
  {
    RunsKeepInv(START, events);
    var w := Run(START, events);
    hide Run, Hex64, PhaseOk;
    i := LatestIndex(w.db.jobs, contract);
    assert JobOk(w, i);
  }

  /**
   * If the chain has moved on by the second read, the job completes exactly if that read fails and the first
   * build gave a hash; a read that answers puts it back into the queue without a result.
   */
  lemma UpgradedJobCompletes(w: World, answer: Option<Hash>)
    requires Inv(w) && Enabled(w, ReadAfter(answer))
    requires
      var c := w.db.jobs[w.db.phase.job].contract;
      c in w.chain ==> w.chain[c] != w.db.phase.before
    ensures
      var i, after := w.db.phase.job, Step(w, ReadAfter(answer)).db;
      && i < |after.jobs| && (after.jobs[i].status == Completed <==> answer.None? && w.db.phase.first.Some?)
      && (answer.Some? ==>
            after.jobs == w.db.jobs[i := w.db.jobs[i].(status := Pending)] && after.codeState == w.db.codeState)
  {
    hide Hex64, JobOk;
  }
}
