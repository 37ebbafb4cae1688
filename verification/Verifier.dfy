/**
 * Reproducible-build verification and its badge (indexer/src/contractVerifier.js). One job is processed
 * at a time; between its awaits the chain may change, upgrades may be observed and requests may come in.
 */
module Verifier {
  import opened Wrappers

  type Hash = string

  predicate Hex64(h: Hash) {
    |h| == 64 && forall i :: 0 <= i < 64 ==> '0' <= h[i] <= '9' || 'a' <= h[i] <= 'f'
  }

  /** What a request names. */
  datatype Source = Source(repository: string, commit: string, toolchain: string)

  datatype Status = Pending | Building | Completed | Failed

  datatype Job = Job(
    contract: string, source: Source, status: Status, builtHash: Option<Hash>, onchainHash: Option<Hash>,
    reproducible: bool, sourceRetrievable: bool)

  datatype BadgeState = VerifiedReproducible | VerifiedHashMatch | Mismatch | Unverified | PendingBadge | FailedBadge

  /** `record` is the contract's latest job, `onchain` its row in contract_code_state. */
  function ComputeBadge(record: Option<Job>, onchain: Option<Hash>): BadgeState {
    if record.None? then Unverified
    else if record.value.status == Pending || record.value.status == Building then PendingBadge
    else if record.value.status == Failed then FailedBadge
    else
      var built := record.value.builtHash;
      var actual := if onchain.Some? then onchain else record.value.onchainHash;
      if built.None? || !Hex64(built.value) || actual.None? || !Hex64(actual.value) then Unverified
      else if built != actual then Mismatch
      else if record.value.reproducible then VerifiedReproducible
      else VerifiedHashMatch
  }

  // ---------- the processor between its awaits ----------

  /** Where `processNextVerification` stands, and what its local variables hold. */
  datatype Phase =
    | Idle
    | FetchingBefore(job: nat)
    | BuildingTwice(job: nat, before: Hash)
    | FetchingAfter(job: nat, before: Hash, first: Option<Hash>, second: Option<Hash>)
    | Recording(contract: string, before: Hash)

  /** The two tables, jobs in the order of their creation, and the processor. */
  datatype Db = Db(jobs: seq<Job>, codeState: map<string, Hash>, phase: Phase)

  predicate Working(p: Phase) {
    p.FetchingBefore? || p.BuildingTwice? || p.FetchingAfter?
  }

  function Latest(jobs: seq<Job>, contract: string): Option<Job> {
    if jobs == [] then None
    else if jobs[|jobs| - 1].contract == contract then Some(jobs[|jobs| - 1])
    else Latest(jobs[..|jobs| - 1], contract)
  }

  function Badge(db: Db, contract: string): BadgeState {
    ComputeBadge(Latest(db.jobs, contract), if contract in db.codeState then Some(db.codeState[contract]) else None)
  }

  predicate Open(j: Job) {
    j.status == Pending || j.status == Building
  }

  predicate HasOpen(jobs: seq<Job>, contract: string) {
    exists i :: 0 <= i < |jobs| && jobs[i].contract == contract && Open(jobs[i])
  }

  function Insert(db: Db, contract: string, source: Source): Db {
    db.(jobs := db.jobs + [Job(contract, source, Pending, None, None, false, true)])
  }

  /** The query for open jobs and the insertion with nothing in between. */
  function Request(db: Db, contract: string, source: Source): Db {
    if HasOpen(db.jobs, contract) then db else Insert(db, contract, source)
  }

  /** The index of the oldest pending job, or the number of jobs. */
  function OldestPending(jobs: seq<Job>): (i: nat)
    ensures i <= |jobs| && (i < |jobs| ==> jobs[i].status == Pending)
    ensures forall k :: 0 <= k < i ==> jobs[k].status != Pending
  {
    if jobs == [] then 0
    else if jobs[0].status == Pending then 0
    else 1 + OldestPending(jobs[1..])
  }

  function ClaimNext(db: Db): Db {
    var i := OldestPending(db.jobs);
    if i == |db.jobs| then db
    else Db(db.jobs[i := db.jobs[i].(status := Building)], db.codeState, FetchingBefore(i))
  }

  function Fail(db: Db, i: nat, before: Option<Hash>): Db
    requires i < |db.jobs|
  {
    Db(db.jobs[i := db.jobs[i].(status := Failed, onchainHash := if before.Some? then before else db.jobs[i].onchainHash)],
       db.codeState, Idle)
  }

  function FetchedBefore(db: Db, i: nat, hash: Option<Hash>): Db
    requires i < |db.jobs|
  {
    if hash.None? then Fail(db, i, None) else db.(phase := BuildingTwice(i, hash.value))
  }

  /** The second build only runs when the first one produced a hash. */
  function Built(db: Db, i: nat, before: Hash, first: Option<Hash>, second: Option<Hash>): Db {
    db.(phase := FetchingAfter(i, before, first, if first.Some? then second else None))
  }

  /** The commit is gone from the repository, whatever toolchain it was to be built with. */
  predicate SameCommit(a: Source, b: Source) {
    a.repository == b.repository && a.commit == b.commit
  }

  function MarkGone(jobs: seq<Job>, source: Source): seq<Job> {
    seq(|jobs|, i requires 0 <= i < |jobs| =>
      if SameCommit(jobs[i].source, source) then jobs[i].(sourceRetrievable := false) else jobs[i])
  }

  /** A failed build overwrites the job's own flag either way, and a vanished source flags every job that names it. */
  function BuildFailed(db: Db, i: nat, before: Hash, gone: bool): Db
    requires i < |db.jobs|
  {
    var failed := Fail(db, i, Some(before));
    if gone then failed.(jobs := MarkGone(failed.jobs, db.jobs[i].source))
    else failed.(jobs := failed.jobs[i := failed.jobs[i].(sourceRetrievable := true)])
  }

  function FetchedAfter(db: Db, i: nat, before: Hash, first: Option<Hash>, second: Option<Hash>, hash: Option<Hash>): Db
    requires i < |db.jobs|
  {
    var job := db.jobs[i];
    if hash.Some? && hash.value != before then Db(db.jobs[i := job.(status := Pending)], db.codeState, Idle)
    else if first.None? then Fail(db, i, Some(before))
    else
      var done := job.(status := Completed, onchainHash := Some(before), builtHash := first,
                       reproducible := second.Some? && second == first);
      Db(db.jobs[i := done], db.codeState, Recording(job.contract, before))
  }

  function RecordOnChainHash(codeState: map<string, Hash>, contract: string, hash: Hash): map<string, Hash> {
    if Hex64(hash) then codeState[contract := hash] else codeState
  }

  function Recorded(db: Db, contract: string, before: Hash): Db {
    Db(db.jobs, RecordOnChainHash(db.codeState, contract, before), Idle)
  }

  /** What is thrown past the builds is only logged: the job in work stays as the last statement left it. */
  function Dropped(db: Db): Db {
    db.(phase := Idle)
  }

  // ---------- what the tables keep ----------

  /** The job in work is building, and a completed job has both its hashes. */
  predicate DbOk(db: Db) {
    && (Working(db.phase) ==> db.phase.job < |db.jobs| && db.jobs[db.phase.job].status == Building)
    && (forall i :: 0 <= i < |db.jobs| && db.jobs[i].status == Completed ==>
          db.jobs[i].builtHash.Some? && db.jobs[i].onchainHash.Some?)
  }

  /** No job is building except the one in work. */
  predicate OneBuilding(db: Db) {
    forall i :: 0 <= i < |db.jobs| && db.jobs[i].status == Building ==> Working(db.phase) && db.phase.job == i
  }

  ghost predicate OneOpen(jobs: seq<Job>) {
    forall i, j :: 0 <= i < j < |jobs| && Open(jobs[i]) && Open(jobs[j]) ==> jobs[i].contract != jobs[j].contract
  }

  class ContractVerifier {
    var jobs: seq<Job>
    var codeState: map<string, Hash>
    var phase: Phase

    ghost function State(): Db
      reads this
    {
      Db(jobs, codeState, phase)
    }

    ghost predicate Valid()
      reads this
    {
      DbOk(State())
    }

    constructor ()
      ensures Valid() && OneBuilding(State()) && OneOpen(jobs)
      ensures State() == Db([], map[], Idle)
    {
      jobs, codeState, phase := [], map[], Idle;
    }

    /** None answers 429: a job for the contract is open already. */
    method RequestVerification(contract: string, source: Source) returns (id: Option<nat>)
      requires Valid()
      modifies this
      ensures Valid() && (old(OneBuilding(State())) ==> OneBuilding(State())) && (old(OneOpen(jobs)) ==> OneOpen(jobs))
      ensures State() == Request(old(State()), contract, source)
      ensures id.None? <==> HasOpen(old(jobs), contract)
      ensures id.Some? ==> id.value == |old(jobs)|
    {
      for i := 0 to |jobs|
        invariant State() == old(State())
        invariant forall k :: 0 <= k < i ==> !(jobs[k].contract == contract && Open(jobs[k]))
      {
        if jobs[i].contract == contract && Open(jobs[i]) { return None; }
      }
      id := Some(|jobs|);
      jobs := jobs + [Job(contract, source, Pending, None, None, false, true)];
    }

    method ClaimNextJob()
      requires Valid() && phase == Idle
      modifies this
      ensures Valid() && (old(OneBuilding(State())) ==> OneBuilding(State()))
      ensures State() == ClaimNext(old(State()))
    {
      var i := 0;
      while i < |jobs| && jobs[i].status != Pending
        invariant 0 <= i <= |jobs| && State() == old(State())
        invariant OldestPending(jobs) == i + OldestPending(jobs[i..])
      {
        assert jobs[i..][1..] == jobs[i + 1..];
        i := i + 1;
      }
      if i == |jobs| { return; }
      jobs := jobs[i := jobs[i].(status := Building)];
      phase := FetchingBefore(i);
    }

    method FailJob(i: nat, before: Option<Hash>)
      requires Valid() && Working(phase) && i == phase.job
      modifies this
      ensures Valid() && (old(OneBuilding(State())) ==> OneBuilding(State()))
      ensures State() == Fail(old(State()), i, before)
    {
      var onchain := if before.Some? then before else jobs[i].onchainHash;
      jobs := jobs[i := jobs[i].(status := Failed, onchainHash := onchain)];
      phase := Idle;
    }

    method BeforeFetched(hash: Option<Hash>)
      requires Valid() && phase.FetchingBefore?
      modifies this
      ensures Valid() && (old(OneBuilding(State())) ==> OneBuilding(State()))
      ensures State() == FetchedBefore(old(State()), old(phase).job, hash)
    {
      if hash.None? {
        FailJob(phase.job, None);
        return;
      }
      phase := BuildingTwice(phase.job, hash.value);
    }

    method BuildsEnded(first: Option<Hash>, second: Option<Hash>)
      requires Valid() && phase.BuildingTwice?
      modifies this
      ensures Valid() && (old(OneBuilding(State())) ==> OneBuilding(State()))
      ensures State() == Built(old(State()), old(phase).job, old(phase).before, first, second)
    {
      var secondHash := None;
      if first.Some? { secondHash := second; }
      phase := FetchingAfter(phase.job, phase.before, first, secondHash);
    }

    method BuildThrew(gone: bool)
      requires Valid() && phase.BuildingTwice?
      modifies this
      ensures Valid() && (old(OneBuilding(State())) ==> OneBuilding(State()))
      ensures State() == BuildFailed(old(State()), old(phase).job, old(phase).before, gone)
    {
      var i := phase.job;
      FailJob(i, Some(phase.before));
      ghost var failed := jobs;
      jobs := jobs[i := jobs[i].(sourceRetrievable := !gone)];
      if gone {
        var source := jobs[i].source;
        assert MarkGone(jobs, source) == MarkGone(failed, source);
        jobs := MarkGone(jobs, source);
      }
    }

    method AfterFetched(hash: Option<Hash>)
      requires Valid() && phase.FetchingAfter?
      modifies this
      ensures Valid() && (old(OneBuilding(State())) ==> OneBuilding(State()))
      ensures
        var p := old(phase);
        State() == FetchedAfter(old(State()), p.job, p.before, p.first, p.second, hash)
    {
      var FetchingAfter(i, before, first, second) := phase;
      if hash.Some? && hash.value != before {
        jobs := jobs[i := jobs[i].(status := Pending)];
        phase := Idle;
        return;
      }
      if first.None? {
        FailJob(i, Some(before));
        return;
      }
      var reproducible := second.Some? && second.value == first.value;
      var done := jobs[i].(status := Completed, onchainHash := Some(before), builtHash := first,
                           reproducible := reproducible);
      jobs := jobs[i := done];
      phase := Recording(jobs[i].contract, before);
    }

    /** The processor's own upsert at the end of a job. */
    method OwnHashRecorded()
      requires Valid() && phase.Recording?
      modifies this
      ensures Valid() && (old(OneBuilding(State())) ==> OneBuilding(State()))
      ensures State() == Recorded(old(State()), old(phase).contract, old(phase).before)
    {
      UpgradeObserved(phase.contract, phase.before);
      phase := Idle;
    }

    /** A statement that rejects takes the processor back to waiting for the next tick. */
    method ProcessorFails()
      requires Valid() && phase != Idle
      modifies this
      ensures Valid()
      ensures State() == Dropped(old(State()))
    {
      phase := Idle;
    }

    /** The upsert of an observed upgrade event. */
    method UpgradeObserved(contract: string, hash: Hash)
      requires Valid()
      modifies this
      ensures Valid() && (old(OneBuilding(State())) ==> OneBuilding(State()))
      ensures State() == old(State()).(codeState := RecordOnChainHash(old(codeState), contract, hash))
    {
      if !Hex64(hash) { return; }
      codeState := codeState[contract := hash];
    }
  }
}
