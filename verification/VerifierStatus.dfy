/** What each badge stands for, and what each step does to a job, the processor and the recorded hashes. */
module VerifierStatus {
  import opened Wrappers
  import opened Verifier
  import opened VerifierRuns

  // ---------- badges ----------

  /** The SHA-256 of some code, printed: 64 hexadecimal digits in lower case. */
  predicate IsDigest(h: Hash) {
    |h| == 64 && forall c :: c in h ==> c in "0123456789abcdef"
  }

  lemma HexIsDigest(h: Hash)
    ensures Hex64(h) <==> IsDigest(h)
  {
    if Hex64(h) {
      forall c | c in h
        ensures c in "0123456789abcdef"
      {
        var i :| 0 <= i < |h| && h[i] == c;
        var digits := "0123456789abcdef";
        if c <= '9' {
          assert digits[c as int - '0' as int] == c;
        } else {
          assert digits[c as int - 'a' as int + 10] == c;
        }
      }
    }
    if IsDigest(h) {
      forall i | 0 <= i < |h|
        ensures '0' <= h[i] <= '9' || 'a' <= h[i] <= 'f'
      {
        assert h[i] in h;
      }
    }
  }

  /** Job `i` is the contract's latest. */
  predicate IsLatest(jobs: seq<Job>, contract: string, i: nat) {
    i < |jobs| && jobs[i].contract == contract && forall k :: i < k < |jobs| ==> jobs[k].contract != contract
  }

  lemma {:induction false} FindLatest(jobs: seq<Job>, contract: string, i: nat)
    requires IsLatest(jobs, contract, i)
    ensures Latest(jobs, contract) == Some(jobs[i])
  {
    if i < |jobs| - 1 {
      FindLatest(jobs[..|jobs| - 1], contract, i);
    }
  }

  lemma {:induction false} NoneIsLatest(jobs: seq<Job>, contract: string)
    ensures Latest(jobs, contract) == None <==> forall k :: 0 <= k < |jobs| ==> jobs[k].contract != contract
  {
    if jobs != [] {
      NoneIsLatest(jobs[..|jobs| - 1], contract);
      assert forall k :: 0 <= k < |jobs| - 1 ==> jobs[..|jobs| - 1][k] == jobs[k];
    }
  }

  /** A contract that nobody asked to verify is unverified. */
  lemma NoJobIsUnverified(db: Db, contract: string)
    requires forall k :: 0 <= k < |db.jobs| ==> db.jobs[k].contract != contract
    ensures Badge(db, contract) == Unverified
  {
    NoneIsLatest(db.jobs, contract);
  }

  /**
   * On every run the badge says exactly how the latest job stands, and once that is completed how what it built
   * compares with the hash recorded by now, or with the one it read itself if none has been recorded.
   */
  lemma BadgesMean(events: seq<Event>, contract: string, i: nat)
    requires IsLatest(Run(START, events).db.jobs, contract, i)
    ensures
      var w := Run(START, events);
      var job, badge := w.db.jobs[i], Badge(w.db, contract);
      && (badge == PendingBadge <==> job.status == Pending || job.status == Building)
      && (badge == FailedBadge <==> job.status == Failed)
      && (job.status == Completed ==> i in w.attempts && w.attempts[i].first.Some?)
      && (job.status == Completed ==>
            var Attempt(before, first, second, _) := w.attempts[i];
            var built := first.value;
            var recorded := if contract in w.db.codeState then w.db.codeState[contract] else before;
            var compared := IsDigest(built) && IsDigest(recorded);
            && (badge == Unverified <==> !compared)
            && (badge == Mismatch <==> compared && built != recorded)
            && (badge == VerifiedReproducible <==> compared && built == recorded && second == first)
            && (badge == VerifiedHashMatch <==> compared && built == recorded && second != first))
  {
    RunsKeepInv(START, events);
    var w := Run(START, events);
    assert JobOk(w, i);
    FindLatest(w.db.jobs, contract, i);
    var recorded := if contract in w.db.codeState then Some(w.db.codeState[contract]) else None;
    hide Run, PhaseOk, Inv, Latest, IsDigest, Hex64;
    if w.db.jobs[i].status == Completed {
      HexIsDigest(w.attempts[i].first.value);
      HexIsDigest(if recorded.Some? then recorded.value else w.attempts[i].before);
    }
  }

  // ---------- steps ----------

  /** Job `i` is the oldest of those that are pending. */
  predicate FirstPending(jobs: seq<Job>, i: nat) {
    i < |jobs| && jobs[i].status == Pending && forall k :: 0 <= k < i ==> jobs[k].status != Pending
  }

  lemma OldestIsFirst(jobs: seq<Job>, i: nat)
    ensures FirstPending(jobs, i) <==> i < |jobs| && i == OldestPending(jobs)
  {
    hide OldestPending;
    var k := OldestPending(jobs);
  }

  /** What becomes of job `i`: the processor moves the one at work on, and a vanished commit flags its like. */
  lemma JobSteps(w: World, e: Event, i: nat)
    requires Inv(w) && Enabled(w, e) && i < |w.db.jobs|
    ensures i < |Step(w, e).db.jobs|
    ensures
      var job, p := w.db.jobs[i], w.db.phase;
      Step(w, e).db.jobs[i] ==
      match e
      case Claimed => if FirstPending(w.db.jobs, i) then job.(status := Building) else job
      case ReadBefore(answer) => if p.job == i && answer == None then job.(status := Failed) else job
      case BuildThrew(gone) =>
        var source := w.db.jobs[p.job].source;
        if p.job == i then job.(status := Failed, onchainHash := Some(p.before), sourceRetrievable := !gone)
        else if gone && job.source.repository == source.repository && job.source.commit == source.commit
        then job.(sourceRetrievable := false)
        else job
      case ReadAfter(answer) =>
        if p.job != i then job
        else if answer != None && answer != Some(p.before) then job.(status := Pending)
        else if p.first == None then job.(status := Failed, onchainHash := Some(p.before))
        else Job(job.contract, job.source, Completed, p.first, Some(p.before), p.first == p.second, job.sourceRetrievable)
      case _ => job
  {
    hide Hex64, JobOk, HasOpen;
    if e.Claimed? {
      OldestIsFirst(w.db.jobs, i);
      hide OldestPending, FirstPending;
    }
  }

  /** Where the processor goes next, and what it takes along. */
  lemma PhaseSteps(w: World, e: Event)
    requires Inv(w) && Enabled(w, e)
    ensures
      var p, p' := w.db.phase, Step(w, e).db.phase;
      match e
      case Claimed =>
        if p'.FetchingBefore? then FirstPending(w.db.jobs, p'.job)
        else p' == Idle && forall k :: 0 <= k < |w.db.jobs| ==> w.db.jobs[k].status != Pending
      case ReadBefore(answer) => p' == if answer == None then Idle else BuildingTwice(p.job, answer.value)
      case BuiltTwice(first, second) => p' == FetchingAfter(p.job, p.before, first, if first == None then None else second)
      case ReadAfter(answer) =>
        p' == if (answer == None || answer == Some(p.before)) && p.first != None
              then Recording(w.db.jobs[p.job].contract, p.before) else Idle
      case BuildThrew(_) => p' == Idle
      case OwnRecorded => p' == Idle
      case ProcessorFailed => p' == Idle
      case _ => p' == p
  {
    hide Hex64, JobOk, HasOpen, MarkGone;
    if e.Claimed? {
      OldestIsFirst(w.db.jobs, OldestPending(w.db.jobs));
    }
    hide OldestPending;
  }

  /** Hashes are recorded by the processor for its job and by whoever observes an upgrade, if they are digests. */
  lemma RecordSteps(w: World, e: Event)
    requires Enabled(w, e)
    ensures Step(w, e).db.codeState ==
      match e
      case OwnRecorded =>
        if IsDigest(w.db.phase.before) then w.db.codeState[w.db.phase.contract := w.db.phase.before] else w.db.codeState
      case Observed(c, h) => if IsDigest(h) then w.db.codeState[c := h] else w.db.codeState
      case _ => w.db.codeState
  {
    hide IsDigest, Hex64, HasOpen, MarkGone, OldestPending;
    if e.OwnRecorded? { HexIsDigest(w.db.phase.before); }
    if e.Observed? { HexIsDigest(e.hash); }
  }

  /** What is noted of a run: the chain and all it ever held, each job's last attempt, moments and requests. */
  lemma HistorySteps(w: World, e: Event)
    requires Enabled(w, e)
    ensures
      var w', p := Step(w, e), w.db.phase;
      && w'.clock == w.clock + 1 && w'.readAt == (if e.ReadBefore? then w.clock else w.readAt)
      && w'.chain == (if e.Upgraded? then w.chain[e.contract := e.hash] else w.chain)
      && w'.held == (if e.Upgraded? then w.held + {(e.contract, e.hash)} else w.held)
      && w'.attempts ==
         (if e.ReadAfter? then w.attempts[p.job := Attempt(p.before, p.first, p.second, e.answer)] else w.attempts)
      && w'.asking ==
         (if e.RequestChecked? then w.asking + multiset{(e.contract, e.source)}
          else if e.RequestInserted? then w.asking - multiset{(e.contract, e.source)} else w.asking)
  {
    hide Request, ClaimNext, FetchedBefore, Built, BuildFailed, FetchedAfter, Recorded, RecordOnChainHash;
  }

  predicate HasJobAhead(jobs: seq<Job>, contract: string) {
    exists i :: 0 <= i < |jobs| && jobs[i].contract == contract && (jobs[i].status == Pending || jobs[i].status == Building)
  }

  /** Only requests add jobs, at the end; one made in a single step does exactly if the contract has no open job. */
  lemma RequestSteps(w: World, e: Event)
    requires Enabled(w, e)
    ensures
      var jobs := w.db.jobs;
      && (e.RequestChecked? ==> !HasJobAhead(jobs, e.contract))
      && if (e.Requested? && !HasJobAhead(jobs, e.contract)) || e.RequestInserted?
         then Step(w, e).db.jobs == jobs + [Job(e.contract, e.source, Pending, None, None, false, true)]
         else |Step(w, e).db.jobs| == |jobs|
  {
    hide Hex64, OldestPending;
  }
}
