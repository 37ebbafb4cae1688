/** How long a recorded upgrade takes a contract's badge away, and how the badge comes back. */
module VerifierBadge {
  import opened Wrappers
  import opened Verifier
  import opened VerifierRuns

  // ---------- a recorded upgrade takes the badge away ----------

  predicate Verified(w: World, contract: string) {
    Badge(w.db, contract) == VerifiedReproducible || Badge(w.db, contract) == VerifiedHashMatch
  }

  /** The processor is about to record the hash that it read before its builds. */
  predicate TailPending(w: World, contract: string) {
    w.db.phase.Recording? && w.db.phase.contract == contract
  }

  /** A recorded hash that the latest job has not built: what is shown from then on. */
  lemma RecordingRemovesBadge(w: World, contract: string, hash: Hash)
    requires Hex64(hash)
    requires Latest(w.db.jobs, contract).Some? ==> Latest(w.db.jobs, contract).value.builtHash != Some(hash)
    ensures !Verified(Step(w, Observed(contract, hash)), contract)
    ensures
      var latest := Latest(w.db.jobs, contract);
      Badge(Step(w, Observed(contract, hash)).db, contract) ==
      if latest == None then Unverified
      else match latest.value.status
        case Pending => PendingBadge
        case Building => PendingBadge
        case Failed => FailedBadge
        case Completed =>
          if latest.value.builtHash != None && Hex64(latest.value.builtHash.value) then Mismatch else Unverified
  {
    hide Hex64, Latest;
  }

  lemma {:induction false} LatestUpdate(jobs: seq<Job>, i: nat, job: Job, contract: string)
    requires i < |jobs| && job.contract == jobs[i].contract
    ensures Latest(jobs[i := job], contract) == Latest(jobs, contract)
         || (job.contract == contract
             && Latest(jobs[i := job], contract) == Some(job) && Latest(jobs, contract) == Some(jobs[i]))
  {
    if i < |jobs| - 1 {
      assert jobs[i := job][..|jobs| - 1] == jobs[..|jobs| - 1][i := job];
      LatestUpdate(jobs[..|jobs| - 1], i, job, contract);
    } else {
      assert jobs[i := job][..|jobs| - 1] == jobs[..|jobs| - 1];
    }
  }

  lemma {:induction false} LatestGone(jobs: seq<Job>, source: Source, contract: string)
    ensures Latest(MarkGone(jobs, source), contract) == Latest(jobs, contract)
         || (Latest(jobs, contract).Some?
             && Latest(MarkGone(jobs, source), contract) == Some(Latest(jobs, contract).value.(sourceRetrievable := false)))
  {
    if jobs != [] {
      assert MarkGone(jobs, source)[..|jobs| - 1] == MarkGone(jobs[..|jobs| - 1], source);
      LatestGone(jobs[..|jobs| - 1], source, contract);
    }
  }

  /** A job of the contract completes. */
  predicate CompletesJob(w: World, e: Event, contract: string)
    requires Enabled(w, e)
  {
    e.ReadAfter? && w.db.jobs[w.db.phase.job].contract == contract && Step(w, e).db.phase.Recording?
  }

  /** The hash that the contract's latest job built is recorded for it. */
  predicate RecordsBuiltHash(w: World, e: Event, contract: string) {
    e.Observed? && e.contract == contract
    && Latest(w.db.jobs, contract).Some? && Latest(w.db.jobs, contract).value.builtHash == Some(e.hash)
  }

  /** What may give a contract its badge back. */
  predicate Restores(w: World, e: Event, contract: string)
    requires Enabled(w, e)
  {
    CompletesJob(w, e, contract) || RecordsBuiltHash(w, e, contract)
  }

  lemma UnverifiedInTheProcessor(w: World, e: Event, contract: string)
    requires Inv(w) && Enabled(w, e) && !Verified(w, contract) && !TailPending(w, contract)
    requires (OfProcessor(e) || e.ReadAfter?) && !Restores(w, e, contract)
    ensures !Verified(Step(w, e), contract) && !TailPending(Step(w, e), contract)
  {
    hide Hex64, Latest, OldestPending, JobOk;
    var jobs, p := w.db.jobs, w.db.phase;
    if e.Claimed? {
      var i := OldestPending(jobs);
      if i < |jobs| { LatestUpdate(jobs, i, jobs[i].(status := Building), contract); }
    } else if e.BuildThrew? {
      var failed := Fail(w.db, p.job, Some(p.before)).jobs;
      LatestUpdate(jobs, p.job, failed[p.job], contract);
      if e.gone {
        LatestGone(failed, jobs[p.job].source, contract);
      } else {
        LatestUpdate(failed, p.job, failed[p.job].(sourceRetrievable := true), contract);
      }
    } else if !e.BuiltTwice? {
      LatestUpdate(jobs, p.job, Step(w, e).db.jobs[p.job], contract);
    }
  }

  lemma UnverifiedStays(w: World, e: Event, contract: string)
    requires Inv(w) && Enabled(w, e) && !Verified(w, contract) && !TailPending(w, contract)
    requires !Restores(w, e, contract)
    ensures !Verified(Step(w, e), contract) && !TailPending(Step(w, e), contract)
  {
    hide Hex64, Latest, Inv, HasOpen;
    if OfProcessor(e) || e.ReadAfter? {
      hide Step, Enabled, Restores, Verified, TailPending;
      UnverifiedInTheProcessor(w, e, contract);
    } else if e.Requested? || e.RequestInserted? {
      LatestAppend(w.db.jobs, Step(w, e).db.jobs, contract);
    }
  }

  lemma LatestAppend(jobs: seq<Job>, more: seq<Job>, contract: string)
    requires more == jobs || (|more| == |jobs| + 1 && more[..|jobs|] == jobs)
    ensures Latest(more, contract) == Latest(jobs, contract)
         || (more != [] && Latest(more, contract) == Some(more[|more| - 1]))
  {
  }

  /** No event of the run restores the contract's badge. */
  predicate Quiet(w: World, events: seq<Event>, contract: string)
    decreases |events|
  {
    events == [] ||
    if Enabled(w, events[0]) then !Restores(w, events[0], contract) && Quiet(Step(w, events[0]), events[1..], contract)
    else Quiet(w, events[1..], contract)
  }

  lemma {:induction false} UnverifiedStaysOnRuns(w: World, events: seq<Event>, contract: string)
    requires Inv(w) && !Verified(w, contract) && !TailPending(w, contract) && Quiet(w, events, contract)
    ensures !Verified(Run(w, events), contract)
    decreases |events|
  {
    hide Inv, Verified, TailPending, Restores, Step, Enabled;
    if events != [] {
      if Enabled(w, events[0]) {
        UnverifiedStays(w, events[0], contract);
        StepKeepsInv(w, events[0]);
        UnverifiedStaysOnRuns(Step(w, events[0]), events[1..], contract);
      } else {
        UnverifiedStaysOnRuns(w, events[1..], contract);
      }
    }
  }

  lemma RunCons(w: World, events: seq<Event>, k: nat)
    requires 0 < k <= |events|
    ensures Run(w, events[..k]) == Run(if Enabled(w, events[0]) then Step(w, events[0]) else w, events[1..][..k - 1])
  {
    assert events[..k][0] == events[0] && events[..k][1..] == events[1..][..k - 1];
    hide Enabled, Step;
  }

  /** The event of the run that restores the badge. */
  lemma {:induction false} FindRestoring(w: World, events: seq<Event>, contract: string) returns (k: nat)
    requires !Quiet(w, events, contract)
    ensures k < |events| && Enabled(Run(w, events[..k]), events[k]) && Restores(Run(w, events[..k]), events[k], contract)
    decreases |events|
  {
    hide Restores, Step, Enabled, Run;
    RunNone(w, events);
    if Enabled(w, events[0]) && Restores(w, events[0], contract) {
      k := 0;
    } else {
      var next := if Enabled(w, events[0]) then Step(w, events[0]) else w;
      var j := FindRestoring(next, events[1..], contract);
      k := j + 1;
      RunCons(w, events, k);
    }
  }

  /** What was read before some moment, and is still being worked on, was being worked on at that moment. */
  ghost predicate OldRead(w: World, v: World) {
    v.clock >= w.clock &&
    (HasRead(v.db.phase) && v.readAt < w.clock ==>
       HasRead(w.db.phase) && w.db.phase.job == v.db.phase.job && w.db.phase.before == v.db.phase.before)
  }

  lemma StepKeepsOldRead(w: World, v: World, e: Event)
    requires OldRead(w, v) && Enabled(v, e)
    ensures OldRead(w, Step(v, e))
  {
    hide Hex64;
  }

  lemma {:induction false} RunKeepsOldRead(w: World, v: World, events: seq<Event>)
    requires OldRead(w, v)
    ensures OldRead(w, Run(v, events))
    decreases |events|
  {
    hide OldRead, Step, Enabled;
    if events != [] {
      if Enabled(v, events[0]) { StepKeepsOldRead(w, v, events[0]); }
      RunKeepsOldRead(w, if Enabled(v, events[0]) then Step(v, events[0]) else v, events[1..]);
    }
  }

  /** The job was in work when `w` was, on the hash read before, and the second read failed or found that hash again. */
  predicate CompletesOldRead(w: World, v: World, e: Event, contract: string)
    requires Enabled(v, e) && CompletesJob(v, e, contract)
  {
    && HasRead(w.db.phase) && w.db.phase.job == v.db.phase.job && w.db.phase.before == v.db.phase.before
    && (e.answer.None? || (contract in v.chain && v.chain[contract] == w.db.phase.before))
  }

  lemma WhatRestores(w: World, v: World, e: Event, contract: string)
    requires OldRead(w, v) && Enabled(v, e) && Restores(v, e, contract)
    ensures RecordsBuiltHash(v, e, contract)
         || (CompletesJob(v, e, contract) && (v.readAt >= w.clock || CompletesOldRead(w, v, e, contract)))
  {
    hide Latest, Hex64;
  }

  /**
   * Once a hash other than the built one is recorded, unless the processor is just about to record its own
   * read, a verified badge only comes back by one of these: a job completes that read the chain after the
   * recording; the job that was being built completes, its second read having failed or having found the
   * old hash on the chain again; or the built hash is recorded again.
   */
  lemma BadgeComesBackBy(w: World, contract: string, hash: Hash, events: seq<Event>) returns (k: nat)
    requires Inv(w) && Hex64(hash) && !TailPending(w, contract)
    requires Latest(w.db.jobs, contract).Some? ==> Latest(w.db.jobs, contract).value.builtHash != Some(hash)
    requires Verified(Run(Step(w, Observed(contract, hash)), events), contract)
    ensures k < |events|
    ensures
      var recorded := Step(w, Observed(contract, hash));
      var v, e := Run(recorded, events[..k]), events[k];
      && Enabled(v, e)
      && (|| RecordsBuiltHash(v, e, contract)
          || (CompletesJob(v, e, contract) && (v.readAt >= recorded.clock || CompletesOldRead(recorded, v, e, contract))))
  {
    var recorded := Step(w, Observed(contract, hash));
    RecordingRemovesBadge(w, contract, hash);
    StepKeepsInv(w, Observed(contract, hash));
    hide Inv, Hex64, Latest, Quiet, Run, Verified, Restores, CompletesJob, CompletesOldRead, RecordsBuiltHash;
    if Quiet(recorded, events, contract) {
      UnverifiedStaysOnRuns(recorded, events, contract);
    }
    k := FindRestoring(recorded, events, contract);
    RunKeepsOldRead(recorded, recorded, events[..k]);
    hide OldRead;
    WhatRestores(recorded, Run(recorded, events[..k]), events[k], contract);
  }

  /**
   * In that one window the badge does come back by itself: the processor overwrites the upgrade with its
   * older read, and the badge is verified again exactly if the latest job built that older hash.
   */
  lemma TailGivesTheBadgeBack(w: World, contract: string, hash: Hash)
    requires TailPending(w, contract) && Hex64(hash)
    requires Latest(w.db.jobs, contract).Some? ==> Latest(w.db.jobs, contract).value.builtHash != Some(hash)
    ensures
      var before := w.db.phase.before;
      Verified(Step(Step(w, Observed(contract, hash)), OwnRecorded), contract) <==>
        && Hex64(before) && Latest(w.db.jobs, contract).Some?
        && Latest(w.db.jobs, contract).value.status == Completed
        && Latest(w.db.jobs, contract).value.builtHash == Some(before)
  {
  }

  /** An upgrade that is observed between the completion of a job and the processor's own recording. */
  function UpgradeInTheTail(contract: string, source: Source, a: Hash, b: Hash): seq<Event> {
    [Requested(contract, source), Upgraded(contract, a), Claimed, ReadBefore(Some(a)), BuiltTwice(Some(a), Some(a)),
     ReadAfter(Some(a)), Upgraded(contract, b), Observed(contract, b), OwnRecorded]
  }

  /** Its first six steps leave the processor about to record the hash that it built and read. */
  lemma RunToTheTail(contract: string, source: Source, a: Hash, b: Hash) returns (w: World)
    ensures w.db == Db([Job(contract, source, Completed, Some(a), Some(a), true, true)], map[], Recording(contract, a))
    ensures contract in w.chain && w.chain[contract] == a
    ensures Run(START, UpgradeInTheTail(contract, source, a, b)) == Run(w, UpgradeInTheTail(contract, source, a, b)[6..])
  {
    hide Run, Hex64;
    var events := UpgradeInTheTail(contract, source, a, b);
    assert events[0..] == events;
    RunNext(START, events, 0);
    var w1 := Step(START, events[0]);
    RunNext(w1, events, 1);
    var w2 := Step(w1, events[1]);
    RunNext(w2, events, 2);
    var w3 := Step(w2, events[2]);
    RunNext(w3, events, 3);
    var w4 := Step(w3, events[3]);
    RunNext(w4, events, 4);
    var w5 := Step(w4, events[4]);
    RunNext(w5, events, 5);
    w := Step(w5, events[5]);
  }

  /** The run is possible, and its last step shows as verified a contract whose chain now holds other code. */
  lemma BadgeOutlivesAnUpgrade(contract: string, source: Source, a: Hash, b: Hash)
    requires Hex64(a) && Hex64(b) && a != b
    ensures
      var w := Run(START, UpgradeInTheTail(contract, source, a, b));
      Badge(w.db, contract) == VerifiedReproducible && contract in w.chain && w.chain[contract] == b
  {
    hide Run, Hex64;
    var events := UpgradeInTheTail(contract, source, a, b);
    var w := RunToTheTail(contract, source, a, b);
    RunNext(w, events, 6);
    var w1 := Step(w, events[6]);
    RunNext(w1, events, 7);
    var w2 := Step(w1, events[7]);
    RunNext(w2, events, 8);
    var w3 := Step(w2, events[8]);
    assert events[9..] == [];
    RunNone(w3, []);
  }

  /** An upgrade that is observed while the job is being built, and a second read of the chain that fails. */
  function UpgradeMidBuild(contract: string, source: Source, a: Hash, b: Hash): seq<Event> {
    [Requested(contract, source), Upgraded(contract, a), Claimed, ReadBefore(Some(a)), Upgraded(contract, b),
     Observed(contract, b), BuiltTwice(Some(a), Some(a)), ReadAfter(None), OwnRecorded]
  }

  lemma RunToTheSecondRead(contract: string, source: Source, a: Hash, b: Hash) returns (w: World)
    requires Hex64(b)
    ensures w.db == Db([Job(contract, source, Building, None, None, false, true)], map[contract := b],
                       FetchingAfter(0, a, Some(a), Some(a)))
    ensures contract in w.chain && w.chain[contract] == b
    ensures Run(START, UpgradeMidBuild(contract, source, a, b)) == Run(w, UpgradeMidBuild(contract, source, a, b)[7..])
  {
    hide Run, Hex64;
    var events := UpgradeMidBuild(contract, source, a, b);
    assert events[0..] == events;
    RunNext(START, events, 0);
    var w1 := Step(START, events[0]);
    RunNext(w1, events, 1);
    var w2 := Step(w1, events[1]);
    RunNext(w2, events, 2);
    var w3 := Step(w2, events[2]);
    RunNext(w3, events, 3);
    var w4 := Step(w3, events[3]);
    RunNext(w4, events, 4);
    var w5 := Step(w4, events[4]);
    RunNext(w5, events, 5);
    var w6 := Step(w5, events[5]);
    RunNext(w6, events, 6);
    w := Step(w6, events[6]);
  }

  /** The job completes all the same, and the contract is shown as verified though its chain holds other code. */
  lemma FailedReadHidesAnUpgrade(contract: string, source: Source, a: Hash, b: Hash)
    requires Hex64(a) && Hex64(b) && a != b
    ensures
      var w := Run(START, UpgradeMidBuild(contract, source, a, b));
      Badge(w.db, contract) == VerifiedReproducible && contract in w.chain && w.chain[contract] == b
  {
    hide Run, Hex64;
    var events := UpgradeMidBuild(contract, source, a, b);
    var w := RunToTheSecondRead(contract, source, a, b);
    RunNext(w, events, 7);
    var w1 := Step(w, events[7]);
    RunNext(w1, events, 8);
    var w2 := Step(w1, events[8]);
    assert events[9..] == [];
    RunNone(w2, []);
  }
}
