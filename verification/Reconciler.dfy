/**
 * Rebuilding the event commitment in batches and comparing it with a remote one
 * (indexer/src/integrityReconciler.js).
 */
module Reconciler {
  import opened Wrappers
  import opened Basics
  import opened Events
  import opened Mmr

  /** The columns that the rebuild selects and hashes. */
  datatype Committed = Committed(
    seqNo: Serial, contract: Option<string>, fn: string, ledger: nat, description: string, rawData: Option<string>)

  function CommittedOf(e: Event): Committed {
    Committed(e.seqNo, e.contract, e.fn, e.ledger, e.description, e.rawData)
  }

  /** What of a log is committed to. */
  function CommittedLog(rows: seq<Event>): (log: seq<Committed>)
    ensures |log| == |rows|
  {
    seq(|rows|, i requires 0 <= i < |rows| => CommittedOf(rows[i]))
  }

  /** `hash` is `hashLeaf` of the JSON text of the committed columns. */
  function LeavesOf<D>(rows: seq<Event>, hash: Committed -> D): (leaves: seq<D>)
    ensures |leaves| == |rows|
  {
    seq(|rows|, i requires 0 <= i < |rows| => hash(CommittedOf(rows[i])))
  }

  datatype Outcome<D> = Outcome(ok: bool, local: Report<D>, suspects: seq<Event>)

  /** The rows that `seq <= n` marks. */
  function UpTo(t: seq<Event>, n: nat): seq<Event> {
    Rows(t, NO_FILTER, Below(n + 1))
  }

  function OutcomeOf<D(==)>(t: seq<Event>, local: Report<D>, remote: Report<D>): Outcome<D> {
    var ok := local.root == remote.root && local.leafCount == remote.leafCount;
    var n := if local.leafCount < remote.leafCount then local.leafCount else remote.leafCount;
    Outcome(ok, local, if ok then [] else UpTo(t, n))
  }

  lemma AllRows(t: seq<Event>)
    ensures Rows(t, NO_FILTER, Above(0)) == t
  {
  }

  lemma LeavesAppend<D>(rows: seq<Event>, e: Event, hash: Committed -> D)
    ensures LeavesOf(rows + [e], hash) == LeavesOf(rows, hash) + [hash(CommittedOf(e))]
  {
  }

  /** Events are only appended while the queries of a rebuild follow each other; after the last snapshot no more. */
  ghost predicate Grows(snapshots: seq<seq<Event>>) {
    && (forall i :: 0 <= i < |snapshots| ==> Ordered(snapshots[i]))
    && forall i :: 0 < i < |snapshots| ==> snapshots[i - 1] <= snapshots[i]
  }

  /** The table as query `k` sees it. */
  function SeenBy(snapshots: seq<seq<Event>>, k: nat): seq<Event>
    requires snapshots != []
  {
    snapshots[Min(k, |snapshots| - 1)]
  }

  /** The inner loop: appends a batch and moves `after` to its last row, unless there are too many leaves. */
  method AppendBatch<D>(mmr: EventMmr<D>, ghost done: seq<Event>, rows: seq<Event>, hash: Committed -> D, first: nat)
    returns (ok: bool, after: nat)
    requires mmr.Valid() && mmr.leaves == LeavesOf(done, hash)
    modifies mmr
    ensures ok <==> |done| + |rows| <= MAX_LEAVES
    ensures ok ==> mmr.Valid() && mmr.leaves == LeavesOf(done + rows, hash)
    ensures ok ==> after == if rows == [] then first else rows[|rows| - 1].seqNo
  {
    hide LeavesOf;
    after := first;
    ghost var folded := done;
    for i := 0 to |rows|
      invariant mmr.Valid() && folded == done + rows[..i] && mmr.leaves == LeavesOf(folded, hash)
      invariant after == if i == 0 then first else rows[i - 1].seqNo
    {
      LeavesAppend(folded, rows[i], hash);
      var appended := mmr.Append(hash(CommittedOf(rows[i])));
      if appended.None? {
        return false, after;
      }
      assert rows[..i + 1] == rows[..i] + [rows[i]];
      folded := folded + [rows[i]];
      after := rows[i].seqNo;
    }
    assert rows[..|rows|] == rows;
    ok := true;
  }

  /**
   * Each query meets the table as it is by then, and `queries` is how many it took. None stands for the error
   * that an event too many for 32-bit leaf counts raises.
   */
  method ReconcileEventCommitment<D(==)>(
      snapshots: seq<seq<Event>>, h: (D, D) -> D, zero: D, hash: Committed -> D, limit: nat, remote: Report<D>)
    returns (r: Option<Outcome<D>>, queries: nat)
    requires snapshots != [] && Grows(snapshots)
    ensures queries > 0
    ensures
      var t := SeenBy(snapshots, queries - 1);
      && (limit > 0 && r.None? ==> |t| > MAX_LEAVES)
      && (limit > 0 && r.Some? ==>
            |t| <= MAX_LEAVES && r.value == OutcomeOf(t, ReportOf(h, zero, LeavesOf(t, hash)), remote))
      && (limit == 0 ==> r == Some(OutcomeOf(t, ReportOf(h, zero, []), remote)))
  {
    hide Rows, Ordered, Matches, OutcomeOf, ReportOf, LeavesOf, Take, Grows, SeenBy, Folded;
    var mmr := new EventMmr(h, zero);
    var after: nat := 0;
    queries := 0;
    FoldBegins(SeenBy(snapshots, 0), hash);
    ghost var done: seq<Event> := [];
    while true
      invariant fresh(mmr) && mmr.h == h && mmr.zero == zero && mmr.Valid() && mmr.leaves == LeavesOf(done, hash)
      invariant Folded(SeenBy(snapshots, queries), done, after)
      invariant limit == 0 ==> done == []
      decreases |snapshots| - Min(queries, |snapshots|), |Rows(SeenBy(snapshots, queries), NO_FILTER, Above(after))|
    {
      ghost var t := SeenBy(snapshots, queries);
      var rows := Take(Rows(SeenBy(snapshots, queries), NO_FILTER, Above(after)), limit);
      SnapshotsGrow(snapshots, queries);
      queries := queries + 1;
      if |rows| == 0 { break; }
      BatchFolds(t, done, after, limit, rows);
      TableGrows(t, SeenBy(snapshots, queries), done + rows, rows[|rows| - 1].seqNo);
      var ok;
      ok, after := AppendBatch(mmr, done, rows, hash, after);
      if !ok { return None, queries; }
      done := done + rows;
    }
    NothingFetched(SeenBy(snapshots, queries - 1), done, after, limit);
    var local := mmr.Root();
    r := Some(OutcomeOf(SeenBy(snapshots, queries - 1), local, remote));
  }

  /** What has been appended to the range, and what lies above the last row of it. */
  ghost predicate Folded(t: seq<Event>, done: seq<Event>, after: nat) {
    done + Rows(t, NO_FILTER, Above(after)) == t && after == if done == [] then 0 else done[|done| - 1].seqNo
  }

  lemma SnapshotsGrow(snapshots: seq<seq<Event>>, k: nat)
    requires snapshots != [] && Grows(snapshots)
    ensures Ordered(SeenBy(snapshots, k)) && Ordered(SeenBy(snapshots, k + 1))
    ensures SeenBy(snapshots, k) <= SeenBy(snapshots, k + 1)
    ensures k >= |snapshots| - 1 ==> SeenBy(snapshots, k) == SeenBy(snapshots, k + 1)
  {
  }

  /** A batch of rows joins the range. */
  lemma BatchFolds(t: seq<Event>, done: seq<Event>, after: nat, limit: nat, rows: seq<Event>)
    requires Ordered(t) && Folded(t, done, after)
    requires rows == Take(Rows(t, NO_FILTER, Above(after)), limit) && rows != []
    ensures
      var c := rows[|rows| - 1].seqNo;
      && Folded(t, done + rows, c) && |done| + |rows| <= |t| && limit > 0
      && |Rows(t, NO_FILTER, Above(c))| < |Rows(t, NO_FILTER, Above(after))|
  {
    NextPage(t, NO_FILTER, after, limit);
    hide Rows, Take, Ordered;
    assert done + rows + Rows(t, NO_FILTER, Above(rows[|rows| - 1].seqNo)) == done + Rows(t, NO_FILTER, Above(after));
  }

  /** By the next query the table may have grown. */
  lemma TableGrows(t: seq<Event>, u: seq<Event>, done: seq<Event>, after: nat)
    requires Ordered(u) && t <= u && Folded(t, done, after) && done != []
    ensures Folded(u, done, after)
  {
    hide Rows, Matches;
    var more := u[|t|..];
    assert u == t + more && t[|done| - 1] == done[|done| - 1];
    assert forall e :: e in more ==> e.seqNo > after;
    hide Ordered;
    RowsConcat(t, more, NO_FILTER, Above(after));
    RowsRebound(more, NO_FILTER, Above(after), Above(0));
    AllRows(more);
    assert done + (Rows(t, NO_FILTER, Above(after)) + more) == t + more;
  }

  lemma FoldBegins<D>(t: seq<Event>, hash: Committed -> D)
    ensures LeavesOf([], hash) == [] && Folded(t, [], 0)
  {
    AllRows(t);
  }

  lemma NothingFetched(t: seq<Event>, done: seq<Event>, after: nat, limit: nat)
    requires Folded(t, done, after) && Take(Rows(t, NO_FILTER, Above(after)), limit) == []
    ensures limit == 0 || done == t
  {
    hide Rows;
    assert done + [] == done;
  }

  // ---------- what the comparison decides ----------

  /** No two of the records that were hashed for the two logs collide. */
  ghost predicate LeafCollisionFree<D>(t: seq<Event>, u: seq<Event>, hash: Committed -> D) {
    var hashed := CommittedLog(t) + CommittedLog(u);
    forall a, b :: a in hashed && b in hashed && hash(a) == hash(b) ==> a == b
  }

  lemma LeavesDecide<D>(t: seq<Event>, u: seq<Event>, hash: Committed -> D)
    ensures CommittedLog(t) == CommittedLog(u) ==> LeavesOf(t, hash) == LeavesOf(u, hash)
    ensures LeafCollisionFree(t, u, hash) && LeavesOf(t, hash) == LeavesOf(u, hash) ==> CommittedLog(t) == CommittedLog(u)
  {
    if CommittedLog(t) == CommittedLog(u) {
      forall i | 0 <= i < |t|
        ensures LeavesOf(t, hash)[i] == LeavesOf(u, hash)[i]
      {
        assert CommittedLog(t)[i] == CommittedLog(u)[i];
      }
    }
    if LeafCollisionFree(t, u, hash) && LeavesOf(t, hash) == LeavesOf(u, hash) {
      forall i | 0 <= i < |t|
        ensures CommittedLog(t)[i] == CommittedLog(u)[i]
      {
        assert LeavesOf(t, hash)[i] == LeavesOf(u, hash)[i];
        assert CommittedLog(t)[i] in CommittedLog(t) && CommittedLog(u)[i] in CommittedLog(u);
      }
    }
  }

  lemma CommittedAgree(t: seq<Event>, u: seq<Event>)
    ensures CommittedLog(t) == CommittedLog(u) <==>
      && |t| == |u|
      && forall i :: 0 <= i < |t| ==>
        && t[i].seqNo == u[i].seqNo && t[i].contract == u[i].contract && t[i].fn == u[i].fn
        && t[i].ledger == u[i].ledger && t[i].description == u[i].description && t[i].rawData == u[i].rawData
  {
    if CommittedLog(t) == CommittedLog(u) {
      forall i | 0 <= i < |t|
        ensures CommittedOf(t[i]) == CommittedOf(u[i])
      {
        assert CommittedLog(t)[i] == CommittedLog(u)[i];
      }
    }
  }

  /**
   * Against a remote that reports the commitment of its own log `u`, the reconciler says `ok` exactly when the
   * two logs agree in the six columns that are hashed, provided that none of the values hashed collide.
   */
  lemma OkDecides<D>(t: seq<Event>, u: seq<Event>, h: (D, D) -> D, zero: D, hash: Committed -> D)
    requires LeafCollisionFree(t, u, hash)
    requires CollisionFree(h, HashedPairs(h, LeavesOf(t, hash), None) + HashedPairs(h, LeavesOf(u, hash), None))
    ensures
      var local := ReportOf(h, zero, LeavesOf(t, hash));
      var remote := ReportOf(h, zero, LeavesOf(u, hash));
      OutcomeOf(t, local, remote).ok <==>
        && |t| == |u|
        && forall i :: 0 <= i < |t| ==>
          && t[i].seqNo == u[i].seqNo && t[i].contract == u[i].contract && t[i].fn == u[i].fn
          && t[i].ledger == u[i].ledger && t[i].description == u[i].description && t[i].rawData == u[i].rawData
  {
    RootBinds(h, zero, LeavesOf(t, hash), LeavesOf(u, hash));
    LeavesDecide(t, u, hash);
    CommittedAgree(t, u);
    hide ReportOf, HashedPairs, LeavesOf, CommittedLog;
  }

  /** Whatever the hashes, a log whose other columns were changed throughout is `ok`. */
  lemma OtherColumnsAreNotCommitted<D>(
      t: seq<Event>, u: seq<Event>, h: (D, D) -> D, zero: D, hash: Committed -> D)
    requires |t| == |u|
    requires forall i :: 0 <= i < |t| ==>
      u[i] == t[i].(network := u[i].network, others := u[i].others)
    ensures OutcomeOf(t, ReportOf(h, zero, LeavesOf(t, hash)), ReportOf(h, zero, LeavesOf(u, hash))).ok
  {
    CommittedAgree(t, u);
    LeavesDecide(t, u, hash);
    hide ReportOf, LeavesOf, CommittedLog;
  }

  /** As where one event was moved to another network. */
  lemma NetworkIsNotCommitted<D>(e: Event, network: string, h: (D, D) -> D, zero: D, hash: Committed -> D)
    requires network != e.network
    ensures
      var t, u := [e], [e.(network := network)];
      t != u && OutcomeOf(t, ReportOf(h, zero, LeavesOf(t, hash)), ReportOf(h, zero, LeavesOf(u, hash))).ok
  {
    var t, u := [e], [e.(network := network)];
    assert t[0] != u[0];
    hide OutcomeOf, LeavesOf, ReportOf;
    OtherColumnsAreNotCommitted(t, u, h, zero, hash);
  }

  /** What is marked, where the reports differ: the rows whose number exceeds neither leaf count, in order. */
  lemma MismatchMarks<D>(t: seq<Event>, local: Report<D>, remote: Report<D>, e: Event)
    requires Ordered(t)
    ensures
      var r := OutcomeOf(t, local, remote);
      && r.local == local && (r.ok <==> local == remote) && Ordered(r.suspects)
      && (e in r.suspects <==> local != remote && e in t && e.seqNo <= local.leafCount && e.seqNo <= remote.leafCount)
  {
    var n := if local.leafCount < remote.leafCount then local.leafCount else remote.leafCount;
    RowsMember(t, NO_FILTER, Below(n + 1), e);
    RowsOrdered(t, NO_FILTER, Below(n + 1));
    hide Rows, Ordered;
  }

  /**
   * If the reports differ, the rows that both sides have a leaf for, and only these, are marked exactly when the
   * last of them carries its own number: when no serial number below it was skipped.
   */
  lemma SuspectsAreThePrefix<D>(t: seq<Event>, local: Report<D>, remote: Report<D>)
    requires Ordered(t) && local.leafCount == |t| && local != remote
    ensures
      var n := Min(|t|, remote.leafCount);
      OutcomeOf(t, local, remote).suspects == t[..n] <==> n == 0 || t[n - 1].seqNo == n
  {
    UpToIsPrefix(t, Min(|t|, remote.leafCount));
    hide UpTo, Ordered;
  }

  lemma UpToIsPrefix(t: seq<Event>, n: nat)
    requires Ordered(t) && n <= |t|
    ensures UpTo(t, n) == t[..n] <==> n == 0 || t[n - 1].seqNo == n
  {
    hide Rows;
    if n == 0 {
      RowsNone(t, NO_FILTER, Below(1));
    } else {
      SerialAtLeast(t, n - 1);
      if t[n - 1].seqNo == n {
        MarksPrefix(t, n);
      } else {
        RowsMember(t, NO_FILTER, Below(n + 1), t[n - 1]);
        assert t[n - 1] in t[..n];
      }
    }
  }

  lemma MarksPrefix(t: seq<Event>, n: nat)
    requires Ordered(t) && 0 < n <= |t| && t[n - 1].seqNo == n
    ensures UpTo(t, n) == t[..n]
  {
    hide Rows, Matches;
    var low, high := t[..n], t[n..];
    assert t == low + high;
    assert forall e :: e in low ==> e.seqNo <= n;
    assert forall e :: e in high ==> e.seqNo > n;
    hide Ordered;
    RowsConcat(low, high, NO_FILTER, Below(n + 1));
    RowsRebound(low, NO_FILTER, Below(n + 1), Above(0));
    RowsNone(high, NO_FILTER, Below(n + 1));
    AllRows(low);
  }

  lemma {:induction false} SerialAtLeast(t: seq<Event>, j: nat)
    requires Ordered(t) && j < |t|
    ensures t[j].seqNo >= j + 1
  {
    if j > 0 {
      SerialAtLeast(t, j - 1);
    }
  }
}
