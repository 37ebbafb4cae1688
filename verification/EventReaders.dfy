/** The readers that go up the log: `iterateEventsSnapshot` and `getEventsSince` in indexer/src/db.js. */
module EventReaders {
  import opened Wrappers
  import opened Basics
  import opened Events

  /**
   * The batches an export yields: together the rows of the contract between the two ledgers, or all where none is
   * given, in order; none of the batches is empty or too long.
   */
  method IterateEventsSnapshot(
      t: seq<Event>, contract: Option<string>, fromLedger: Option<nat>, toLedger: Option<nat>, batchSize: nat)
    returns (batches: seq<seq<Event>>)
    requires Ordered(t)
    ensures Ordered(Flatten(batches))
    ensures batchSize > 0 ==> forall e :: e in Flatten(batches) <==>
      && e in t && (contract.None? || e.contract == contract)
      && (fromLedger.None? || fromLedger.value <= e.ledger) && (toLedger.None? || e.ledger <= toLedger.value)
    ensures batchSize == 0 ==> batches == []
    ensures forall b :: b in batches ==> 0 < |b| <= batchSize
    ensures forall i :: 0 <= i < |batches| - 1 ==> |batches[i]| == batchSize
  {
    hide Rows, Matches, Ordered, Take, Flatten;
    var f := Filter(None, contract, [], AnyKind, fromLedger, toLedger);
    batches := [];
    var lastSeq: nat := 0;
    SnapshotStarts(t, f);
    while true
      invariant Flatten(batches) + Rows(t, f, Above(lastSeq)) == Rows(t, f, Unbounded)
      invariant batchSize == 0 ==> batches == []
      invariant forall i :: 0 <= i < |batches| ==> |batches[i]| == batchSize > 0
      decreases |Rows(t, f, Above(lastSeq))|
    {
      var rows := Take(Rows(t, f, Above(lastSeq)), batchSize);
      if |rows| == 0 { break; }
      NextBatch(t, f, lastSeq, batchSize, batches, rows);
      batches := batches + [rows];
      lastSeq := rows[|rows| - 1].seqNo;
      if |rows| < batchSize { break; }
    }
    TakeNone(Rows(t, f, Above(lastSeq)), batchSize);
    SnapshotEnds(t, f, batches, lastSeq);
  }

  lemma SnapshotEnds(t: seq<Event>, f: Filter, batches: seq<seq<Event>>, lastSeq: nat)
    requires Ordered(t) && f == Filter(None, f.contract, [], AnyKind, f.fromLedger, f.toLedger)
    requires Flatten(batches) + Rows(t, f, Above(lastSeq)) == Rows(t, f, Unbounded)
    ensures Ordered(Flatten(batches))
    ensures Rows(t, f, Above(lastSeq)) == [] ==> forall e :: e in Flatten(batches) <==>
      && e in t && (f.contract.None? || e.contract == f.contract)
      && (f.fromLedger.None? || f.fromLedger.value <= e.ledger) && (f.toLedger.None? || e.ledger <= f.toLedger.value)
  {
    forall e: Event
      ensures e in Rows(t, f, Unbounded) <==>
        && e in t && (f.contract.None? || e.contract == f.contract)
        && (f.fromLedger.None? || f.fromLedger.value <= e.ledger) && (f.toLedger.None? || e.ledger <= f.toLedger.value)
    {
      WhatIsSelected(t, f, Unbounded, e);
    }
    RowsOrdered(t, f, Unbounded);
    hide Rows, Flatten;
    var flat := Flatten(batches);
    assert flat == (flat + Rows(t, f, Above(lastSeq)))[..|flat|];
  }

  lemma SnapshotStarts(t: seq<Event>, f: Filter)
    ensures Flatten<Event>([]) + Rows(t, f, Above(0)) == Rows(t, f, Unbounded)
  {
    RowsRebound(t, f, Unbounded, Above(0));
  }

  lemma TakeNone(rows: seq<Event>, n: nat)
    ensures Take(rows, n) == [] <==> rows == [] || n == 0
  {
  }

  lemma NextBatch(t: seq<Event>, f: Filter, after: nat, n: nat, batches: seq<seq<Event>>, page: seq<Event>)
    requires Ordered(t) && page == Take(Rows(t, f, Above(after)), n) && page != []
    ensures
      var rest := Rows(t, f, Above(page[|page| - 1].seqNo));
      && |page| <= n && |rest| < |Rows(t, f, Above(after))|
      && (|page| < n ==> rest == [])
      && Flatten(batches + [page]) + rest == Flatten(batches) + Rows(t, f, Above(after))
  {
    NextPage(t, f, after, n);
    hide Rows, Ordered;
    assert (batches + [page])[..|batches|] == batches;
  }

  datatype Since = Since(data: seq<Event>, nextCursor: nat, hasMore: bool)

  function OnNetwork(network: string): Filter {
    NO_FILTER.(network := Some(network))
  }

  method GetEventsSince(t: seq<Event>, network: string, afterSeq: nat, limit: nat) returns (r: Since)
    ensures r == EventsSince(t, OnNetwork(network), afterSeq, limit)
  {
    var rows := Take(Rows(t, OnNetwork(network), Above(afterSeq)), limit + 1);
    var hasMore := |rows| > limit;
    var data := if hasMore then rows[..limit] else rows;
    r := Since(data, if |data| > 0 then data[|data| - 1].seqNo else afterSeq, hasMore);
  }

  function EventsSince(t: seq<Event>, f: Filter, afterSeq: nat, limit: nat): Since {
    var rows := Rows(t, f, Above(afterSeq));
    var data := Take(rows, limit);
    Since(data, if data == [] then afterSeq else data[|data| - 1].seqNo, |rows| > limit)
  }

  /** A row of the network above a cursor. */
  predicate IsAbove(t: seq<Event>, network: string, cursor: nat, e: Event) {
    e in t && e.network == network && e.seqNo > cursor
  }

  lemma NetworkRows(t: seq<Event>, network: string, cursor: nat)
    requires Ordered(t)
    ensures Ordered(Rows(t, OnNetwork(network), Above(cursor)))
    ensures forall e :: e in Rows(t, OnNetwork(network), Above(cursor)) <==> IsAbove(t, network, cursor, e)
  {
    RowsOrdered(t, OnNetwork(network), Above(cursor));
    forall e: Event
      ensures e in Rows(t, OnNetwork(network), Above(cursor)) <==> IsAbove(t, network, cursor, e)
    {
      WhatIsSelected(t, OnNetwork(network), Above(cursor), e);
    }
  }

  /**
   * A poll answers with the network's next rows above the cursor, at most `limit` and in order; more are left
   * exactly if it says so, and they are the rows above the cursor that it returns.
   */
  lemma PollMeans(t: seq<Event>, network: string, afterSeq: nat, limit: nat)
    requires Ordered(t)
    ensures
      var r := EventsSince(t, OnNetwork(network), afterSeq, limit);
      && Ordered(r.data) && |r.data| <= limit && (r.hasMore ==> |r.data| == limit)
      && r.nextCursor == (if r.data == [] then afterSeq else r.data[|r.data| - 1].seqNo)
      && (forall e :: IsAbove(t, network, afterSeq, e) <==> e in r.data || IsAbove(t, network, r.nextCursor, e))
      && (r.hasMore <==> exists e :: IsAbove(t, network, r.nextCursor, e))
  {
    var rows := Rows(t, OnNetwork(network), Above(afterSeq));
    var r := EventsSince(t, OnNetwork(network), afterSeq, limit);
    NetworkRows(t, network, afterSeq);
    NetworkRows(t, network, r.nextCursor);
    CutApart(rows, |r.data|);
    if r.data != [] { NextPage(t, OnNetwork(network), afterSeq, limit); }
    hide Rows, OnNetwork, IsAbove, Ordered;
    var rest := rows[|r.data|..];
    assert r.data == rows[..|r.data|] && rest == Rows(t, OnNetwork(network), Above(r.nextCursor));
    if r.hasMore { assert rest[0] in rest; }
  }

  /** A consumer polls from cursor to cursor; each poll meets the table as it is by then. */
  datatype Poll = Poll(table: seq<Event>, limit: nat)

  ghost predicate Growing(t0: seq<Event>, polls: seq<Poll>) {
    && (polls != [] ==> t0 <= polls[0].table && Ordered(polls[0].table))
    && forall i :: 0 < i < |polls| ==> polls[i - 1].table <= polls[i].table && Ordered(polls[i].table)
  }

  function Consumed(polls: seq<Poll>, f: Filter, cursor: nat): (r: (seq<Event>, nat))
    decreases |polls|
  {
    if polls == [] then ([], cursor) else
      var since := EventsSince(polls[0].table, f, cursor, polls[0].limit);
      var rest := Consumed(polls[1..], f, since.nextCursor);
      (since.data + rest.0, rest.1)
  }

  /** The matching rows a consumer has not seen yet when its cursor stands at `c`, and those it has. */
  ghost predicate Caught(t: seq<Event>, f: Filter, from: nat, seen: seq<Event>, c: nat) {
    from <= c && seen + Rows(t, f, Above(c)) == Rows(t, f, Above(from))
  }

  lemma OnePoll(t: seq<Event>, f: Filter, cursor: nat, limit: nat)
    requires Ordered(t)
    ensures
      var since := EventsSince(t, f, cursor, limit);
      Caught(t, f, cursor, since.data, since.nextCursor)
  {
    if Take(Rows(t, f, Above(cursor)), limit) != [] {
      NextPage(t, f, cursor, limit);
    }
  }

  /** Appended rows land behind the cursor's table, so what was seen stays seen. */
  lemma CaughtGrows(t: seq<Event>, u: seq<Event>, f: Filter, from: nat, seen: seq<Event>, c: nat)
    requires t <= u && Ordered(u) && Caught(t, f, from, seen, c)
    requires seen == [] ==> c == from
    requires seen != [] ==> exists e :: e in t && e.seqNo == c
    ensures Caught(u, f, from, seen, c)
  {
    hide Matches, Keep;
    var more := u[|t|..];
    assert u == t + more;
    RowsConcat(t, more, f, Above(c));
    RowsConcat(t, more, f, Above(from));
    if seen != [] {
      RowsRebound(more, f, Above(c), Above(from));
    }
    hide Rows;
    var x, y, z := Rows(t, f, Above(c)), Rows(more, f, Above(c)), Rows(more, f, Above(from));
    if seen != [] { assert seen + (x + y) == (seen + x) + y; }
  }

  /**
   * However the polls are interleaved with appends, and whatever their limits: what has been consumed
   * followed by what is still above the cursor is what lies above the first cursor. Nothing is skipped or repeated.
   */
  lemma {:induction false} PollingConserves(t0: seq<Event>, polls: seq<Poll>, f: Filter, cursor: nat)
    requires Ordered(t0) && Growing(t0, polls)
    ensures
      var last := if polls == [] then t0 else polls[|polls| - 1].table;
      var consumed := Consumed(polls, f, cursor);
      Caught(last, f, cursor, consumed.0, consumed.1)
    decreases |polls|
  {
    if polls != [] {
      var t, last, rest := polls[0].table, polls[|polls| - 1].table, polls[1..];
      LaterPolls(t0, polls);
      var since := EventsSince(t, f, cursor, polls[0].limit);
      hide Rows, EventsSince, Caught, Ordered, Growing;
      PollCounts(t, last, f, cursor, polls[0].limit);
      PollingConserves(t, rest, f, since.nextCursor);
      var (data, c) := Consumed(rest, f, since.nextCursor);
      CaughtChain(last, f, cursor, since.data, since.nextCursor, data, c);
    } else {
      assert [] + Rows(t0, f, Above(cursor)) == Rows(t0, f, Above(cursor));
    }
  }

  lemma LaterPolls(t0: seq<Event>, polls: seq<Poll>)
    requires polls != [] && Growing(t0, polls)
    ensures Ordered(polls[0].table) && Growing(polls[0].table, polls[1..])
    ensures Ordered(polls[|polls| - 1].table) && polls[0].table <= polls[|polls| - 1].table
  {
    hide Ordered;
    PrefixChain(polls, 0);
    if |polls| > 1 { assert polls[0].table <= polls[1].table; }
  }

  lemma PollCounts(t: seq<Event>, u: seq<Event>, f: Filter, cursor: nat, limit: nat)
    requires t <= u && Ordered(t) && Ordered(u)
    ensures
      var since := EventsSince(t, f, cursor, limit);
      Caught(u, f, cursor, since.data, since.nextCursor)
  {
    var since := EventsSince(t, f, cursor, limit);
    OnePoll(t, f, cursor, limit);
    if since.data != [] {
      RowsMember(t, f, Above(cursor), since.data[|since.data| - 1]);
    }
    CaughtGrows(t, u, f, cursor, since.data, since.nextCursor);
  }

  lemma CaughtChain(t: seq<Event>, f: Filter, from: nat, seen: seq<Event>, c: nat, more: seq<Event>, d: nat)
    requires Caught(t, f, from, seen, c) && Caught(t, f, c, more, d)
    ensures Caught(t, f, from, seen + more, d)
  {
    hide Rows;
    assert seen + (more + Rows(t, f, Above(d))) == seen + more + Rows(t, f, Above(d));
  }

  lemma {:induction false} PrefixChain(polls: seq<Poll>, i: nat)
    requires i < |polls|
    requires forall j :: 0 < j < |polls| ==> polls[j - 1].table <= polls[j].table
    ensures polls[i].table <= polls[|polls| - 1].table
    decreases |polls| - i
  {
    if i < |polls| - 1 {
      PrefixChain(polls, i + 1);
      assert polls[i + 1 - 1].table <= polls[i + 1].table;
    }
  }
}
