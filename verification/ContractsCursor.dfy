/**
 * Keyset pages over the contracts (`listContractsCursor` and `listContracts` in indexer/src/db.js), and the
 * walk of the verification batch over all of them. The cursor holds the creation time as a JavaScript
 * date, which has whole milliseconds, while the column it is compared with has microseconds.
 */
module ContractsCursor {
  import opened Wrappers
  import opened Basics

  /** `created` counts microseconds; `id` stands for the place of the text among all IDs. */
  datatype Contract = Contract(created: nat, id: int)

  datatype Cursor = Cursor(created: nat, id: int)

  datatype Page = Page(data: seq<Contract>, next: Option<Cursor>)

  function Shown(created: nat): (r: nat)
    ensures r <= created
  {
    created - created % 1000
  }

  function CursorOf(c: Contract): Cursor {
    Cursor(Shown(c.created), c.id)
  }

  /** (created_at, id) < cursor */
  predicate Behind(c: Contract, cursor: Cursor) {
    c.created < cursor.created || (c.created == cursor.created && c.id < cursor.id)
  }

  predicate Older(c: Contract, d: Contract) {
    c.created < d.created || (c.created == d.created && c.id < d.id)
  }

  /** ORDER BY created_at DESC, id DESC */
  predicate NewestFirst(t: seq<Contract>) {
    forall i, j :: 0 <= i < j < |t| ==> Older(t[j], t[i])
  }

  function Select(t: seq<Contract>, after: Option<Cursor>): (r: seq<Contract>)
    ensures |r| <= |t|
  {
    if t == [] then []
    else if after.None? || Behind(t[0], after.value) then [t[0]] + Select(t[1..], after)
    else Select(t[1..], after)
  }

  method ListContractsCursor(t: seq<Contract>, after: Option<Cursor>, limit: nat) returns (page: Page)
    ensures
      var selected := Select(t, after);
      && page.data == Take(selected, limit)
      && page.next == if 0 < limit < |selected| then Some(CursorOf(selected[limit - 1])) else None
  {
    var rows := Take(Select(t, after), limit + 1);
    var hasMore := |rows| > limit;
    var data := if hasMore then rows[..limit] else rows;
    page := Page(data, if hasMore && data != [] then Some(CursorOf(data[|data| - 1])) else None);
  }

  lemma {:induction false} SelectMember(t: seq<Contract>, after: Option<Cursor>, c: Contract)
    ensures c in Select(t, after) <==> c in t && (after.None? || Behind(c, after.value))
  {
    if t != [] {
      SelectMember(t[1..], after, c);
      assert t == [t[0]] + t[1..];
    }
  }

  lemma SuffixIsNewestFirst(t: seq<Contract>, after: Option<Cursor>)
    requires NewestFirst(t)
    ensures NewestFirst(Select(t, after))
  {
    if after.None? {
      SelectAll(t);
    } else {
      var k := SelectIsSuffix(t, after.value);
    }
    hide Select, Older, Behind;
  }

  /** A page is cut from the contracts that come after the cursor by creation time, and by ID where the times are equal. */
  lemma SelectMeans(t: seq<Contract>, after: Option<Cursor>, c: Contract)
    requires NewestFirst(t)
    ensures NewestFirst(Select(t, after))
    ensures c in Select(t, after) <==>
      && c in t
      && (after == None || c.created < after.value.created || (c.created == after.value.created && c.id < after.value.id))
  {
    SelectMember(t, after, c);
    SuffixIsNewestFirst(t, after);
    hide Select, NewestFirst;
  }

  /** What a cursor keeps of a contract: its ID, and the last whole millisecond before its time. */
  lemma CursorKeeps(c: Contract)
    ensures CursorOf(c).id == c.id && CursorOf(c).created == c.created / 1000 * 1000
  {
  }

  // ---------- walks ----------

  /** What a walk sees of the rows that are left to it. */
  function Walk(rows: seq<Contract>, limit: nat): seq<Contract>
    requires limit > 0
    decreases |rows|
  {
    if |rows| <= limit then rows
    else rows[..limit] + Walk(Select(rows[limit..], Some(CursorOf(rows[limit - 1]))), limit)
  }

  /** In a sorted table a cursor selects a suffix. */
  lemma {:induction false} SelectIsSuffix(t: seq<Contract>, cursor: Cursor) returns (k: nat)
    requires NewestFirst(t)
    ensures k <= |t| && Select(t, Some(cursor)) == t[k..]
    ensures forall i :: 0 <= i < |t| ==> (Behind(t[i], cursor) <==> k <= i)
  {
    if t == [] {
      k := 0;
    } else {
      k := SelectIsSuffix(t[1..], cursor);
      if Behind(t[0], cursor) {
        assert k == 0 by {
          if |t| > 1 { assert Older(t[1], t[0]) && Behind(t[1..][0], cursor); }
        }
      } else {
        k := k + 1;
      }
      assert forall i :: 0 < i < |t| ==> t[i] == t[1..][i - 1];
    }
  }

  lemma {:induction false} SelectAll(t: seq<Contract>)
    ensures Select(t, None) == t
  {
    if t != [] { SelectAll(t[1..]); }
  }

  lemma {:induction false} SelectNone(t: seq<Contract>, cursor: Cursor)
    requires forall i :: 0 <= i < |t| ==> !Behind(t[i], cursor)
    ensures Select(t, Some(cursor)) == []
  {
    if t != [] { SelectNone(t[1..], cursor); }
  }

  /** Nothing before the end of a page lies behind its cursor. */
  lemma SelectFromPageEnd(t: seq<Contract>, k: nat)
    requires NewestFirst(t) && 0 < k <= |t|
    ensures Select(t, Some(CursorOf(t[k - 1]))) == Select(t[k..], Some(CursorOf(t[k - 1])))
  {
    var cursor := CursorOf(t[k - 1]);
    var i := SelectIsSuffix(t, cursor);
    var j := SelectIsSuffix(t[k..], cursor);
    assert !Behind(t[k - 1], cursor);
    hide Select, Behind, CursorOf;
    assert i >= k;
    assert j < |t| - k ==> Behind(t[k..][j], cursor);
    assert i < |t| ==> Behind(t[k..][i - k], cursor);
    assert t[k..][j..] == t[k + j..];
  }

  /** The loop of `runVerificationBatch`: follows the cursors to the end. */
  method VisitContracts(t: seq<Contract>, batchSize: nat) returns (visited: seq<Contract>)
    requires NewestFirst(t) && batchSize > 0
    ensures visited == Walk(t, batchSize)
  {
    hide Behind, CursorOf, NewestFirst, Walk, Select, Take;
    var after := None;
    visited := [];
    SelectAll(t);
    ghost var left := t;
    while true
      invariant IsSuffix(left, t) && Select(t, after) == left
      invariant visited + Walk(left, batchSize) == Walk(t, batchSize)
      decreases |left|
    {
      var page := ListContractsCursor(t, after, batchSize);
      WalkUnfolds(left, batchSize);
      if page.data == [] { break; }
      visited := visited + page.data;
      if page.next.None? { break; }
      left := NextSelection(t, left, batchSize);
      after := page.next;
    }
  }

  predicate IsSuffix(left: seq<Contract>, t: seq<Contract>) {
    |left| <= |t| && left == t[|t| - |left|..]
  }

  lemma WalkUnfolds(left: seq<Contract>, limit: nat)
    requires limit > 0
    ensures Take(left, limit) == [] <==> left == []
    ensures |left| <= limit ==> Walk(left, limit) == Take(left, limit)
    ensures |left| > limit ==>
              Walk(left, limit) == Take(left, limit) + Walk(Select(left[limit..], Some(CursorOf(left[limit - 1]))), limit)
  {
    hide Select, CursorOf;
  }

  lemma NextSelection(t: seq<Contract>, left: seq<Contract>, limit: nat) returns (next: seq<Contract>)
    requires NewestFirst(t) && IsSuffix(left, t) && 0 < limit < |left|
    ensures |next| < |left| && IsSuffix(next, t)
    ensures next == Select(t, Some(CursorOf(left[limit - 1]))) == Select(left[limit..], Some(CursorOf(left[limit - 1])))
  {
    var k := |t| - |left| + limit;
    var cursor := CursorOf(t[k - 1]);
    SelectFromPageEnd(t, k);
    var i := SelectIsSuffix(t[k..], cursor);
    next := t[k..][i..];
    hide Select, CursorOf, NewestFirst, Behind;
    assert left[limit..] == t[k..];
    assert next == t[k + i..];
  }

  // ---------- what a walk misses ----------

  /** At the end of every page the next row lies behind the cursor that was issued there. */
  predicate CutsFit(rows: seq<Contract>, limit: nat)
    requires limit > 0
    decreases |rows|
  {
    |rows| <= limit || (Behind(rows[limit], CursorOf(rows[limit - 1])) && CutsFit(rows[limit..], limit))
  }

  lemma {:induction false} WalkLength(rows: seq<Contract>, limit: nat)
    requires limit > 0
    ensures |Walk(rows, limit)| <= |rows|
    decreases |rows|
  {
    if |rows| > limit {
      WalkLength(Select(rows[limit..], Some(CursorOf(rows[limit - 1]))), limit);
    }
  }

  /** A walk sees every contract exactly if all its cuts fit. */
  lemma {:induction false} WalkIsComplete(rows: seq<Contract>, limit: nat)
    requires NewestFirst(rows) && limit > 0
    ensures Walk(rows, limit) == rows <==> CutsFit(rows, limit)
    decreases |rows|
  {
    if |rows| > limit {
      var rest, cursor := rows[limit..], CursorOf(rows[limit - 1]);
      var k := SelectIsSuffix(rest, cursor);
      assert rest[0] == rows[limit];
      WalkIsComplete(rest, limit);
      WalkLength(rest[k..], limit);
      hide Select, Behind, CursorOf, Older;
      assert rows == rows[..limit] + rest;
      assert Walk(rows, limit)[limit..] == Walk(rest[k..], limit);
      if k == 0 { assert rest[0..] == rest; }
    }
  }

  /** What it sees it sees once, newest first, however its cuts fall. */
  lemma {:induction false} WalkKeepsOrder(rows: seq<Contract>, limit: nat)
    requires NewestFirst(rows) && limit > 0
    ensures NewestFirst(Walk(rows, limit))
    ensures forall c :: c in Walk(rows, limit) ==> c in rows
    decreases |rows|
  {
    if |rows| > limit {
      var rest := rows[limit..];
      var k := SelectIsSuffix(rest, CursorOf(rows[limit - 1]));
      WalkKeepsOrder(rest[k..], limit);
      hide Select, Walk, Older, CursorOf;
      var seen := Walk(rest[k..], limit);
      forall c | c in seen
        ensures c in rest
      {
        assert c in rest[k..];
      }
      JoinKeepsOrder(rows, limit, seen);
    }
  }

  lemma JoinKeepsOrder(rows: seq<Contract>, n: nat, seen: seq<Contract>)
    requires NewestFirst(rows) && n <= |rows| && NewestFirst(seen) && forall c :: c in seen ==> c in rows[n..]
    ensures NewestFirst(rows[..n] + seen)
  {
    hide Older;
    forall i, j | 0 <= i < n && 0 <= j < |seen|
      ensures Older(seen[j], rows[i])
    {
      assert seen[j] in rows[n..];
    }
  }

  /** Times in whole milliseconds make every cut fit. */
  lemma {:induction false} WholeMillisecondsFit(rows: seq<Contract>, limit: nat)
    requires NewestFirst(rows) && limit > 0 && forall c :: c in rows ==> c.created % 1000 == 0
    ensures CutsFit(rows, limit)
    decreases |rows|
  {
    if |rows| > limit {
      WholeMillisecondsFit(rows[limit..], limit);
      assert Older(rows[limit], rows[limit - 1]);
    }
  }

  lemma InOrderOnce(rows: seq<Contract>, k: nat, c: Contract)
    requires NewestFirst(rows) && k < |rows| && c in rows[..k] + rows[k + 1..]
    ensures c != rows[k]
  {
  }

  /** A contract that begins a page and was registered in the millisecond of the one before it is never seen. */
  lemma SameMillisecondIsLost(rows: seq<Contract>, limit: nat)
    requires NewestFirst(rows) && 0 < limit < |rows|
    requires rows[limit].created > Shown(rows[limit - 1].created)
    ensures rows[limit] !in Walk(rows, limit)
  {
    var cursor := CursorOf(rows[limit - 1]);
    var rest := rows[limit..];
    var k := SelectIsSuffix(rest, cursor);
    assert rest[0] == rows[limit] && !Behind(rest[0], cursor) && k > 0;
    WalkKeepsOrder(rest[k..], limit);
    var seen := Walk(rest[k..], limit);
    assert Walk(rows, limit) == rows[..limit] + seen;
    hide Walk, Select, Behind, CursorOf, NewestFirst, Older;
    forall c | c in rows[..limit] + seen
      ensures c != rows[limit]
    {
      if c in seen { assert c in rest[k..] && rest[k..] == rows[limit + 1..][k - 1..]; }
      InOrderOnce(rows, limit, c);
    }
  }

  /** As with two contracts registered half a millisecond apart, one to a page. */
  lemma TwoInOneMillisecond(id: int, other: int)
    ensures
      var rows := [Contract(1_000_900, id), Contract(1_000_400, other)];
      NewestFirst(rows) && Walk(rows, 1) == [rows[0]]
  {
    var rows := [Contract(1_000_900, id), Contract(1_000_400, other)];
    assert Select(rows[1..], Some(CursorOf(rows[0]))) == [] by {
      SelectNone(rows[1..], CursorOf(rows[0]));
    }
  }

  // ---------- one step, in either direction ----------

  /** (created_at, id) > cursor, for the pages before a cursor in `listContracts`. */
  predicate Ahead(c: Contract, cursor: Cursor) {
    c.created > cursor.created || (c.created == cursor.created && c.id > cursor.id)
  }

  function SelectNewer(t: seq<Contract>, cursor: Cursor): seq<Contract> {
    if t == [] then [] else (if Ahead(t[0], cursor) then [t[0]] else []) + SelectNewer(t[1..], cursor)
  }

  /** Behind a cursor lie exactly the rows after its own, if and only if the next of them does. */
  lemma ForwardStepIsExact(t: seq<Contract>, k: nat)
    requires NewestFirst(t) && k < |t|
    ensures Select(t, Some(CursorOf(t[k]))) == t[k + 1..] <==> k + 1 == |t| || Behind(t[k + 1], CursorOf(t[k]))
  {
    var i := SelectIsSuffix(t, CursorOf(t[k]));
    assert !Behind(t[k], CursorOf(t[k]));
    hide Select, Behind, CursorOf, Older;
    assert i > k && |t[i..]| == |t| - i;
  }

  /** Ahead of it lie exactly the rows before its own, if and only if its time is in whole milliseconds. */
  lemma BackwardStepIsExact(t: seq<Contract>, k: nat)
    requires NewestFirst(t) && k < |t|
    ensures SelectNewer(t, CursorOf(t[k])) == t[..k] <==> t[k].created % 1000 == 0
  {
    var cursor := CursorOf(t[k]);
    if t[k].created % 1000 == 0 {
      forall i | 0 <= i < |t|
        ensures Ahead(t[i], cursor) <==> i < k
      {
        if i < k { assert Older(t[k], t[i]); } else if i > k { assert Older(t[i], t[k]); }
      }
      NewerIsPrefix(t, cursor, k);
    } else {
      NewerMember(t, cursor, t[k]);
      assert forall i :: 0 <= i < k ==> Older(t[k], t[i]);
      assert t[k] !in t[..k];
    }
  }

  lemma {:induction false} NewerMember(t: seq<Contract>, cursor: Cursor, c: Contract)
    ensures c in SelectNewer(t, cursor) <==> c in t && Ahead(c, cursor)
  {
    if t != [] {
      NewerMember(t[1..], cursor, c);
      assert t == [t[0]] + t[1..];
    }
  }

  lemma {:induction false} NewerIsPrefix(t: seq<Contract>, cursor: Cursor, k: nat)
    requires k <= |t| && forall i :: 0 <= i < |t| ==> (Ahead(t[i], cursor) <==> i < k)
    ensures SelectNewer(t, cursor) == t[..k]
  {
    hide Ahead;
    if t != [] {
      var j := if k == 0 then 0 else k - 1;
      assert forall i :: 0 <= i < |t| - 1 ==> t[1..][i] == t[i + 1];
      NewerIsPrefix(t[1..], cursor, j);
      if k > 0 { assert t[..k] == [t[0]] + t[1..][..j]; }
    }
  }
}
