/**
 * What a client sees who follows the cursors of `getEventsCursor`: whole forward walks over a
 * growing log, and steps back and forth on an unchanged one.
 */
module EventWalks {
  import opened Wrappers
  import opened Events
  import opened Cursor
  import opened EventsCursor

  // ---------- one page, cut out of the selected rows ----------

  lemma ReverseSplit(rows: seq<Event>, m: nat)
    requires m <= |rows|
    ensures Reverse(rows[m..]) + Reverse(rows[..m]) == Reverse(rows)
  {
    assert rows == rows[..m] + rows[m..];
    ReverseConcat(rows[..m], rows[m..]);
  }

  lemma ForwardPage<S>(t: seq<Event>, f: Filter, s: Start, n: nat, fh: string, sign: Payload -> S)
    requires n > 0 && Ordered(t) && !s.backward
    ensures
      var rows := Rows(t, f, BoundOf(s));
      var page := PageAt(t, f, s, n, fh, sign);
      && (|rows| <= n ==> page.nextCursor.None? && page.data == Reverse(rows))
      && (|rows| > n ==>
            var last := rows[|rows| - n];
            && page.nextCursor == Some(Encode(last.seqNo, fh, sign, Forward))
            && page.data + Reverse(Rows(t, f, Below(last.seqNo))) == Reverse(rows)
            && |page.data| == n)
  {
    hide Rows;
    var rows := Rows(t, f, BoundOf(s));
    if |rows| > n {
      var m := |rows| - n;
      assert PageAt(t, f, s, n, fh, sign).data == Reverse(rows[m..]);
      ReverseLast(rows[m..]);
      RowsSplit(t, f, BoundOf(s), m);
      ReverseSplit(rows, m);
      hide Reverse;
    } else {
      assert rows[0..] == rows;
    }
  }

  lemma ReverseLast(rows: seq<Event>)
    requires rows != []
    ensures Reverse(rows)[|rows| - 1] == rows[0]
  {
  }

  // ---------- walking forward while rows are inserted ----------

  /** One request of a walk: the table it meets and the limit it asks for. */
  datatype Visit = Visit(table: seq<Event>, limit: int)

  /** The log only grows at its end, where the next serial numbers are. */
  ghost predicate GrowsFrom(t0: seq<Event>, visits: seq<Visit>) {
    forall i :: 0 <= i < |visits| ==> t0 <= visits[i].table && Ordered(visits[i].table)
  }

  datatype Walked<S> = Walked(data: seq<Event>, next: Option<Token<S>>)

  /** Follows `next_cursor` from page to page; `next` is what is left to follow. */
  function Walk<S(==)>(visits: seq<Visit>, f: Filter, token: Option<Token<S>>, fh: string, sign: Payload -> S): Walked<S>
    decreases |visits|
  {
    if visits == [] then Walked([], token) else
      var q := if token.Some? then AfterRequest(token.value, visits[0].limit) else FirstRequest(visits[0].limit);
      match PageFor(visits[0].table, f, q, fh, sign)
      case Err(_) => Walked([], token)
      case Ok(page) =>
        if page.nextCursor.None? then Walked(page.data, None) else
          var rest := Walk(visits[1..], f, page.nextCursor, fh, sign);
          Walked(page.data + rest.data, rest.next)
  }

  lemma StableBelow(t0: seq<Event>, t: seq<Event>, f: Filter, e: Event)
    requires t0 <= t && Ordered(t) && e in t0
    ensures Rows(t, f, Below(e.seqNo)) == Rows(t0, f, Below(e.seqNo))
  {
    assert t == t0 + t[|t0|..];
    RowsConcat(t0, t[|t0|..], f, Below(e.seqNo));
    RowsNone(t[|t0|..], f, Below(e.seqNo));
  }

  /** The walk has handed out the newest rows of `remaining`, at least one per visit until it is done. */
  ghost predicate Progress<S>(w: Walked<S>, remaining: seq<Event>, visits: nat) {
    if w.next.None? then w.data == remaining
    else visits <= |w.data| <= |remaining| && w.data == remaining[..|w.data|]
  }

  lemma ProgressStep<S>(data: seq<Event>, older: seq<Event>, w: Walked<S>, visits: nat)
    requires Progress(w, older, visits) && data != []
    ensures Progress(Walked(data + w.data, w.next), data + older, visits + 1)
  {
  }

  lemma ProgressEnd<S>(remaining: seq<Event>, visits: nat, w: Walked<S>)
    ensures w == Walked(remaining, None) ==> Progress(w, remaining, visits)
  {
  }

  /** Where the request after row `e`, or the first request, starts. */
  function StartAfter(e: Option<Event>): Start {
    if e.Some? then Start(Some(e.value.seqNo as int), false, true) else Start(None, false, false)
  }

  function TokenAfter<S>(e: Option<Event>, fh: string, sign: Payload -> S): Option<Token<S>> {
    if e.Some? then Some(Encode(e.value.seqNo, fh, sign, Forward)) else None
  }

  lemma WalkUnfolds<S>(visits: seq<Visit>, f: Filter, e: Option<Event>, fh: string, sign: Payload -> S)
    requires visits != []
    ensures
      var w := Walk(visits, f, TokenAfter(e, fh, sign), fh, sign);
      var page := PageAt(visits[0].table, f, StartAfter(e), SafeLimit(visits[0].limit), fh, sign);
      if page.nextCursor.None? then w == Walked(page.data, None) else
        var rest := Walk(visits[1..], f, page.nextCursor, fh, sign);
        w == Walked(page.data + rest.data, rest.next)
  {
    hide PageAt, SafeLimit;
  }

  /** One visit hands out the newest remaining rows and leaves off at the oldest of them. */
  lemma WalkVisit<S>(t0: seq<Event>, visits: seq<Visit>, f: Filter, e: Option<Event>, fh: string, sign: Payload -> S)
    returns (data: seq<Event>, last: Option<Event>)
    requires visits != [] && t0 <= visits[0].table && Ordered(t0) && Ordered(visits[0].table)
    requires if e.Some? then e.value in t0 else visits[0].table == t0
    ensures
      var w := Walk(visits, f, TokenAfter(e, fh, sign), fh, sign);
      var remaining := Reverse(Rows(t0, f, BoundOf(StartAfter(e))));
      if last.None? then w == Walked(remaining, None) else
        var rest := Walk(visits[1..], f, TokenAfter(last, fh, sign), fh, sign);
        && last.value in t0 && data != []
        && w == Walked(data + rest.data, rest.next)
        && data + Reverse(Rows(t0, f, BoundOf(StartAfter(last)))) == remaining
  {
    hide Walk, PageAt, Rows, Reverse, Encode;
    var t, n, s := visits[0].table, SafeLimit(visits[0].limit), StartAfter(e);
    if e.Some? { StableBelow(t0, t, f, e.value); }
    var rows := Rows(t0, f, BoundOf(s));
    ForwardPage(t, f, s, n, fh, sign);
    WalkUnfolds(visits, f, e, fh, sign);
    data, last := PageAt(t, f, s, n, fh, sign).data, None;
    if |rows| > n {
      last := Some(rows[|rows| - n]);
      RowsMember(t0, f, BoundOf(s), last.value);
      StableBelow(t0, t, f, last.value);
    }
  }

  lemma {:induction false} WalkFrom<S>(
      t0: seq<Event>, visits: seq<Visit>, f: Filter, e: Option<Event>, fh: string, sign: Payload -> S)
    requires GrowsFrom(t0, visits) && Ordered(t0)
    requires if e.Some? then e.value in t0 else visits != [] && visits[0].table == t0
    ensures Progress(Walk(visits, f, TokenAfter(e, fh, sign), fh, sign),
                     Reverse(Rows(t0, f, BoundOf(StartAfter(e)))), |visits|)
    decreases |visits|
  {
    if visits != [] {
      assert GrowsFrom(t0, visits[1..]);
      hide *;
      var data, last := WalkVisit(t0, visits, f, e, fh, sign);
      if last.Some? {
        WalkFrom(t0, visits[1..], f, last, fh, sign);
        ProgressStep(data, Reverse(Rows(t0, f, BoundOf(StartAfter(last)))),
                     Walk(visits[1..], f, TokenAfter(last, fh, sign), fh, sign), |visits| - 1);
      } else {
        ProgressEnd(Reverse(Rows(t0, f, BoundOf(StartAfter(e)))), |visits|,
                    Walk(visits, f, TokenAfter(e, fh, sign), fh, sign));
      }
    }
  }

  /**
   * A walk that starts on the log `t0` and follows `next_cursor`, whatever is appended meanwhile and
   * whatever limits are asked for, returns the matching rows of `t0`, newest first, each once; it
   * ends, after no more visits than there are such rows plus one.
   */
  lemma ForwardWalk<S>(t0: seq<Event>, visits: seq<Visit>, f: Filter, fh: string, sign: Payload -> S)
    requires visits != [] && visits[0].table == t0 && GrowsFrom(t0, visits)
    ensures
      var w := Walk(visits, f, None, fh, sign);
      var all := Reverse(Rows(t0, f, Unbounded));
      && w.data <= all
      && (w.next.None? ==> w.data == all)
      && (|visits| > |all| ==> w.next.None?)
  {
    WalkFrom(t0, visits, f, None, fh, sign);
  }

  // ---------- stepping back and forth on an unchanged log ----------

  ghost predicate IssuedToken<S>(t: seq<Event>, f: Filter, token: Token<S>, fh: string, sign: Payload -> S) {
    exists e, d :: e in Rows(t, f, Unbounded) && token == Encode(e.seqNo, fh, sign, d)
  }

  lemma PageRows<S>(t: seq<Event>, f: Filter, s: Start, n: nat, fh: string, sign: Payload -> S)
    ensures forall e :: e in PageAt(t, f, s, n, fh, sign).data ==> e in Rows(t, f, BoundOf(s))
  {
    hide Rows, BoundOf, Encode;
    var rows := Rows(t, f, BoundOf(s));
    var k := if n < |rows| then n else |rows|;
    ReverseMember(rows[..k]);
    ReverseMember(rows[|rows| - k..]);
    hide Reverse;
  }

  lemma PageCursors<S>(t: seq<Event>, f: Filter, s: Start, n: nat, fh: string, sign: Payload -> S)
    ensures
      var page := PageAt(t, f, s, n, fh, sign);
      if page.data == [] then page.startCursor == page.endCursor == None else
        && page.startCursor == Some(Encode(page.data[0].seqNo, fh, sign, Backward))
        && page.endCursor == Some(Encode(page.data[|page.data| - 1].seqNo, fh, sign, Forward))
  {
    hide Rows, BoundOf, Encode, Reverse;
  }

  /** Every cursor on every page points at a row of the log that matches the filter. */
  lemma PagesIssueRows<S>(t: seq<Event>, f: Filter, q: Request<S>, fh: string, sign: Payload -> S)
    requires PageFor(t, f, q, fh, sign).Ok?
    ensures
      var page := PageFor(t, f, q, fh, sign).value;
      && (page.data != [] <==> page.startCursor.Some? && page.endCursor.Some?)
      && (page.startCursor.Some? ==> IssuedToken(t, f, page.startCursor.value, fh, sign))
      && (page.endCursor.Some? ==> IssuedToken(t, f, page.endCursor.value, fh, sign))
  {
    var s := StartOf(q, fh, sign).value;
    var page := PageAt(t, f, s, SafeLimit(q.limit), fh, sign);
    PageCursors(t, f, s, SafeLimit(q.limit), fh, sign);
    PageRows(t, f, s, SafeLimit(q.limit), fh, sign);
    hide StartOf, Rows, SafeLimit, Encode, IssuedToken, PageAt, BoundOf;
    if page.data != [] {
      PointsAtRow(t, f, BoundOf(s), page.data[0], Backward, fh, sign);
      PointsAtRow(t, f, BoundOf(s), page.data[|page.data| - 1], Forward, fh, sign);
    }
  }

  lemma PointsAtRow<S>(t: seq<Event>, f: Filter, b: Bound, e: Event, d: Direction, fh: string, sign: Payload -> S)
    requires e in Rows(t, f, b)
    ensures IssuedToken(t, f, Encode(e.seqNo, fh, sign, d), fh, sign)
  {
    RowsMember(t, f, b, e);
    RowsMember(t, f, Unbounded, e);
  }

  /** The start of a first page, or of a page next to a matching row. */
  ghost predicate IssuedStart(t: seq<Event>, f: Filter, s: Start, p: nat) {
    var rows := Rows(t, f, Unbounded);
    if p < |rows| then s.anchor == Some(rows[p].seqNo as int) && s.hasAnchor
    else p == |rows| && s == Start(None, false, false)
  }

  function SegmentOf(size: nat, p: nat, backward: bool, n: nat): (s: (nat, nat))
    requires p <= size && (backward ==> p < size)
    ensures s.0 <= s.1 <= size
  {
    if backward then (p + 1, if p + 1 + n < size then p + 1 + n else size)
    else (if n < p then p - n else 0, p)
  }

  /** The page made of the ascending rows `lo..hi` of a selection, with the flags that are true of it. */
  function SegmentPage<S>(rows: seq<Event>, lo: nat, hi: nat, fh: string, sign: Payload -> S): Page<S>
    requires lo <= hi <= |rows|
  {
    Envelope(Reverse(rows[lo..hi]), lo > 0, hi < |rows|, fh, sign)
  }

  lemma IssuedPage<S>(t: seq<Event>, f: Filter, s: Start, p: nat, n: nat, fh: string, sign: Payload -> S)
    requires Ordered(t) && IssuedStart(t, f, s, p) && n > 0
    ensures
      var rows := Rows(t, f, Unbounded);
      var seg := SegmentOf(|rows|, p, s.backward, n);
      PageAt(t, f, s, n, fh, sign) == SegmentPage(rows, seg.0, seg.1, fh, sign)
  {
    var rows := Rows(t, f, Unbounded);
    assert !s.backward ==> (s.hasAnchor <==> p < |rows|);
    RowsBeyond(t, f, s, p);
    hide *;
    if s.backward {
      NewerSide(t, f, s, rows, p, n, fh, sign);
    } else {
      OlderSide(t, f, s, rows, p, n, fh, sign);
    }
  }

  lemma NewerSide<S>(t: seq<Event>, f: Filter, s: Start, rows: seq<Event>, p: nat, n: nat, fh: string, sign: Payload -> S)
    requires s.backward && p < |rows| && Rows(t, f, BoundOf(s)) == rows[p + 1..]
    ensures
      var seg := SegmentOf(|rows|, p, s.backward, n);
      PageAt(t, f, s, n, fh, sign) == SegmentPage(rows, seg.0, seg.1, fh, sign)
  {
    hide Rows, BoundOf, Reverse, Envelope;
    CutFront(rows, p, n);
  }

  lemma OlderSide<S>(t: seq<Event>, f: Filter, s: Start, rows: seq<Event>, p: nat, n: nat, fh: string, sign: Payload -> S)
    requires !s.backward && p <= |rows| && Rows(t, f, BoundOf(s)) == rows[..p]
    requires s.hasAnchor <==> p < |rows|
    ensures
      var seg := SegmentOf(|rows|, p, s.backward, n);
      PageAt(t, f, s, n, fh, sign) == SegmentPage(rows, seg.0, seg.1, fh, sign)
  {
    hide Rows, BoundOf, Reverse, Envelope;
    CutBack(rows, p, n);
  }

  lemma RowsBeyond(t: seq<Event>, f: Filter, s: Start, p: nat)
    requires Ordered(t) && IssuedStart(t, f, s, p)
    ensures
      var rows := Rows(t, f, Unbounded);
      Rows(t, f, BoundOf(s)) == if s.backward then rows[p + 1..] else rows[..p]
  {
    var rows := Rows(t, f, Unbounded);
    if p < |rows| { RowsSplit(t, f, Unbounded, p); }
  }

  lemma CutFront(rows: seq<Event>, p: nat, n: nat)
    requires p < |rows|
    ensures
      var (lo, hi) := SegmentOf(|rows|, p, true, n);
      var newer := rows[p + 1..];
      && newer[..if n < |newer| then n else |newer|] == rows[lo..hi]
      && (|newer| > n <==> hi < |rows|)
  {
  }

  lemma CutBack(rows: seq<Event>, p: nat, n: nat)
    requires p <= |rows|
    ensures
      var (lo, hi) := SegmentOf(|rows|, p, false, n);
      rows[..p][p - (if n < p then n else p)..] == rows[lo..hi]
    ensures rows[..|rows|] == rows
  {
  }

  /** A first request, or one that passes on a cursor of some page of this log. */
  ghost predicate FollowsIssued<S>(t: seq<Event>, f: Filter, q: Request<S>, fh: string, sign: Payload -> S) {
    || q == FirstRequest(q.limit)
    || (q.before.Some? && q == BeforeRequest(q.before.value, q.limit) && IssuedToken(t, f, q.before.value, fh, sign))
    || (q.after.Some? && q.after.value.Opaque? && q == AfterRequest(q.after.value.token, q.limit)
        && IssuedToken(t, f, q.after.value.token, fh, sign))
  }

  lemma FollowedStart<S>(t: seq<Event>, f: Filter, q: Request<S>, fh: string, sign: Payload -> S)
    returns (s: Start, p: nat)
    requires FollowsIssued(t, f, q, fh, sign)
    ensures StartOf(q, fh, sign) == Ok(s) && IssuedStart(t, f, s, p)
    ensures s.backward ==> p < |Rows(t, f, Unbounded)|
  {
    hide Rows;
    var rows := Rows(t, f, Unbounded);
    s := StartOf(q, fh, sign).value;
    p := |rows|;
    if q != FirstRequest(q.limit) {
      var token := if q.before.Some? then q.before.value else q.after.value.token;
      var e, d :| e in rows && token == Encode(e.seqNo, fh, sign, d);
      p :| p < |rows| && rows[p] == e;
    }
  }

  lemma FollowedPage<S>(t: seq<Event>, f: Filter, q: Request<S>, fh: string, sign: Payload -> S)
    returns (s: Start, p: nat)
    requires Ordered(t) && FollowsIssued(t, f, q, fh, sign)
    ensures
      var rows := Rows(t, f, Unbounded);
      && StartOf(q, fh, sign) == Ok(s) && IssuedStart(t, f, s, p)
      && (s.backward ==> p < |rows|)
      && var seg := SegmentOf(|rows|, p, s.backward, SafeLimit(q.limit));
      PageFor(t, f, q, fh, sign) == Ok(SegmentPage(rows, seg.0, seg.1, fh, sign))
  {
    hide StartOf, Rows, SegmentPage, SafeLimit, PageAt, FollowsIssued, SegmentOf;
    s, p := FollowedStart(t, f, q, fh, sign);
    IssuedPage(t, f, s, p, SafeLimit(q.limit), fh, sign);
  }

  predicate OlderThanPage<S>(page: Page<S>, backward: bool, e: Event) {
    if page.data == [] then backward else e.seqNo < page.data[|page.data| - 1].seqNo
  }

  predicate NewerThanPage<S>(page: Page<S>, backward: bool, e: Event) {
    if page.data == [] then !backward else e.seqNo > page.data[0].seqNo
  }

  /** `has_next` and `has_previous` say whether matching rows lie on the older and the newer side of the page. */
  ghost predicate ExactFlags<S>(rows: seq<Event>, page: Page<S>, backward: bool) {
    && (page.hasNext <==> exists e :: e in rows && OlderThanPage(page, backward, e))
    && (page.hasPrevious <==> exists e :: e in rows && NewerThanPage(page, backward, e))
  }

  lemma SegmentFlags<S>(rows: seq<Event>, lo: nat, hi: nat, backward: bool, fh: string, sign: Payload -> S)
    requires Ordered(rows) && lo <= hi <= |rows|
    ensures ExactFlags(rows, SegmentPage(rows, lo, hi, fh, sign), backward) <==> lo < hi || rows == []
  {
    var page := SegmentPage(rows, lo, hi, fh, sign);
    if lo < hi {
      assert page.data[0] == rows[hi - 1] && page.data[|page.data| - 1] == rows[lo];
      if lo > 0 { assert OlderThanPage(page, backward, rows[0]) && rows[0] in rows; }
      if hi < |rows| { assert NewerThanPage(page, backward, rows[hi]) && rows[hi] in rows; }
    } else if rows != [] {
      assert rows[0] in rows;
      assert OlderThanPage(page, backward, rows[0]) || NewerThanPage(page, backward, rows[0]);
    }
  }

  /** The request asks for what lies beyond the newest row, or beyond the oldest one. */
  predicate BeyondTheEnd(rows: seq<Event>, s: Start) {
    s.anchor.Some? && rows != []
    && s.anchor.value == (if s.backward then rows[|rows| - 1].seqNo else rows[0].seqNo) as int
  }

  lemma EmptyBeyondTheEnd(t: seq<Event>, f: Filter, s: Start, p: nat, n: nat)
    requires Ordered(t) && IssuedStart(t, f, s, p) && n > 0
    requires s.backward ==> p < |Rows(t, f, Unbounded)|
    ensures
      var rows := Rows(t, f, Unbounded);
      var seg := SegmentOf(|rows|, p, s.backward, n);
      seg.0 < seg.1 || rows == [] <==> !BeyondTheEnd(rows, s)
  {
    RowsOrdered(t, f, Unbounded);
    hide Rows;
  }

  /**
   * On every page that issued cursors lead to, the flags are exact if and only if the request does not ask
   * for what lies beyond the last row on its side: that page is empty and denies the rows it has behind it.
   */
  lemma FlagsExactWithinTheLog<S>(t: seq<Event>, f: Filter, q: Request<S>, fh: string, sign: Payload -> S)
    requires Ordered(t) && FollowsIssued(t, f, q, fh, sign)
    ensures PageFor(t, f, q, fh, sign).Ok? && StartOf(q, fh, sign).Ok?
    ensures
      var page := PageFor(t, f, q, fh, sign).value;
      var rows := Rows(t, f, Unbounded);
      var s := StartOf(q, fh, sign).value;
      && (ExactFlags(rows, page, s.backward) <==> !BeyondTheEnd(rows, s))
      && (page.data != [] || rows == [] <==> !BeyondTheEnd(rows, s))
  {
    var rows := Rows(t, f, Unbounded);
    RowsOrdered(t, f, Unbounded);
    var s, p := FollowedPage(t, f, q, fh, sign);
    var (lo, hi) := SegmentOf(|rows|, p, s.backward, SafeLimit(q.limit));
    EmptyBeyondTheEnd(t, f, s, p, SafeLimit(q.limit));
    SegmentFlags(rows, lo, hi, s.backward, fh, sign);
    SegmentIsEmpty(rows, lo, hi, fh, sign);
    hide Rows, StartOf, ExactFlags, PageFor, SafeLimit, Encode, SegmentOf, SegmentPage, BeyondTheEnd;
  }

  lemma PageBefore<S>(t: seq<Event>, f: Filter, lo: nat, hi: nat, limit: int, fh: string, sign: Payload -> S)
    requires Ordered(t) && lo < hi <= |Rows(t, f, Unbounded)|
    ensures
      var rows := Rows(t, f, Unbounded);
      var page := SegmentPage(rows, lo, hi, fh, sign);
      var (lo', hi') := SegmentOf(|rows|, hi - 1, true, SafeLimit(limit));
      && page.startCursor.Some? && lo' == hi
      && PageFor(t, f, BeforeRequest(page.startCursor.value, limit), fh, sign) == Ok(SegmentPage(rows, lo', hi', fh, sign))
  {
    hide Rows;
    var e := Rows(t, f, Unbounded)[hi - 1];
    assert SegmentPage(Rows(t, f, Unbounded), lo, hi, fh, sign).startCursor == Some(Encode(e.seqNo, fh, sign, Backward));
    var s := Start(Some(e.seqNo as int), true, true);
    assert StartOf(BeforeRequest(Encode(e.seqNo, fh, sign, Backward), limit), fh, sign) == Ok(s);
    IssuedPage(t, f, s, hi - 1, SafeLimit(limit), fh, sign);
    hide SegmentPage, PageAt, Encode, SafeLimit, StartOf;
  }

  lemma PageAfter<S>(t: seq<Event>, f: Filter, lo: nat, hi: nat, limit: int, fh: string, sign: Payload -> S)
    requires Ordered(t) && lo < hi <= |Rows(t, f, Unbounded)|
    ensures
      var rows := Rows(t, f, Unbounded);
      var page := SegmentPage(rows, lo, hi, fh, sign);
      var (lo', hi') := SegmentOf(|rows|, lo, false, SafeLimit(limit));
      && page.endCursor.Some? && hi' == lo
      && PageFor(t, f, AfterRequest(page.endCursor.value, limit), fh, sign) == Ok(SegmentPage(rows, lo', hi', fh, sign))
  {
    hide Rows;
    var e := Rows(t, f, Unbounded)[lo];
    assert SegmentPage(Rows(t, f, Unbounded), lo, hi, fh, sign).endCursor == Some(Encode(e.seqNo, fh, sign, Forward));
    var s := Start(Some(e.seqNo as int), false, true);
    assert StartOf(AfterRequest(Encode(e.seqNo, fh, sign, Forward), limit), fh, sign) == Ok(s);
    IssuedPage(t, f, s, lo, SafeLimit(limit), fh, sign);
    hide SegmentPage, PageAt, Encode, SafeLimit, StartOf;
  }

  /** The rows of a page reached with an issued cursor: there are some, and which ones. */
  lemma PageSegment<S>(t: seq<Event>, f: Filter, q: Request<S>, page: Page<S>, fh: string, sign: Payload -> S)
    returns (lo: nat, hi: nat)
    requires Ordered(t) && FollowsIssued(t, f, q, fh, sign)
    requires PageFor(t, f, q, fh, sign) == Ok(page) && page.data != []
    ensures
      var rows := Rows(t, f, Unbounded);
      var n := SafeLimit(q.limit);
      && lo < hi <= |rows| && page == SegmentPage(rows, lo, hi, fh, sign)
      && (hi - lo == n || (hi - lo < n && (lo == 0 || hi == |rows|)))
      && (page.hasPrevious <==> hi < |rows|) && (page.hasNext <==> lo > 0)
  {
    var rows := Rows(t, f, Unbounded);
    var s, p := FollowedPage(t, f, q, fh, sign);
    hide Rows, PageFor, SafeLimit, FollowsIssued, IssuedStart, StartOf, Encode;
    var seg := SegmentOf(|rows|, p, s.backward, SafeLimit(q.limit));
    lo, hi := seg.0, seg.1;
  }

  /** Going back with a page's start cursor and then forward with the end cursor found there returns that page. */
  lemma BackThenForth<S>(
      t: seq<Event>, f: Filter, q: Request<S>, page: Page<S>, back: Page<S>, fh: string, sign: Payload -> S)
    requires Ordered(t) && FollowsIssued(t, f, q, fh, sign)
    requires PageFor(t, f, q, fh, sign) == Ok(page) && page.startCursor.Some?
    requires PageFor(t, f, BeforeRequest(page.startCursor.value, q.limit), fh, sign) == Ok(back)
    ensures page.hasPrevious <==> back.data != []
    ensures page.hasPrevious ==>
      back.endCursor.Some? && PageFor(t, f, AfterRequest(back.endCursor.value, q.limit), fh, sign) == Ok(page)
  {
    hide PageFor, Rows, SegmentPage, SafeLimit, FollowsIssued, Ordered;
    EmptyHasNoCursor(t, f, q, page, fh, sign);
    var lo, hi := PageSegment(t, f, q, page, fh, sign);
    PageBefore(t, f, lo, hi, q.limit, fh, sign);
    var rows := Rows(t, f, Unbounded);
    var seg := SegmentOf(|rows|, hi - 1, true, SafeLimit(q.limit));
    SegmentIsEmpty(rows, seg.0, seg.1, fh, sign);
    SegmentHasCursors(rows, seg.0, seg.1, fh, sign);
    if hi < |rows| {
      PageAfter(t, f, hi, seg.1, q.limit, fh, sign);
    }
  }

  /** Going forward with a page's end cursor and then back with the start cursor found there returns that page. */
  lemma ForthThenBack<S>(
      t: seq<Event>, f: Filter, q: Request<S>, page: Page<S>, forth: Page<S>, fh: string, sign: Payload -> S)
    requires Ordered(t) && FollowsIssued(t, f, q, fh, sign)
    requires PageFor(t, f, q, fh, sign) == Ok(page) && page.endCursor.Some?
    requires PageFor(t, f, AfterRequest(page.endCursor.value, q.limit), fh, sign) == Ok(forth)
    ensures page.hasNext <==> forth.data != []
    ensures page.hasNext ==>
      forth.startCursor.Some? && PageFor(t, f, BeforeRequest(forth.startCursor.value, q.limit), fh, sign) == Ok(page)
  {
    hide PageFor, Rows, SegmentPage, SafeLimit, FollowsIssued, Ordered;
    EmptyHasNoCursor(t, f, q, page, fh, sign);
    var lo, hi := PageSegment(t, f, q, page, fh, sign);
    PageAfter(t, f, lo, hi, q.limit, fh, sign);
    var rows := Rows(t, f, Unbounded);
    var seg := SegmentOf(|rows|, lo, false, SafeLimit(q.limit));
    SegmentIsEmpty(rows, seg.0, seg.1, fh, sign);
    SegmentHasCursors(rows, seg.0, seg.1, fh, sign);
    if lo > 0 {
      PageBefore(t, f, seg.0, lo, q.limit, fh, sign);
    }
  }

  lemma SegmentIsEmpty<S>(rows: seq<Event>, lo: nat, hi: nat, fh: string, sign: Payload -> S)
    requires lo <= hi <= |rows|
    ensures SegmentPage(rows, lo, hi, fh, sign).data == [] <==> lo == hi
  {
  }

  lemma SegmentHasCursors<S>(rows: seq<Event>, lo: nat, hi: nat, fh: string, sign: Payload -> S)
    requires lo <= hi <= |rows|
    ensures SegmentPage(rows, lo, hi, fh, sign).startCursor.Some? <==> lo < hi
    ensures SegmentPage(rows, lo, hi, fh, sign).endCursor.Some? <==> lo < hi
  {
  }

  lemma EmptyHasNoCursor<S>(t: seq<Event>, f: Filter, q: Request<S>, page: Page<S>, fh: string, sign: Payload -> S)
    requires PageFor(t, f, q, fh, sign) == Ok(page)
    ensures page.data == [] <==> page.startCursor.None?
    ensures page.data == [] <==> page.endCursor.None?
  {
    hide StartOf, Rows, SafeLimit, Encode;
  }

  /** Whoever goes back from the first page gets nothing, and is told that nothing follows, although the page does. */
  lemma BackFromTheFirstPage<S>(t: seq<Event>, f: Filter, q: Request<S>, page: Page<S>, fh: string, sign: Payload -> S)
    requires Ordered(t) && FollowsIssued(t, f, q, fh, sign)
    requires PageFor(t, f, q, fh, sign) == Ok(page) && page.data != [] && !page.hasPrevious
    ensures page.startCursor.Some?
    ensures
      var back := PageFor(t, f, BeforeRequest(page.startCursor.value, q.limit), fh, sign);
      && back == Ok(Page([], false, false, None, None, None))
      && !ExactFlags(Rows(t, f, Unbounded), back.value, true)
  {
    hide PageFor, Rows, SafeLimit, FollowsIssued, Ordered;
    var rows := Rows(t, f, Unbounded);
    var lo, hi := PageSegment(t, f, q, page, fh, sign);
    PageBefore(t, f, lo, hi, q.limit, fh, sign);
    assert rows[lo] in rows;
  }

  lemma OneEventRows(e: Event)
    ensures Rows([e], NO_FILTER, Unbounded) == [e] && Ordered([e]) && Reverse([e][0..1]) == [e]
  {
    assert [e][1..] == [];
  }

  lemma OneEventPage<S>(e: Event, fh: string, sign: Payload -> S)
    ensures FollowsIssued([e], NO_FILTER, FirstRequest<S>(25), fh, sign)
    ensures PageFor([e], NO_FILTER, FirstRequest<S>(25), fh, sign) == Ok(Envelope([e], false, false, fh, sign))
  {
    OneEventRows(e);
    var s := Start(None, false, false);
    assert StartOf(FirstRequest<S>(25), fh, sign) == Ok(s);
    hide Rows, Reverse, Envelope, PageAt, StartOf, Ordered;
    IssuedPage([e], NO_FILTER, s, 1, 25, fh, sign);
  }

  /** So on a log with one event: its page is the first, and behind its start cursor the event is denied. */
  lemma BackFromTheOnlyEvent<S>(e: Event, fh: string, sign: Payload -> S)
    ensures
      var back := PageFor([e], NO_FILTER, BeforeRequest(Encode(e.seqNo, fh, sign, Backward), 25), fh, sign);
      back == Ok(Page([], false, false, None, None, None)) && !ExactFlags(Rows([e], NO_FILTER, Unbounded), back.value, true)
  {
    OneEventPage(e, fh, sign);
    hide PageFor, Rows, FollowsIssued, ExactFlags;
    BackFromTheFirstPage([e], NO_FILTER, FirstRequest<S>(25), Envelope([e], false, false, fh, sign), fh, sign);
  }
}
