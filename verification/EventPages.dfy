/**
 * What a page of `getEventsCursor` holds for every request (indexer/src/db.js), said of the table's columns
 * and serial numbers alone: which rows, in which order, and whether more of them are left.
 */
module EventPages {
  import opened Wrappers
  import opened Events
  import opened Cursor
  import opened EventsCursor

  /** The rows that the parameters `contract`, `fn` and `type` ask for. */
  predicate Asked(contract: string, fns: seq<string>, kind: Kind, e: Event) {
    && (contract == "" || e.contract == Some(contract))
    && (fns == [] || e.fn in fns)
    && (kind == Soroban ==> e.contract != None && e.contract != Some(""))
    && (kind == Classic ==> e.contract == None || e.contract == Some(""))
  }

  /**
   * A page of `size` of the wanted rows: newest first, and whatever is left out of them lies beyond all rows of a
   * full page, on the newer side or on the older one.
   */
  ghost predicate Nearest(t: seq<Event>, wanted: Event -> bool, newer: bool, data: seq<Event>, size: nat) {
    && |data| <= size
    && (forall i, j :: 0 <= i < j < |data| ==> data[i].seqNo > data[j].seqNo)
    && (forall e :: e in data ==> e in t && wanted(e))
    && (forall e :: e in t && wanted(e) && e !in data ==>
          |data| == size && forall d :: d in data ==> if newer then e.seqNo > d.seqNo else e.seqNo < d.seqNo)
  }

  /** A page that lies on one side of a position, or at the newest end if no position is named, and its two flags. */
  ghost predicate PageOf<S>(
      t: seq<Event>, wanted: Event -> bool, newer: bool, named: bool, page: Page<S>, size: nat)
  {
    var leftOut := exists e :: e in t && wanted(e) && e !in page.data;
    && Nearest(t, wanted, newer, page.data, size)
    && (page.hasNext <==> page.data != [] && (newer || leftOut))
    && (page.hasPrevious <==> page.data != [] && if newer then leftOut else named)
  }

  /** The page of a request whose position is `n`, on the newer side of it or on the older one. */
  ghost predicate PageBeside<S>(
      t: seq<Event>, contract: string, fns: seq<string>, kind: Kind, n: int, newer: bool,
      r: Result<Page<S>, CursorError>, size: nat)
  {
    var beside := (e: Event) => Asked(contract, fns, kind, e) && if newer then e.seqNo > n else e.seqNo < n;
    r.Ok? && PageOf(t, beside, newer, true, r.value, size)
  }

  // ---------- the page at a start ----------

  lemma FilterIsAsked(contract: string, fns: seq<string>, kind: Kind, e: Event)
    ensures Matches(QueryFilter(contract, fns, kind), e) <==> Asked(contract, fns, kind, e)
  {
  }

  lemma Selected(t: seq<Event>, f: Filter, b: Bound, wanted: Event -> bool)
    requires Ordered(t) && forall e: Event :: Matches(f, e) && Admits(b, e.seqNo) <==> wanted(e)
    ensures forall e :: e in Rows(t, f, b) <==> e in t && wanted(e)
    ensures Ordered(Rows(t, f, b))
  {
    RowsOrdered(t, f, b);
    forall e
      ensures e in Rows(t, f, b) <==> e in t && wanted(e)
    {
      RowsMember(t, f, b, e);
    }
  }

  lemma ReverseDescends(rows: seq<Event>)
    requires Ordered(rows)
    ensures forall i, j :: 0 <= i < j < |rows| ==> Reverse(rows)[i].seqNo > Reverse(rows)[j].seqNo
  {
  }

  /** The part of a selection that is kept, turned newest first, the rest lying beyond it. */
  lemma NearestCut(t: seq<Event>, kept: seq<Event>, rest: seq<Event>, wanted: Event -> bool, newer: bool, size: nat)
    requires Ordered(kept) && |kept| <= size && (rest != [] ==> |kept| == size)
    requires forall e :: e in kept || e in rest <==> e in t && wanted(e)
    requires forall e, d :: e in rest && d in kept ==> if newer then e.seqNo > d.seqNo else e.seqNo < d.seqNo
    requires forall e :: e in rest ==> e !in kept
    ensures Nearest(t, wanted, newer, Reverse(kept), size)
    ensures rest != [] <==> exists e :: e in t && wanted(e) && e !in Reverse(kept)
  {
    ReverseMember(kept);
    ReverseDescends(kept);
    hide Reverse, Ordered;
    if rest != [] { assert rest[0] in rest; }
  }

  /** The end of a selection that is nearest. */
  lemma NearestRows(t: seq<Event>, rows: seq<Event>, wanted: Event -> bool, newer: bool, size: nat)
    requires Ordered(rows) && forall e :: e in rows <==> e in t && wanted(e)
    ensures
      var k := if size < |rows| then size else |rows|;
      var data := Reverse(if newer then rows[..k] else rows[|rows| - k..]);
      && Nearest(t, wanted, newer, data, size)
      && (|rows| > size <==> exists e :: e in t && wanted(e) && e !in data)
  {
    var k := if size < |rows| then size else |rows|;
    hide Ordered, Nearest, Reverse;
    if newer {
      CutApart(rows, k);
      NearestCut(t, rows[..k], rows[k..], wanted, newer, size);
    } else {
      CutApart(rows, |rows| - k);
      NearestCut(t, rows[|rows| - k..], rows[..|rows| - k], wanted, newer, size);
    }
  }

  lemma EnvelopeIsPage<S>(
      t: seq<Event>, wanted: Event -> bool, newer: bool, named: bool, data: seq<Event>, more: bool, size: nat,
      fh: string, sign: Payload -> S)
    requires Nearest(t, wanted, newer, data, size) && (more <==> exists e :: e in t && wanted(e) && e !in data)
    ensures PageOf(t, wanted, newer, named, Envelope(data, newer || more, if newer then more else named, fh, sign), size)
  {
    hide Nearest;
    assert Envelope(data, newer || more, if newer then more else named, fh, sign).data == data;
  }

  /** The rows of a selection that are nearest to its start. */
  lemma NearestSelected(t: seq<Event>, f: Filter, b: Bound, wanted: Event -> bool, newer: bool, n: nat)
    requires Ordered(t) && forall e: Event :: Matches(f, e) && Admits(b, e.seqNo) <==> wanted(e)
    ensures
      var rows := Rows(t, f, b);
      var k := if n < |rows| then n else |rows|;
      var data := Reverse(if newer then rows[..k] else rows[|rows| - k..]);
      && Nearest(t, wanted, newer, data, n)
      && (|rows| > n <==> exists e :: e in t && wanted(e) && e !in data)
  {
    hide *;
    Selected(t, f, b, wanted);
    NearestRows(t, Rows(t, f, b), wanted, newer, n);
  }

  /** What `PageAt` gives, if the bound at its start and the filter together select the wanted rows. */
  lemma StartPage<S>(t: seq<Event>, f: Filter, s: Start, wanted: Event -> bool, n: nat, fh: string, sign: Payload -> S)
    requires Ordered(t) && forall e: Event :: Matches(f, e) && Admits(BoundOf(s), e.seqNo) <==> wanted(e)
    ensures PageOf(t, wanted, s.backward, s.hasAnchor, PageAt(t, f, s, n, fh, sign), n)
  {
    hide Rows, Ordered, Matches, Admits, BoundOf, Nearest, Envelope, Reverse, PageOf;
    NearestSelected(t, f, BoundOf(s), wanted, s.backward, n);
    var rows := Rows(t, f, BoundOf(s));
    var k := if n < |rows| then n else |rows|;
    var data := Reverse(if s.backward then rows[..k] else rows[|rows| - k..]);
    EnvelopeIsPage(t, wanted, s.backward, s.hasAnchor, data, |rows| > n, n, fh, sign);
  }

  lemma PageWithin<S>(
      t: seq<Event>, contract: string, fns: seq<string>, kind: Kind, q: Request<S>, s: Start, wanted: Event -> bool,
      fh: string, sign: Payload -> S)
    requires Ordered(t) && StartOf(q, fh, sign) == Ok(s)
    requires forall e: Event :: wanted(e) <==> Asked(contract, fns, kind, e) && Admits(BoundOf(s), e.seqNo)
    ensures
      var r := PageFor(t, QueryFilter(contract, fns, kind), q, fh, sign);
      r.Ok? && PageOf(t, wanted, s.backward, s.hasAnchor, r.value, SafeLimit(q.limit))
  {
    var f := QueryFilter(contract, fns, kind);
    forall e: Event
      ensures Matches(f, e) && Admits(BoundOf(s), e.seqNo) <==> wanted(e)
    {
      FilterIsAsked(contract, fns, kind, e);
    }
    hide StartOf, PageAt, Matches, Asked, Admits, BoundOf, PageOf, Ordered, SafeLimit, QueryFilter;
    StartPage(t, f, s, wanted, SafeLimit(q.limit), fh, sign);
  }

  lemma PageAtPosition<S>(
      t: seq<Event>, contract: string, fns: seq<string>, kind: Kind, q: Request<S>, n: int, newer: bool,
      fh: string, sign: Payload -> S)
    requires Ordered(t) && n > 0 && StartOf(q, fh, sign) == Ok(Start(Some(n), newer, true))
    ensures PageBeside(t, contract, fns, kind, n, newer, PageFor(t, QueryFilter(contract, fns, kind), q, fh, sign),
                       SafeLimit(q.limit))
  {
    var s := Start(Some(n), newer, true);
    var wanted := (e: Event) => Asked(contract, fns, kind, e) && if newer then e.seqNo > n else e.seqNo < n;
    hide StartOf, PageFor, Asked, PageOf, Ordered, SafeLimit, QueryFilter;
    PageWithin(t, contract, fns, kind, q, s, wanted, fh, sign);
  }

  // ---------- what names a position, and which parameter is heard ----------

  /** A cursor that the server issued at row `n` for one direction, under no filter hash or under this one. */
  ghost predicate IssuedAt<S>(token: Token<S>, n: int, d: Direction, fh: string, sign: Payload -> S) {
    exists issued: string ::
      && (issued == "" || fh == "" || issued == fh)
      && token == Signed(Payload(n, issued, d), sign(Payload(n, issued, d)))
  }

  /** `after` and `cursor` name a position by its number, by its digits, or by a cursor, which may point to newer rows. */
  ghost predicate Names<S>(p: Option<Position<S>>, n: int, newer: bool, fh: string, sign: Payload -> S) {
    || (p == Some(Number(n)) && !newer)
    || (n >= 0 && p == Some(Digits(n)) && !newer)
    || (p.Some? && p.value.Opaque? && IssuedAt(p.value.token, n, if newer then Backward else Forward, fh, sign))
  }

  /** An absent parameter, or the number zero. */
  predicate Unset<S>(p: Option<Position<S>>) {
    p == None || p == Some(Number(0))
  }

  /**
   * The position that a request names: by `before` whatever else it says, else by `after`, else by `cursor`, else
   * by `after_seq`. What `before` names has the page on its newer side.
   */
  ghost predicate Asks<S>(q: Request<S>, n: int, newer: bool, fh: string, sign: Payload -> S) {
    if q.before != None then newer && exists d :: IssuedAt(q.before.value, n, d, fh, sign)
    else if !Unset(q.after) then Names(q.after, n, newer, fh, sign)
    else if !Unset(q.cursor) then Names(q.cursor, n, newer, fh, sign)
    else !newer && q.afterSeq == n
  }

  lemma IssuedDecodes<S>(token: Token<S>, n: int, d: Direction, fh: string, sign: Payload -> S)
    requires IssuedAt(token, n, d, fh, sign)
    ensures Decode(token, fh, sign) == Ok((n, d))
  {
  }

  lemma AskedStart<S>(q: Request<S>, n: int, newer: bool, fh: string, sign: Payload -> S)
    requires n > 0 && Asks(q, n, newer, fh, sign)
    ensures StartOf(q, fh, sign) == Ok(Start(Some(n), newer, true))
  {
    hide Decode, IssuedAt;
    if q.before != None {
      var d :| IssuedAt(q.before.value, n, d, fh, sign);
      IssuedDecodes(q.before.value, n, d, fh, sign);
    } else {
      var d := if newer then Backward else Forward;
      if q.after.Some? && q.after.value.Opaque? {
        IssuedDecodes(q.after.value.token, n, d, fh, sign);
      } else if Unset(q.after) && q.cursor.Some? && q.cursor.value.Opaque? {
        IssuedDecodes(q.cursor.value.token, n, d, fh, sign);
      }
    }
  }

  /**
   * Every request that names a position `n` above 0, in whatever way, gets the rows asked for that lie on the named
   * side of `n`, newest first, as many as fit, none nearer to `n` left out, with flags that say what is left.
   */
  lemma PositionsAreHeeded<S>(
      t: seq<Event>, contract: string, fns: seq<string>, kind: Kind, q: Request<S>, n: int, newer: bool,
      fh: string, sign: Payload -> S)
    requires Ordered(t) && n > 0 && Asks(q, n, newer, fh, sign)
    ensures PageBeside(t, contract, fns, kind, n, newer, PageFor(t, QueryFilter(contract, fns, kind), q, fh, sign),
                       SafeLimit(q.limit))
  {
    AskedStart(q, n, newer, fh, sign);
    hide *;
    PageAtPosition(t, contract, fns, kind, q, n, newer, fh, sign);
  }

  /** Parameters that name no position: `after_seq` at most 0, or a number or digits at most 0 as the first one set. */
  predicate AsksNothing<S>(q: Request<S>) {
    && q.before == None
    && if !Unset(q.after) then AtMostZero(q.after.value)
       else if !Unset(q.cursor) then AtMostZero(q.cursor.value)
       else q.afterSeq <= 0
  }

  predicate AtMostZero<S>(p: Position<S>) {
    (p.Number? && p.n <= 0) || p == Digits(0)
  }

  /** Such a request gets the newest of the rows asked for. */
  lemma FirstPageIsNewest<S>(
      t: seq<Event>, contract: string, fns: seq<string>, kind: Kind, q: Request<S>, fh: string, sign: Payload -> S)
    requires Ordered(t) && AsksNothing(q)
    ensures
      var r := PageFor(t, QueryFilter(contract, fns, kind), q, fh, sign);
      r.Ok? && PageOf(t, e => Asked(contract, fns, kind, e), false, false, r.value, SafeLimit(q.limit))
  {
    var s := StartOf(q, fh, sign).value;
    assert StartOf(q, fh, sign) == Ok(s) && BoundOf(s) == Unbounded && !s.backward && !s.hasAnchor;
    hide StartOf, PageFor, BoundOf, Asked, PageOf, Ordered, SafeLimit, QueryFilter, AsksNothing;
    PageWithin(t, contract, fns, kind, q, s, e => Asked(contract, fns, kind, e), fh, sign);
  }

  /** The cursors of a page name its first and its last row, to go on to newer and to older rows. */
  lemma CursorsNameTheEnds<S>(t: seq<Event>, f: Filter, q: Request<S>, fh: string, sign: Payload -> S)
    requires PageFor(t, f, q, fh, sign).Ok?
    ensures
      var page := PageFor(t, f, q, fh, sign).value;
      && page.nextCursor == (if page.hasNext then page.endCursor else None)
      && if page.data == [] then page.startCursor == page.endCursor == None else
        var first := Payload(page.data[0].seqNo, fh, Backward);
        var last := Payload(page.data[|page.data| - 1].seqNo, fh, Forward);
        page.startCursor == Some(Signed(first, sign(first))) && page.endCursor == Some(Signed(last, sign(last)))
  {
    hide StartOf, Rows, SafeLimit, BoundOf, Reverse;
  }

  // ---------- refused cursors ----------

  /** The cursor that the first parameter set hands over, if it is one. */
  function Handed<S>(q: Request<S>): Option<Token<S>> {
    if q.before != None then q.before
    else
      var p := if Unset(q.after) then q.cursor else q.after;
      if p.Some? && p.value.Opaque? then Some(p.value.token) else None
  }

  /**
   * A request is refused exactly if it hands over a cursor that is unreadable or wrongly signed, or else was issued
   * under another filter hash, and by the error that says which.
   */
  lemma RefusedCursors<S>(t: seq<Event>, f: Filter, q: Request<S>, fh: string, sign: Payload -> S)
    ensures
      var r, token := PageFor(t, f, q, fh, sign), Handed(q);
      var unsound := token.Some? && (token.value == Unreadable || token.value.signature != sign(token.value.payload));
      var foreign := token.Some? && !unsound && fh != ""
                     && token.value.payload.filterHash != "" && token.value.payload.filterHash != fh;
      && (r == Err(InvalidCursor) <==> unsound)
      && (r == Err(FilterMismatch) <==> foreign)
      && (r.Ok? <==> !unsound && !foreign)
  {
    hide PageAt, Rows;
  }
}
