/**
 * Keyset pagination over the event log (`getEventsCursor` in indexer/src/db.js).
 * A page lists its rows newest first.
 */
module EventsCursor {
  import opened Wrappers
  import opened Basics
  import opened Events
  import opened Cursor

  /** What a client may send as `after` or `cursor`: a number, a text of less than 20 digits, or an opaque cursor. */
  datatype Position<S> = Number(n: int) | Digits(m: nat) | Opaque(token: Token<S>)

  datatype Request<S> = Request(
    before: Option<Token<S>>, after: Option<Position<S>>, cursor: Option<Position<S>>, afterSeq: int, limit: int)

  function FirstRequest<S>(limit: int): Request<S> {
    Request(None, None, None, 0, limit)
  }

  function AfterRequest<S>(token: Token<S>, limit: int): Request<S> {
    Request(None, Some(Opaque(token)), None, 0, limit)
  }

  function BeforeRequest<S>(token: Token<S>, limit: int): Request<S> {
    Request(Some(token), None, None, 0, limit)
  }

  function SafeLimit(limit: int): (r: nat)
    ensures 1 <= r <= 200 && (1 <= limit <= 200 ==> r == limit)
    ensures (limit == 0 ==> r == 25) && (limit < 0 ==> r == 1) && (limit > 200 ==> r == 200)
  {
    var n := if limit == 0 then 25 else limit;
    if n < 1 then 1 else if n > 200 then 200 else n
  }

  /** Where a page begins, and on which side of that row it lies. */
  datatype Start = Start(anchor: Option<int>, backward: bool, hasAnchor: bool)

  predicate Truthy<S>(p: Option<Position<S>>) {
    p.Some? && p.value != Number(0)
  }

  function StartOf<S(==)>(q: Request<S>, filterHash: string, sign: Payload -> S): Result<Start, CursorError> {
    if q.before.Some? then
      match Decode(q.before.value, filterHash, sign)
      case Err(e) => Err(e)
      case Ok(d) => Ok(Start(Some(d.0), true, true))
    else if Truthy(q.after) || Truthy(q.cursor) then
      match if Truthy(q.after) then q.after.value else q.cursor.value
      case Number(n) => Ok(Start(Some(n), false, n > 0))
      case Digits(n) => Ok(Start(Some(n), false, n > 0))
      case Opaque(token) =>
        match Decode(token, filterHash, sign)
        case Err(e) => Err(e)
        case Ok(d) => Ok(Start(Some(d.0), d.1 == Backward, true))
    else if q.afterSeq > 0 then Ok(Start(Some(q.afterSeq), false, true))
    else Ok(Start(None, false, false))
  }

  function BoundOf(s: Start): Bound {
    if s.anchor.Some? && s.anchor.value > 0 then
      if s.backward then Above(s.anchor.value) else Below(s.anchor.value)
    else Unbounded
  }

  /** The page at a start: of the rows on its side of the anchor, the `n` nearest ones. */
  function PageAt<S>(t: seq<Event>, f: Filter, s: Start, n: nat, filterHash: string, sign: Payload -> S): Page<S> {
    var rows := Rows(t, f, BoundOf(s));
    var k := if n < |rows| then n else |rows|;
    if s.backward then Envelope(Reverse(rows[..k]), true, |rows| > n, filterHash, sign)
    else Envelope(Reverse(rows[|rows| - k..]), |rows| > n, s.hasAnchor, filterHash, sign)
  }

  function PageFor<S(==)>(t: seq<Event>, f: Filter, q: Request<S>, filterHash: string, sign: Payload -> S)
    : Result<Page<S>, CursorError>
  {
    match StartOf(q, filterHash, sign)
    case Err(e) => Err(e)
    case Ok(s) => Ok(PageAt(t, f, s, SafeLimit(q.limit), filterHash, sign))
  }

  /** The anchor, direction and flag that the request's cursors amount to. */
  method ResolveAnchor<S(==)>(q: Request<S>, filterHash: string, sign: Payload -> S) returns (r: Result<Start, CursorError>)
    ensures r == StartOf(q, filterHash, sign)
  {
    var isBackward, hasAnchor := false, false;
    var anchorSeq: Option<int> := None;
    if q.before.Some? {
      var decoded := Decode(q.before.value, filterHash, sign);
      if decoded.Err? { return Err(decoded.error); }
      anchorSeq, isBackward, hasAnchor := Some(decoded.value.0), true, true;
    } else if Truthy(q.after) || Truthy(q.cursor) {
      var token := if Truthy(q.after) then q.after.value else q.cursor.value;
      if !token.Opaque? {
        var n := if token.Number? then token.n else token.m;
        anchorSeq, isBackward, hasAnchor := Some(n), false, n > 0;
      } else {
        var decoded := Decode(token.token, filterHash, sign);
        if decoded.Err? { return Err(decoded.error); }
        anchorSeq, isBackward, hasAnchor := Some(decoded.value.0), decoded.value.1 == Backward, true;
      }
    } else if q.afterSeq > 0 {
      anchorSeq, isBackward, hasAnchor := Some(q.afterSeq), false, true;
    }
    r := Ok(Start(anchorSeq, isBackward, hasAnchor));
  }

  /** What the query parameters ask for: an empty contract text filters nothing. */
  function QueryFilter(contract: string, fns: seq<string>, kind: Kind): Filter {
    Filter(None, if contract == "" then None else Some(contract), fns, kind, None, None)
  }

  method GetEventsCursor<S(==)>(
      t: seq<Event>, contract: string, fns: seq<string>, kind: Kind, q: Request<S>, filterHash: string, sign: Payload -> S)
    returns (r: Result<Page<S>, CursorError>)
    ensures r == PageFor(t, QueryFilter(contract, fns, kind), q, filterHash, sign)
  {
    hide Envelope, Encode, Rows, Reverse, Take, StartOf, SafeLimit;
    var safeLimit := SafeLimit(q.limit);
    var resolved := ResolveAnchor(q, filterHash, sign);
    if resolved.Err? { return Err(resolved.error); }
    var start := resolved.value;
    var bound := Unbounded;
    if start.anchor.Some? && start.anchor.value > 0 {
      bound := if start.backward then Above(start.anchor.value) else Below(start.anchor.value);
    }
    var f := Filter(None, if contract != "" then Some(contract) else None, fns, kind, None, None);
    var selected := Rows(t, f, bound);
    var rows := Take(if start.backward then selected else Reverse(selected), safeLimit + 1);
    var hasExtraRow := |rows| > safeLimit;
    FetchedRows(selected, start.backward, safeLimit);
    var page := FormatPageResponse(rows, hasExtraRow, start.backward, start.hasAnchor, filterHash, sign);
    r := Ok(page);
  }

  /** Fetching one row more than asked for tells whether there is more, and dropping it leaves the page. */
  lemma FetchedRows(selected: seq<Event>, backward: bool, n: nat)
    ensures
      var rows := Take(if backward then selected else Reverse(selected), n + 1);
      var kept := if |rows| > n then rows[..|rows| - 1] else rows;
      var k := if n < |selected| then n else |selected|;
      && (|rows| > n <==> |selected| > n)
      && kept == if backward then selected[..k] else Reverse(selected[|selected| - k..])
  {
  }
}
