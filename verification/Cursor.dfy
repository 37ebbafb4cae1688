/**
 * Signed opaque cursors and the page envelope (indexer/src/cursor.js).
 *
 * Base64 and JSON text are an inverse pair, so a token on the wire is either unreadable or a
 * payload with a signature. `sign` is the HMAC under the server's secret.
 */
module Cursor {
  import opened Wrappers
  import opened Events

  datatype Direction = Forward | Backward

  datatype Payload = Payload(pos: int, filterHash: string, direction: Direction)

  datatype Token<S> = Unreadable | Signed(payload: Payload, signature: S)

  datatype CursorError = InvalidCursor | FilterMismatch

  function Encode<S>(pos: int, filterHash: string, sign: Payload -> S, direction: Direction): Token<S> {
    var p := Payload(pos, filterHash, direction);
    Signed(p, sign(p))
  }

  function Decode<S(==)>(token: Token<S>, currentHash: string, sign: Payload -> S): Result<(int, Direction), CursorError> {
    if token.Unreadable? then Err(InvalidCursor)
    else if token.signature != sign(token.payload) then Err(InvalidCursor)
    else if currentHash != "" && token.payload.filterHash != "" && token.payload.filterHash != currentHash then
      Err(FilterMismatch)
    else Ok((token.payload.pos, token.payload.direction))
  }

  /**
   * A token is read as a position and direction exactly if it is what encoding these under a compatible filter
   * gives. That nobody else can compute the signature is not stated here.
   */
  lemma DecodeInverts<S>(token: Token<S>, currentHash: string, sign: Payload -> S, pos: int, direction: Direction)
    ensures Decode(token, currentHash, sign) == Ok((pos, direction)) <==>
      exists issued ::
        (issued == "" || currentHash == "" || issued == currentHash)
        && token == Encode(pos, issued, sign, direction)
  {
    if Decode(token, currentHash, sign) == Ok((pos, direction)) {
      var issued := token.payload.filterHash;
      assert token == Encode(pos, issued, sign, direction);
    }
  }

  datatype Page<S> = Page(
    data: seq<Event>, hasNext: bool, hasPrevious: bool,
    startCursor: Option<Token<S>>, endCursor: Option<Token<S>>, nextCursor: Option<Token<S>>)

  /** The envelope around the rows of a page: its cursors name its first and last row. */
  function Envelope<S>(data: seq<Event>, hasNext: bool, hasPrevious: bool, filterHash: string, sign: Payload -> S): Page<S>
  {
    if data == [] then Page([], false, false, None, None, None) else
      var start := Encode(data[0].seqNo, filterHash, sign, Backward);
      var end := Encode(data[|data| - 1].seqNo, filterHash, sign, Forward);
      Page(data, hasNext, hasPrevious, Some(start), Some(end), if hasNext then Some(end) else None)
  }

  /** Drops the extra row that only told whether there is more: the one furthest from the anchor. */
  method FormatPageResponse<S>(
      data: seq<Event>, hasExtraRow: bool, isBackward: bool, hasAnchor: bool, filterHash: string, sign: Payload -> S)
    returns (page: Page<S>)
    requires hasExtraRow ==> data != []
    ensures
      var kept := if hasExtraRow then data[..|data| - 1] else data;
      page == if isBackward then Envelope(Reverse(kept), true, hasExtraRow, filterHash, sign)
              else Envelope(kept, hasExtraRow, hasAnchor, filterHash, sign)
  {
    var rows := data;
    if isBackward {
      rows := Reverse(rows);
    }
    var hasMore := hasExtraRow;
    if hasMore {
      if isBackward {
        assert Reverse(data)[1..] == Reverse(data[..|data| - 1]);
        rows := rows[1..];
      } else {
        rows := rows[..|rows| - 1];
      }
    }
    var hasNext := if |rows| == 0 then false else if isBackward then true else hasMore;
    var hasPrevious := if |rows| == 0 then false else if isBackward then hasMore else hasAnchor;
    var startCursor: Option<Token<S>> := None;
    var endCursor: Option<Token<S>> := None;
    if |rows| > 0 {
      startCursor := Some(Encode(rows[0].seqNo, filterHash, sign, Backward));
      endCursor := Some(Encode(rows[|rows| - 1].seqNo, filterHash, sign, Forward));
    }
    page := Page(rows, hasNext, hasPrevious, startCursor, endCursor, if hasNext then endCursor else None);
  }
}
