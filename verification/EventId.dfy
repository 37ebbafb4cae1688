/** Canonical event IDs (indexer/src/eventId.js): a position packed into 63 bits and printed zero-padded. */
module EventId {
  import opened Wrappers
  import opened Bits
  import opened Decimal

  datatype RangeError = LedgerOutOfRange | TxOrderOutOfRange | OpIndexOutOfRange | EventIndexOutOfRange

  datatype Position = Position(ledger: nat, txOrder: nat, opIndex: nat, eventIndex: nat)

  // ---------- BigInt bit operators on natural numbers ----------

  function Shl(a: nat, k: nat): nat {
    if k == 0 then a else 2 * Shl(a, k - 1)
  }

  function Shr(a: nat, k: nat): nat {
    if k == 0 then a else Shr(a / 2, k - 1)
  }

  function Or(a: nat, b: nat): nat {
    if a == 0 && b == 0 then 0
    else 2 * Or(a / 2, b / 2) + if a % 2 == 1 || b % 2 == 1 then 1 else 0
  }

  function And(a: nat, b: nat): nat {
    if a == 0 || b == 0 then 0
    else 2 * And(a / 2, b / 2) + if a % 2 == 1 && b % 2 == 1 then 1 else 0
  }

  function Toid(ledger: int, txOrder: int, opIndex: int): Result<nat, RangeError> {
    if ledger < 0 || ledger > 0x7fffffff then Err(LedgerOutOfRange)
    else if txOrder < 0 || txOrder > 0xfffff then Err(TxOrderOutOfRange)
    else if opIndex < 0 || opIndex > 0xfff then Err(OpIndexOutOfRange)
    else Ok(Or(Or(Shl(ledger, 32), Shl(txOrder, 12)), opIndex))
  }

  function FormatEventId(toid: nat, eventIndex: int): Result<string, RangeError> {
    if eventIndex < 0 then Err(EventIndexOutOfRange)
    else Ok(PadStart(ToText(toid), 19) + "-" + PadStart(ToText(eventIndex), 10))
  }

  /** EVENT_ID_RE: 19 digits, a dash, 10 digits. */
  predicate Canonical(id: string) {
    |id| == 30 && AllDigits(id[..19]) && id[19] == '-' && AllDigits(id[20..])
  }

  function ParseEventId(id: string): Option<Position> {
    if !Canonical(id) then None else
      var value := ValueOf(id[..19]);
      Some(Position(Shr(value, 32), And(Shr(value, 12), 0xfffff), And(value, 0xfff), ValueOf(id[20..])))
  }

  function IdOf(p: Position): Result<string, RangeError> {
    match Toid(p.ledger, p.txOrder, p.opIndex)
    case Err(e) => Err(e)
    case Ok(toid) => FormatEventId(toid, p.eventIndex)
  }

  // ---------- the bit operators pack and unpack ----------

  lemma {:induction false} OrLow(a: nat, b: nat, k: nat)
    requires b < Pow2(k)
    ensures Or(Shl(a, k), b) == Shl(a, k) + b
  {
    if k == 0 {
      OrZero(a);
    } else {
      OrLow(a, b / 2, k - 1);
    }
  }

  lemma {:induction false} OrZero(a: nat)
    ensures Or(a, 0) == a
  {
    if a > 0 {
      OrZero(a / 2);
    }
  }

  lemma {:induction false} OrShifted(a: nat, b: nat, k: nat)
    ensures Or(Shl(a, k), Shl(b, k)) == Shl(Or(a, b), k)
  {
    if k > 0 {
      OrShifted(a, b, k - 1);
    }
  }

  lemma {:induction false} ShlTwice(a: nat, j: nat, k: nat)
    ensures Shl(Shl(a, j), k) == Shl(a, j + k)
  {
    if k > 0 {
      ShlTwice(a, j, k - 1);
    }
  }

  lemma {:induction false} ShrTwice(a: nat, j: nat, k: nat)
    ensures Shr(Shr(a, j), k) == Shr(a, j + k)
  {
    if j > 0 {
      ShrTwice(a / 2, j - 1, k);
    }
  }

  lemma AndMask(v: nat, p: nat)
    requires p > 0
    ensures And(v, 2 * p - 1) == 2 * And(v / 2, p - 1) + v % 2
  {
    assert (2 * p - 1) / 2 == p - 1;
  }

  lemma HalfSum(x: nat, b: nat)
    ensures (2 * x + b) / 2 == x + b / 2 && (2 * x + b) % 2 == b % 2
  {
  }

  /** Packing below `k` bits and taking apart again, in both directions. */
  lemma {:induction false} Unpack(a: nat, b: nat, k: nat)
    requires b < Pow2(k)
    ensures Shr(Shl(a, k) + b, k) == a && And(Shl(a, k) + b, Pow2(k) - 1) == b
  {
    if k > 0 {
      hide And;
      Unpack(a, b / 2, k - 1);
      HalfSum(Shl(a, k - 1), b);
      AndMask(Shl(a, k) + b, Pow2(k - 1));
    }
  }

  lemma {:induction false} Repack(v: nat, k: nat)
    ensures And(v, Pow2(k) - 1) < Pow2(k)
    ensures Shl(Shr(v, k), k) + And(v, Pow2(k) - 1) == v
  {
    if k > 0 {
      hide And;
      Repack(v / 2, k - 1);
      AndMask(v, Pow2(k - 1));
    }
  }

  lemma {:induction false} ShlMonotone(a: nat, b: nat, k: nat)
    requires a < b
    ensures Shl(a, k) + Pow2(k) <= Shl(b, k)
  {
    if k > 0 {
      ShlMonotone(a, b, k - 1);
    }
  }

  /** The packed number orders by its high part first. */
  lemma PackedOrder(a: nat, x: nat, b: nat, y: nat, k: nat)
    requires x < Pow2(k) && y < Pow2(k)
    ensures Shl(a, k) + x < Shl(b, k) + y <==> a < b || (a == b && x < y)
  {
    if a < b {
      ShlMonotone(a, b, k);
    } else if b < a {
      ShlMonotone(b, a, k);
    }
  }

  predicate InRange(p: Position) {
    p.ledger <= 0x7fffffff && p.txOrder <= 0xfffff && p.opIndex <= 0xfff
  }

  function Packed(p: Position): nat {
    Shl(Shl(p.ledger, 20) + p.txOrder, 12) + p.opIndex
  }

  lemma ToidPacks(p: Position)
    requires InRange(p)
    ensures Toid(p.ledger, p.txOrder, p.opIndex) == Ok(Packed(p))
  {
    Pow2Values();
    hide Shl, Or, Pow2;
    ShlTwice(p.ledger, 20, 12);
    OrShifted(Shl(p.ledger, 20), p.txOrder, 12);
    OrLow(p.ledger, p.txOrder, 20);
    OrLow(Shl(p.ledger, 20) + p.txOrder, p.opIndex, 12);
  }

  lemma {:induction false} ShlTimes(a: nat, k: nat)
    ensures Shl(a, k) == a * Pow2(k)
  {
    if k > 0 {
      ShlTimes(a, k - 1);
    }
  }

  /** In numbers: the ranges of the three fields, the error of the first one outside its range, and the packed sum. */
  lemma ToidRanges(ledger: int, txOrder: int, opIndex: int)
    ensures
      var r := Toid(ledger, txOrder, opIndex);
      var l, t, o := 0 <= ledger < 2_147_483_648, 0 <= txOrder < 1_048_576, 0 <= opIndex < 4096;
      && (r == Err(LedgerOutOfRange) <==> !l) && (r == Err(TxOrderOutOfRange) <==> l && !t)
      && (r == Err(OpIndexOutOfRange) <==> l && t && !o)
      && (l && t && o ==> r == Ok(ledger * 4_294_967_296 + txOrder * 4096 + opIndex))
  {
    if 0 <= ledger < 2_147_483_648 && 0 <= txOrder < 1_048_576 && 0 <= opIndex < 4096 {
      var p := Position(ledger, txOrder, opIndex, 0);
      ToidPacks(p);
      Pow2Values();
      ShlTimes(ledger, 20);
      ShlTimes(Shl(ledger, 20) + txOrder, 12);
      hide Toid, Shl, Pow2;
      assert (ledger * 0x10_0000 + txOrder) * 0x1000 == ledger * 0x1_0000_0000 + txOrder * 0x1000;
    }
  }

  lemma PackedUnpacks(p: Position)
    requires InRange(p)
    ensures Shr(Packed(p), 32) == p.ledger
    ensures And(Shr(Packed(p), 12), 0xfffff) == p.txOrder && And(Packed(p), 0xfff) == p.opIndex
  {
    Pow2Values();
    hide Shl, Shr, And, Pow2;
    Unpack(Shl(p.ledger, 20) + p.txOrder, p.opIndex, 12);
    Unpack(p.ledger, p.txOrder, 20);
    ShrTwice(Packed(p), 12, 20);
  }

  lemma {:induction false} ShlBound(a: nat, m: nat, k: nat)
    requires a < Pow2(m)
    ensures Shl(a, k) + Pow2(k) <= Pow2(m + k)
  {
    if k > 0 {
      ShlBound(a, m, k - 1);
    }
  }

  lemma PackedFits(p: Position)
    requires InRange(p)
    ensures Packed(p) < Pow10(19)
  {
    Pow2Values();
    Pow10Values();
    assert Pow2(32) == 2 * Pow2(31);
    hide Shl, Pow2, Pow10;
    ShlBound(p.ledger, 31, 20);
    ShlBound(Shl(p.ledger, 20) + p.txOrder, 51, 12);
  }

  // ---------- the IDs ----------

  lemma IdShape(p: Position)
    requires InRange(p)
    ensures
      var t := PadStart(ToText(Packed(p)), 19);
      var i := PadStart(ToText(p.eventIndex), 10);
      && IdOf(p) == Ok(t + "-" + i)
      && |t| == 19 && AllDigits(t) && ValueOf(t) == Packed(p)
      && AllDigits(i) && ValueOf(i) == p.eventIndex && (|i| == 10 <==> p.eventIndex < 10_000_000_000)
  {
    Pow10Values();
    hide ToText, PadStart, Pow10, ValueOf, Packed, Toid;
    ToidPacks(p);
    PackedFits(p);
    PadValue(Packed(p), 19);
    PadValue(p.eventIndex, 10);
  }

  /** Parsing an issued ID returns exactly the four numbers, if and only if the event index has at most ten digits. */
  lemma ParseInvertsFormat(p: Position)
    requires InRange(p)
    ensures IdOf(p).Ok?
    ensures ParseEventId(IdOf(p).value) == (if p.eventIndex < 10_000_000_000 then Some(p) else None)
  {
    IdShape(p);
    PackedUnpacks(p);
    hide ToText, PadStart, IdOf, ValueOf, Packed, Shr, And;
    var t, i := PadStart(ToText(Packed(p)), 19), PadStart(ToText(p.eventIndex), 10);
    var id := t + "-" + i;
    if p.eventIndex < 10_000_000_000 {
      assert id[..19] == t && id[20..] == i;
    }
  }

  /** Every canonical text whose ledger fits 31 bits is the ID of the position it parses to. */
  lemma FormatInvertsParse(id: string)
    requires Canonical(id)
    ensures ParseEventId(id).Some?
    ensures
      var p := ParseEventId(id).value;
      IdOf(p) == if p.ledger <= 0x7fffffff then Ok(id) else Err(LedgerOutOfRange)
  {
    var p := ParseEventId(id).value;
    CanonicalPosition(id[..19], id[20..]);
    if p.ledger > 0x7fffffff {
      assert IdOf(p) == Err(LedgerOutOfRange);
    } else {
      hide ToText, PadStart, IdOf, ValueOf, Packed, Shr, And, AllDigits;
      PartsGiveId(p, id[..19], id[20..]);
      assert id[..19] + "-" + id[20..] == id;
    }
  }

  lemma PartsGiveId(p: Position, t: string, i: string)
    requires InRange(p) && AllDigits(t) && AllDigits(i) && |t| == 19 && |i| == 10
    requires Packed(p) == ValueOf(t) && p.eventIndex == ValueOf(i)
    ensures IdOf(p) == Ok(t + "-" + i)
  {
    hide ToText, PadStart, IdOf, ValueOf, Packed, AllDigits;
    SamePrefix(p);
    PadInverts(t);
    PadInverts(i);
  }

  lemma SamePrefix(p: Position)
    requires InRange(p)
    ensures IdOf(p) == Ok(PadStart(ToText(Packed(p)), 19) + "-" + PadStart(ToText(p.eventIndex), 10))
  {
    IdShape(p);
    hide *;
  }

  lemma CanonicalPosition(t: string, i: string)
    requires AllDigits(t) && AllDigits(i)
    ensures
      var v := ValueOf(t);
      var p := Position(Shr(v, 32), And(Shr(v, 12), 0xfffff), And(v, 0xfff), ValueOf(i));
      p.txOrder <= 0xfffff && p.opIndex <= 0xfff && Packed(p) == v
  {
    hide *;
    PackedFrom(ValueOf(t), ValueOf(i));
  }

  lemma PackedFrom(v: nat, i: nat)
    ensures
      var p := Position(Shr(v, 32), And(Shr(v, 12), 0xfffff), And(v, 0xfff), i);
      p.txOrder <= 0xfffff && p.opIndex <= 0xfff && Packed(p) == v
  {
    Pow2Values();
    hide Shl, Shr, And, Pow2;
    Repack(v, 12);
    Repack(Shr(v, 12), 20);
    ShrTwice(v, 12, 20);
  }

  /** Earlier on the chain: by ledger, then transaction, then operation, then event. */
  predicate Earlier(p: Position, q: Position) {
    if p.ledger != q.ledger then p.ledger < q.ledger
    else if p.txOrder != q.txOrder then p.txOrder < q.txOrder
    else if p.opIndex != q.opIndex then p.opIndex < q.opIndex
    else p.eventIndex < q.eventIndex
  }

  lemma PackedIsLexicographic(p: Position, q: Position)
    requires InRange(p) && InRange(q)
    ensures Packed(p) < Packed(q) || (Packed(p) == Packed(q) && p.eventIndex < q.eventIndex) <==> Earlier(p, q)
  {
    Pow2Values();
    hide Shl, Pow2;
    PackedOrder(Shl(p.ledger, 20) + p.txOrder, p.opIndex, Shl(q.ledger, 20) + q.txOrder, q.opIndex, 12);
    PackedOrder(Shl(q.ledger, 20) + q.txOrder, q.opIndex, Shl(p.ledger, 20) + p.txOrder, p.opIndex, 12);
    PackedOrder(p.ledger, p.txOrder, q.ledger, q.txOrder, 20);
    PackedOrder(q.ledger, q.txOrder, p.ledger, p.txOrder, 20);
  }

  /** How many digits the event index of an ID has. */
  function Width(i: nat): (w: nat)
    ensures w == |PadStart(ToText(i), 10)|
  {
    |PadStart(ToText(i), 10)|
  }

  /** The shorter of two numbers, filled up with zeros behind to the width of the other, does not exceed it. */
  predicate AlignedAs(i: nat, w: nat, j: nat, x: nat) {
    if w < x then i * Pow10(x - w) <= j
    else if x < w then j * Pow10(w - x) <= i
    else true
  }

  predicate Aligned(i: nat, j: nat) {
    AlignedAs(i, Width(i), j, Width(j))
  }

  predicate SameOperation(p: Position, q: Position) {
    p.ledger == q.ledger && p.txOrder == q.txOrder && p.opIndex == q.opIndex
  }

  /** The first digits of a text are at least `v` exactly if the text is at least `v` filled up with zeros. */
  lemma LeadingValue(s: string, k: nat, v: nat)
    requires AllDigits(s) && k <= |s|
    ensures AllDigits(s[..k]) && (v <= ValueOf(s[..k]) <==> v * Pow10(|s| - k) <= ValueOf(s))
  {
    assert s == s[..k] + s[k..];
    ValueConcat(s[..k], s[k..]);
    ValueBound(s[k..]);
    assert AllDigits(s[..k]) && AllDigits(s[k..]);
    hide ValueOf, Pow10, AllDigits;
    AtLeastShifted(v, ValueOf(s[..k]), ValueOf(s[k..]), Pow10(|s| - k));
  }

  lemma AtLeastShifted(v: nat, q: nat, r: nat, d: nat)
    requires r < d
    ensures v <= q <==> v * d <= q * d + r
  {
    if v <= q {
      assert (q - v) * d >= 0;
    } else {
      assert (v - q - 1) * d >= 0;
    }
  }

  /** A shorter text against a longer one. */
  lemma ShorterLess(a: string, b: string)
    requires AllDigits(a) && AllDigits(b) && |a| < |b|
    ensures TextLess(a, b) <==> ValueOf(a) * Pow10(|b| - |a|) <= ValueOf(b)
    ensures TextLess(b, a) <==> ValueOf(b) < ValueOf(a) * Pow10(|b| - |a|)
  {
    var head, tail := b[..|a|], b[|a|..];
    LeadingValue(b, |a|, ValueOf(a));
    TextOrderIsValueOrder(a, head);
    TextOrderIsValueOrder(head, a);
    assert b == head + tail && a == a + "";
    EmptyLess(tail);
    hide ValueOf, TextLess, Pow10, AllDigits;
    TextLessConcat(a, "", head, tail);
    TextLessConcat(head, tail, a, "");
    if ValueOf(a) == ValueOf(head) { ValueInjective(a, head); }
  }

  lemma EmptyLess(s: string)
    ensures TextLess("", s) <==> s != ""
    ensures !TextLess(s, "")
  {
  }

  lemma TextOrderIsAligned(a: string, b: string)
    requires AllDigits(a) && AllDigits(b)
    requires (|a| < |b| ==> ValueOf(a) < ValueOf(b)) && (|b| < |a| ==> ValueOf(b) < ValueOf(a))
    ensures (TextLess(a, b) <==> ValueOf(a) < ValueOf(b)) <==> AlignedAs(ValueOf(a), |a|, ValueOf(b), |b|)
  {
    hide TextLess, Pow10, ValueOf;
    if |a| < |b| {
      ShorterLess(a, b);
    } else if |b| < |a| {
      ShorterLess(b, a);
    } else {
      TextOrderIsValueOrder(a, b);
    }
  }

  /** Two indexes of one operation compare as texts as they do as numbers exactly if they are aligned. */
  lemma IndexOrder(i: nat, j: nat)
    ensures
      var a, b := PadStart(ToText(i), 10), PadStart(ToText(j), 10);
      (TextLess(a, b) <==> i < j) <==> Aligned(i, j)
  {
    var a, b := PadStart(ToText(i), 10), PadStart(ToText(j), 10);
    PadValue(i, 10);
    PadValue(j, 10);
    if |a| < |b| { WiderIsLarger(i, j); }
    if |b| < |a| { WiderIsLarger(j, i); }
    hide ToText, PadStart, TextLess, ValueOf, AlignedAs, AllDigits;
    TextOrderIsAligned(a, b);
  }

  lemma WiderIsLarger(i: nat, j: nat)
    requires Width(i) < Width(j)
    ensures i < j
  {
    TextLength(i, Width(i));
    TextLength(j, Width(i));
    hide ToText, Pow10;
  }

  /** The IDs in their parts. */
  lemma IdsCompare(p: Position, q: Position)
    requires InRange(p) && InRange(q)
    ensures IdOf(p).Ok? && IdOf(q).Ok?
    ensures
      var i, j := PadStart(ToText(p.eventIndex), 10), PadStart(ToText(q.eventIndex), 10);
      TextLess(IdOf(p).value, IdOf(q).value) <==>
        Packed(p) < Packed(q) || (Packed(p) == Packed(q) && TextLess(i, j))
  {
    IdShape(p);
    IdShape(q);
    hide ToText, PadStart, IdOf, ValueOf, Packed, TextLess;
    var t, u := PadStart(ToText(Packed(p)), 19), PadStart(ToText(Packed(q)), 19);
    PrefixDecides(t, PadStart(ToText(p.eventIndex), 10), u, PadStart(ToText(q.eventIndex), 10));
  }

  lemma PrefixDecides(t: string, i: string, u: string, j: string)
    requires AllDigits(t) && AllDigits(u) && |t| == |u|
    ensures TextLess(t + "-" + i, u + "-" + j) <==>
            ValueOf(t) < ValueOf(u) || (ValueOf(t) == ValueOf(u) && TextLess(i, j))
  {
    assert !TextLess("-", "-");
    hide ValueOf, TextLess;
    TextOrderIsValueOrder(t, u);
    hide AllDigits;
    TextLessConcat(t + "-", i, u + "-", j);
    TextLessConcat(t, "-", u, "-");
    assert t + "-" == u + "-" ==> t == (t + "-")[..|t|] == (u + "-")[..|u|] == u;
    if ValueOf(t) == ValueOf(u) { ValueInjective(t, u); }
  }

  lemma SamePacked(p: Position, q: Position)
    requires InRange(p) && InRange(q)
    ensures Packed(p) == Packed(q) <==> SameOperation(p, q)
    ensures !SameOperation(p, q) ==> (Packed(p) < Packed(q) <==> Earlier(p, q))
    ensures SameOperation(p, q) ==> (p.eventIndex < q.eventIndex <==> Earlier(p, q))
  {
    var p0, q0 := p.(eventIndex := 0), q.(eventIndex := 0);
    PackedIsLexicographic(p0, q0);
    PackedIsLexicographic(q0, p0);
    hide Packed;
    assert Packed(p0) == Packed(p) && Packed(q0) == Packed(q) by { SameFields(p); SameFields(q); }
  }

  lemma SameFields(p: Position)
    ensures Packed(p.(eventIndex := 0)) == Packed(p)
  {
  }

  /**
   * For all positions in range: the IDs sort as strings as the positions do on the chain if and only if
   * the positions belong to different operations or their event indexes are aligned.
   */
  lemma IdsSortExactlyIfAligned(p: Position, q: Position)
    requires InRange(p) && InRange(q)
    ensures IdOf(p).Ok? && IdOf(q).Ok?
    ensures (TextLess(IdOf(p).value, IdOf(q).value) <==> Earlier(p, q))
       <==> !SameOperation(p, q) || Aligned(p.eventIndex, q.eventIndex)
  {
    IdsCompare(p, q);
    SamePacked(p, q);
    IndexOrder(p.eventIndex, q.eventIndex);
    hide *;
  }

  /** Below 10^10 all indexes have ten digits, so that IDs sort as strings in chain order. */
  lemma IdsSortInChainOrder(p: Position, q: Position)
    requires InRange(p) && InRange(q) && p.eventIndex < 10_000_000_000 && q.eventIndex < 10_000_000_000
    ensures IdOf(p).Ok? && IdOf(q).Ok?
    ensures TextLess(IdOf(p).value, IdOf(q).value) <==> Earlier(p, q)
  {
    IdsSortExactlyIfAligned(p, q);
    Pow10Values();
    PadValue(p.eventIndex, 10);
    PadValue(q.eventIndex, 10);
    hide TextLess, Earlier, IdOf, ToText, PadStart, Pow10;
  }

  /** With eleven digits it breaks: event 10^10 of an operation sorts before its event 2 * 10^9. */
  lemma ElevenDigitsBreakTheOrder(p: Position)
    requires InRange(p)
    ensures
      var q, r := p.(eventIndex := 2_000_000_000), p.(eventIndex := 10_000_000_000);
      Earlier(q, r) && IdOf(q).Ok? && IdOf(r).Ok? && TextLess(IdOf(r).value, IdOf(q).value)
  {
    var i, j: nat := 2_000_000_000, 10_000_000_000;
    IdsSortExactlyIfAligned(p.(eventIndex := i), p.(eventIndex := j));
    IdsSortExactlyIfAligned(p.(eventIndex := j), p.(eventIndex := i));
    NotAligned(i, j);
    hide TextLess, IdOf, Aligned;
  }

  lemma NotAligned(i: nat, j: nat)
    requires i == 2_000_000_000 && j == 10_000_000_000
    ensures !Aligned(i, j) && !Aligned(j, i)
  {
    Pow10Values();
    PadValue(i, 10);
    PadValue(j, 10);
    ElevenDigits(j);
    assert Pow10(1) == 10;
    hide ToText, PadStart, Pow10;
  }

  lemma ElevenDigits(j: nat)
    requires j == 10_000_000_000
    ensures Width(j) == 11
  {
    Pow10Values();
    assert Pow10(11) == 10 * Pow10(10);
    TextLength(j, 10);
    TextLength(j, 11);
    hide ToText, Pow10;
  }

  // ---------- IDs of raw RPC events ----------

  /** A field of a raw event: missing, an integer, or anything else. */
  datatype Field = Absent | Integer(n: int) | Other

  /** `id` is None unless it is a string. */
  datatype RpcEvent = RpcEvent(id: Option<string>, ledger: Field, txOrder: Field, opIndex: Field, eventIndex: Field)

  function EventIdFromRpc(ev: RpcEvent): Result<Option<string>, RangeError> {
    if ev.id.Some? && Canonical(ev.id.value) then Ok(ev.id)
    else if ev.ledger.Integer? && ev.txOrder.Integer? && ev.eventIndex.Integer? then
      if ev.opIndex.Other? then
        match Toid(ev.ledger.n, ev.txOrder.n, 0)
        case Err(e) => Err(e)
        case Ok(_) => Err(OpIndexOutOfRange)
      else
        match Toid(ev.ledger.n, ev.txOrder.n, if ev.opIndex.Absent? then 0 else ev.opIndex.n)
        case Err(e) => Err(e)
        case Ok(toid) =>
          match FormatEventId(toid, ev.eventIndex.n)
          case Err(e) => Err(e)
          case Ok(id) => Ok(Some(id))
    else Ok(None)
  }

  /** The event names this position, by a canonical ID of its own or, without one, by its fields. */
  predicate Names(ev: RpcEvent, p: Position) {
    if ev.id.Some? && Canonical(ev.id.value) then ParseEventId(ev.id.value) == Some(p)
    else
      && ev.ledger == Integer(p.ledger) && ev.txOrder == Integer(p.txOrder) && ev.eventIndex == Integer(p.eventIndex)
      && (ev.opIndex == Integer(p.opIndex) || (ev.opIndex == Absent && p.opIndex == 0))
  }

  /** The ID of the event, or its range error, is that of the position. */
  predicate GetsIdOf(ev: RpcEvent, p: Position) {
    match IdOf(p)
    case Ok(id) => EventIdFromRpc(ev) == Ok(Some(id))
    case Err(e) => EventIdFromRpc(ev) == Err(e)
  }

  /**
   * However an event names its position, its ID is the one derived from that position, so two indexers agree,
   * if and only if it is not an RPC ID whose ledger needs a 32nd bit, which passes unchanged.
   */
  lemma RpcIdIsDerived(ev: RpcEvent, p: Position)
    requires Names(ev, p)
    ensures GetsIdOf(ev, p) <==> !(ev.id.Some? && Canonical(ev.id.value)) || p.ledger <= 0x7fffffff
  {
    if ev.id.Some? && Canonical(ev.id.value) {
      FormatInvertsParse(ev.id.value);
    }
    hide IdOf, ParseEventId, Canonical;
  }

  /** Without an ID of its own an event is refused exactly for the first of its fields that is out of range. */
  lemma RpcRangeErrors(ev: RpcEvent)
    ensures
      var r := EventIdFromRpc(ev);
      var derived := !(ev.id.Some? && Canonical(ev.id.value))
                     && ev.ledger.Integer? && ev.txOrder.Integer? && ev.eventIndex.Integer?;
      var l, t := derived && 0 <= ev.ledger.n < 2_147_483_648, derived && 0 <= ev.txOrder.n < 1_048_576;
      var o := ev.opIndex == Absent || (ev.opIndex.Integer? && 0 <= ev.opIndex.n < 4096);
      && (r == Err(LedgerOutOfRange) <==> derived && !l) && (r == Err(TxOrderOutOfRange) <==> l && !t)
      && (r == Err(OpIndexOutOfRange) <==> l && t && !o)
      && (r == Err(EventIndexOutOfRange) <==> l && t && o && ev.eventIndex.n < 0)
      && (ev.id.Some? && Canonical(ev.id.value) ==> r == Ok(ev.id))
      && (r == Ok(None) <==> !derived && !(ev.id.Some? && Canonical(ev.id.value)))
  {
    hide Canonical, PadStart, ToText, Or, Shl;
  }

  /** The ID is canonical, or there is none, exactly when it does not come from an index of eleven digits. */
  lemma RpcIdIsCanonical(ev: RpcEvent)
    requires EventIdFromRpc(ev).Ok?
    ensures match EventIdFromRpc(ev).value
            case None =>
              && (ev.id.None? || !Canonical(ev.id.value))
              && !(ev.ledger.Integer? && ev.txOrder.Integer? && ev.eventIndex.Integer?)
            case Some(id) =>
              Canonical(id) <==> (ev.id.Some? && Canonical(ev.id.value)) || ev.eventIndex.n < 10_000_000_000
  {
    var r := EventIdFromRpc(ev).value;
    if r.Some? && !(ev.id.Some? && Canonical(ev.id.value)) {
      var p := Position(ev.ledger.n, ev.txOrder.n, if ev.opIndex.Absent? then 0 else ev.opIndex.n, ev.eventIndex.n);
      DerivedShape(p, r.value);
    }
  }

  lemma DerivedShape(p: Position, id: string)
    requires InRange(p) && IdOf(p) == Ok(id)
    ensures Canonical(id) <==> p.eventIndex < 10_000_000_000
  {
    IdShape(p);
    hide ToText, PadStart, IdOf, ValueOf, Packed;
    var t, i := PadStart(ToText(Packed(p)), 19), PadStart(ToText(p.eventIndex), 10);
    assert |id| == 20 + |i|;
    assert id[..19] == t && id[20..] == i;
  }
}
