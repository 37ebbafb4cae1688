/**
 * The `events` table as the readers see it: rows in the order of their unique `seq`,
 * and the one query shape they use, WHERE filter AND seq bound ORDER BY seq.
 */
module Events {
  import opened Wrappers
  import opened Basics

  /** The values of a BIGSERIAL column. */
  type Serial = n: int | 0 < n witness 1

  /** None stands for NULL, and `others` for the columns that no query here compares and no hash covers. */
  datatype Event = Event(
    seqNo: Serial, network: string, contract: Option<string>, fn: string, ledger: nat,
    description: string, rawData: Option<string>, others: string)

  datatype Kind = AnyKind | Soroban | Classic

  /** None, or no function names at all, stands for a condition that the query leaves out. */
  datatype Filter = Filter(
    network: Option<string>, contract: Option<string>, fns: seq<string>, kind: Kind,
    fromLedger: Option<nat>, toLedger: Option<nat>)

  const NO_FILTER := Filter(None, None, [], AnyKind, None, None)

  predicate IsSoroban(e: Event) {
    e.contract.Some? && e.contract.value != ""
  }

  predicate Matches(f: Filter, e: Event) {
    && (f.network.Some? ==> e.network == f.network.value)
    && (f.contract.Some? ==> e.contract == f.contract)
    && (f.fns != [] ==> e.fn in f.fns)
    && (f.kind == Soroban ==> IsSoroban(e))
    && (f.kind == Classic ==> !IsSoroban(e))
    && (f.fromLedger.Some? ==> e.ledger >= f.fromLedger.value)
    && (f.toLedger.Some? ==> e.ledger <= f.toLedger.value)
  }

  datatype Bound = Unbounded | Below(pos: int) | Above(pos: int)

  predicate Admits(b: Bound, n: nat) {
    match b
    case Unbounded => true
    case Below(a) => n < a
    case Above(a) => n > a
  }

  /** `seq` is the primary key: a table is its rows in ascending order. */
  predicate Ordered(t: seq<Event>) {
    forall i, j :: 0 <= i < j < |t| ==> t[i].seqNo < t[j].seqNo
  }

  function Keep(f: Filter, b: Bound, e: Event): seq<Event> {
    if Matches(f, e) && Admits(b, e.seqNo) then [e] else []
  }

  /** The rows a query selects, in ascending order. */
  function Rows(t: seq<Event>, f: Filter, b: Bound): seq<Event> {
    if t == [] then [] else Keep(f, b, t[0]) + Rows(t[1..], f, b)
  }

  function Reverse<T>(s: seq<T>): (r: seq<T>)
    ensures |r| == |s|
  {
    seq(|s|, i requires 0 <= i < |s| => s[|s| - 1 - i])
  }

  lemma ReverseConcat<T>(a: seq<T>, b: seq<T>)
    ensures Reverse(a + b) == Reverse(b) + Reverse(a)
  {
  }

  lemma ReverseMember<T>(s: seq<T>)
    ensures forall x :: x in Reverse(s) <==> x in s
  {
    forall x | x in s
      ensures x in Reverse(s)
    {
      var i :| 0 <= i < |s| && s[i] == x;
      assert Reverse(s)[|s| - 1 - i] == x;
    }
  }

  lemma {:induction false} RowsMember(t: seq<Event>, f: Filter, b: Bound, e: Event)
    ensures e in Rows(t, f, b) <==> e in t && Matches(f, e) && Admits(b, e.seqNo)
  {
    if t != [] {
      RowsMember(t[1..], f, b, e);
      assert t == [t[0]] + t[1..];
    }
  }

  /** A selection in terms of the columns: a filter's conditions, each left out if it names nothing, and the bound. */
  lemma WhatIsSelected(t: seq<Event>, f: Filter, b: Bound, e: Event)
    requires Ordered(t)
    ensures Ordered(Rows(t, f, b))
    ensures e in Rows(t, f, b) <==>
      && e in t
      && (f.network == None || f.network == Some(e.network)) && (f.contract == None || f.contract == e.contract)
      && (f.fns == [] || e.fn in f.fns)
      && (f.kind == Soroban ==> e.contract != None && e.contract != Some(""))
      && (f.kind == Classic ==> e.contract == None || e.contract == Some(""))
      && (f.fromLedger == None || f.fromLedger.value <= e.ledger) && (f.toLedger == None || e.ledger <= f.toLedger.value)
      && (b.Below? ==> e.seqNo < b.pos) && (b.Above? ==> b.pos < e.seqNo)
  {
    RowsMember(t, f, b, e);
    RowsOrdered(t, f, b);
    hide Rows, Ordered;
  }

  lemma {:induction false} RowsOrdered(t: seq<Event>, f: Filter, b: Bound)
    requires Ordered(t)
    ensures Ordered(Rows(t, f, b))
  {
    if t != [] {
      RowsOrdered(t[1..], f, b);
      assert Rows(t, f, b) == Rows(t[1..], f, b) || Rows(t, f, b) == [t[0]] + Rows(t[1..], f, b);
      hide Rows;
      forall e | e in Rows(t[1..], f, b)
        ensures t[0].seqNo < e.seqNo
      {
        RowsMember(t[1..], f, b, e);
      }
    }
  }

  lemma {:induction false} RowsConcat(t: seq<Event>, u: seq<Event>, f: Filter, b: Bound)
    ensures Rows(t + u, f, b) == Rows(t, f, b) + Rows(u, f, b)
  {
    if t == [] {
      assert t + u == u;
    } else {
      assert (t + u)[1..] == t[1..] + u;
      RowsConcat(t[1..], u, f, b);
      var k, r := Keep(f, b, t[0]), Rows(t[1..], f, b);
      assert k + r + Rows(u, f, b) == k + (r + Rows(u, f, b));
    }
  }

  lemma {:induction false} RowsRebound(t: seq<Event>, f: Filter, b: Bound, c: Bound)
    requires forall e :: e in t ==> (Admits(b, e.seqNo) <==> Admits(c, e.seqNo))
    ensures Rows(t, f, b) == Rows(t, f, c)
  {
    if t != [] {
      RowsRebound(t[1..], f, b, c);
    }
  }

  lemma {:induction false} RowsNone(t: seq<Event>, f: Filter, b: Bound)
    requires forall e :: e in t ==> !Admits(b, e.seqNo)
    ensures Rows(t, f, b) == []
  {
    if t != [] {
      RowsNone(t[1..], f, b);
    }
  }

  lemma RowsAround(t: seq<Event>, f: Filter, b: Bound, k: nat)
    requires k < |t|
    ensures Rows(t, f, b) == Rows(t[..k], f, b) + Keep(f, b, t[k]) + Rows(t[k + 1..], f, b)
  {
    assert t == t[..k] + ([t[k]] + t[k + 1..]);
    assert Rows([t[k]] + t[k + 1..], f, b) == Keep(f, b, t[k]) + Rows(t[k + 1..], f, b);
    RowsConcat(t[..k], [t[k]] + t[k + 1..], f, b);
  }

  lemma RowsBelowAt(t: seq<Event>, f: Filter, b: Bound, k: nat)
    requires Ordered(t) && k < |t| && !b.Above? && Admits(b, t[k].seqNo)
    ensures Rows(t, f, Below(t[k].seqNo)) == Rows(t[..k], f, b)
  {
    RowsAround(t, f, Below(t[k].seqNo), k);
    RowsNone(t[k + 1..], f, Below(t[k].seqNo));
    RowsRebound(t[..k], f, b, Below(t[k].seqNo));
  }

  lemma RowsAboveAt(t: seq<Event>, f: Filter, b: Bound, k: nat)
    requires Ordered(t) && k < |t| && !b.Below? && Admits(b, t[k].seqNo)
    ensures Rows(t, f, Above(t[k].seqNo)) == Rows(t[k + 1..], f, b)
  {
    RowsAround(t, f, Above(t[k].seqNo), k);
    RowsNone(t[..k], f, Above(t[k].seqNo));
    RowsRebound(t[k + 1..], f, b, Above(t[k].seqNo));
  }

  lemma OrderedUnique(s: seq<Event>, i: nat, j: nat)
    requires Ordered(s) && i < |s| && j < |s| && s[i] == s[j]
    ensures i == j
  {
  }

  lemma SplitIndex<T>(a: seq<T>, x: T, b: seq<T>)
    ensures (a + [x] + b)[|a|] == x && (a + [x] + b)[..|a|] == a && (a + [x] + b)[|a| + 1..] == b
  {
  }

  lemma CutApart(rows: seq<Event>, k: nat)
    requires Ordered(rows) && k <= |rows|
    ensures forall e, d :: e in rows[..k] && d in rows[k..] ==> e.seqNo < d.seqNo
    ensures forall e :: e in rows <==> e in rows[..k] || e in rows[k..]
    ensures Ordered(rows[..k]) && Ordered(rows[k..])
  {
    assert rows == rows[..k] + rows[k..];
  }

  /** A bound at a selected row splits the selection right there. */
  lemma RowsSplit(t: seq<Event>, f: Filter, b: Bound, p: nat)
    requires Ordered(t) && p < |Rows(t, f, b)|
    ensures !b.Above? ==> Rows(t, f, Below(Rows(t, f, b)[p].seqNo)) == Rows(t, f, b)[..p]
    ensures !b.Below? ==> Rows(t, f, Above(Rows(t, f, b)[p].seqNo)) == Rows(t, f, b)[p + 1..]
  {
    var e := Rows(t, f, b)[p];
    var k := RowsFind(t, f, b, e);
    RowsAround(t, f, b, k);
    RowsOrdered(t, f, b);
    assert Keep(f, b, e) == [e];
    var i := |Rows(t[..k], f, b)|;
    SplitIndex(Rows(t[..k], f, b), e, Rows(t[k + 1..], f, b));
    hide Rows, Keep, Matches;
    OrderedUnique(Rows(t, f, b), p, i);
    if !b.Above? { RowsBelowAt(t, f, b, k); }
    if !b.Below? { RowsAboveAt(t, f, b, k); }
  }

  lemma RowsFind(t: seq<Event>, f: Filter, b: Bound, e: Event) returns (k: nat)
    requires e in Rows(t, f, b)
    ensures k < |t| && t[k] == e && Matches(f, e) && Admits(b, e.seqNo)
  {
    RowsMember(t, f, b, e);
    k :| 0 <= k < |t| && t[k] == e;
  }

  /** Reading on behind the last row of a page continues exactly where the page stopped. */
  lemma NextPage(t: seq<Event>, f: Filter, after: nat, n: nat)
    requires Ordered(t) && Take(Rows(t, f, Above(after)), n) != []
    ensures
      var rows := Rows(t, f, Above(after));
      var page := Take(rows, n);
      && page[|page| - 1].seqNo > after
      && Rows(t, f, Above(page[|page| - 1].seqNo)) == rows[|page|..]
      && page + rows[|page|..] == rows
  {
    hide Rows, Ordered, Matches;
    var rows := Rows(t, f, Above(after));
    var page := Take(rows, n);
    RowsMember(t, f, Above(after), rows[|page| - 1]);
    RowsSplit(t, f, Above(after), |page| - 1);
  }
}
