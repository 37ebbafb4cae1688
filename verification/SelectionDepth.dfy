/** The depth of a GraphQL selection (`maxSelectionDepth` in indexer/src/graphql.js). */
module SelectionDepth {
  import opened Basics

  /** A field without a selection set is a field with an empty one: both add one level and nothing below it. */
  datatype Selection = Field(fields: seq<Selection>) | InlineFragment(inner: seq<Selection>) | Spread(name: string)

  type Fragments = map<string, seq<Selection>>

  // ---------- what the walk computes ----------

  /** The deepest field level below `d`, entering a fragment only if it is not being visited already. */
  function Depth(ss: seq<Selection>, frags: Fragments, d: nat, visited: set<string>): (r: nat)
    ensures r >= d
    decreases |frags.Keys - visited|, ss
  {
    if ss == [] then d else Max(DepthOfOne(ss[0], frags, d, visited), Depth(ss[1..], frags, d, visited))
  }

  function DepthOfOne(s: Selection, frags: Fragments, d: nat, visited: set<string>): (r: nat)
    ensures r >= d
    decreases |frags.Keys - visited|, s
  {
    match s
    case Field(fields) => Depth(fields, frags, d + 1, visited)
    case InlineFragment(inner) => Depth(inner, frags, d, visited)
    case Spread(x) =>
      if x !in visited && x in frags then
        FewerLeft(frags, visited, x);
        Depth(frags[x], frags, d, visited + {x})
      else d
  }

  lemma FewerLeft(frags: Fragments, visited: set<string>, x: string)
    requires x in frags && x !in visited
    ensures |frags.Keys - (visited + {x})| < |frags.Keys - visited|
  {
    assert frags.Keys - visited == frags.Keys - (visited + {x}) + {x};
  }

  class DepthWalk {
    const fragments: Fragments
    var visited: set<string>

    constructor (fragments: Fragments)
      ensures this.fragments == fragments && visited == {}
    {
      this.fragments, this.visited := fragments, {};
    }

    /** Ends on every document, cyclic ones included, and leaves the shared set as it found it. */
    method MaxSelectionDepth(ss: seq<Selection>, depth: nat) returns (maxDepth: nat)
      modifies this
      ensures visited == old(visited)
      ensures maxDepth == Depth(ss, fragments, depth, visited)
      decreases |fragments.Keys - visited|, ss
    {
      hide Depth, DepthOfOne;
      maxDepth := depth;
      for i := 0 to |ss|
        invariant visited == old(visited) && maxDepth >= depth
        invariant Max(maxDepth, Depth(ss[i..], fragments, depth, visited)) == Depth(ss, fragments, depth, visited)
      {
        var selection := ss[i];
        Unfold(ss, i, fragments, depth, visited);
        if selection.Field? {
          maxDepth := Max(maxDepth, depth + 1);
          var below := MaxSelectionDepth(selection.fields, depth + 1);
          maxDepth := Max(maxDepth, below);
        } else if selection.InlineFragment? {
          var below := MaxSelectionDepth(selection.inner, depth);
          maxDepth := Max(maxDepth, below);
        } else if selection.name !in visited {
          if selection.name in fragments {
            FewerLeft(fragments, visited, selection.name);
            visited := visited + {selection.name};
            var below := MaxSelectionDepth(fragments[selection.name], depth);
            maxDepth := Max(maxDepth, below);
            visited := visited - {selection.name};
          }
        }
      }
      Unfold(ss, |ss|, fragments, depth, visited);
    }
  }

  lemma Unfold(ss: seq<Selection>, i: nat, frags: Fragments, d: nat, visited: set<string>)
    requires i <= |ss|
    ensures i == |ss| ==> Depth(ss[i..], frags, d, visited) == d
    ensures i < |ss| ==>
      Depth(ss[i..], frags, d, visited)
      == Max(DepthOfOne(ss[i], frags, d, visited), Depth(ss[i + 1..], frags, d, visited))
    ensures i < |ss| && ss[i].Field? ==>
      DepthOfOne(ss[i], frags, d, visited) == Depth(ss[i].fields, frags, d + 1, visited)
    ensures i < |ss| && ss[i].InlineFragment? ==>
      DepthOfOne(ss[i], frags, d, visited) == Depth(ss[i].inner, frags, d, visited)
    ensures i < |ss| && ss[i].Spread? ==>
      var x := ss[i].name;
      DepthOfOne(ss[i], frags, d, visited)
      == if x !in visited && x in frags then Depth(frags[x], frags, d, visited + {x}) else d
  {
  }

  // ---------- inlining ----------

  /** Every spread replaced by its fragment, `n` levels of spreads deep; unknown fragments select nothing. */
  function Inlined(n: nat, ss: seq<Selection>, frags: Fragments): seq<Selection>
    decreases n, ss
  {
    if ss == [] then [] else InlinedOne(n, ss[0], frags) + Inlined(n, ss[1..], frags)
  }

  function InlinedOne(n: nat, s: Selection, frags: Fragments): seq<Selection>
    decreases n, s
  {
    match s
    case Field(fields) => [Field(Inlined(n, fields, frags))]
    case InlineFragment(inner) => Inlined(n, inner, frags)
    case Spread(x) =>
      if x !in frags then [] else if n == 0 then [s] else Inlined(n - 1, frags[x], frags)
  }

  /** The selection tree consists of fields only. */
  predicate OnlyFields(ss: seq<Selection>) {
    ss == [] || (ss[0].Field? && OnlyFields(ss[0].fields) && OnlyFields(ss[1..]))
  }

  /** How many fields are nested in each other. */
  function FieldDepth(ss: seq<Selection>): nat {
    if ss == [] then 0 else
      var first := match ss[0]
        case Field(fields) => 1 + FieldDepth(fields)
        case InlineFragment(inner) => FieldDepth(inner)
        case Spread(_) => 0;
      Max(first, FieldDepth(ss[1..]))
  }

  lemma {:induction false} ConcatFields(a: seq<Selection>, b: seq<Selection>)
    ensures FieldDepth(a + b) == Max(FieldDepth(a), FieldDepth(b))
    ensures OnlyFields(a + b) <==> OnlyFields(a) && OnlyFields(b)
  {
    if a == [] {
      assert a + b == b;
    } else {
      assert (a + b)[1..] == a[1..] + b;
      ConcatFields(a[1..], b);
    }
  }

  lemma SingleField(fields: seq<Selection>)
    ensures FieldDepth([Field(fields)]) == 1 + FieldDepth(fields)
    ensures OnlyFields([Field(fields)]) <==> OnlyFields(fields)
  {
    assert [Field(fields)][1..] == [];
  }

  lemma InlinedParts(n: nat, ss: seq<Selection>, frags: Fragments)
    requires ss != []
    ensures
      var all, one, rest := Inlined(n, ss, frags), InlinedOne(n, ss[0], frags), Inlined(n, ss[1..], frags);
      && all == one + rest && (OnlyFields(all) <==> OnlyFields(one) && OnlyFields(rest))
      && FieldDepth(all) == Max(FieldDepth(one), FieldDepth(rest))
  {
    hide InlinedOne, OnlyFields, FieldDepth;
    ConcatFields(InlinedOne(n, ss[0], frags), Inlined(n, ss[1..], frags));
  }

  /** Once every spread has been replaced, further levels change nothing. */
  lemma {:induction false} InlinedStays(k: nat, n: nat, ss: seq<Selection>, frags: Fragments)
    requires OnlyFields(Inlined(k, ss, frags)) && k <= n
    ensures Inlined(n, ss, frags) == Inlined(k, ss, frags)
    decreases k, ss
  {
    if ss != [] {
      InlinedParts(k, ss, frags);
      InlinedParts(n, ss, frags);
      InlinedStays(k, n, ss[1..], frags);
      hide Inlined, OnlyFields, FieldDepth;
      match ss[0]
      case Field(fields) =>
        SingleField(Inlined(k, fields, frags));
        InlinedStays(k, n, fields, frags);
      case InlineFragment(inner) =>
        InlinedStays(k, n, inner, frags);
      case Spread(x) =>
        LoneSpread(x);
        if x in frags { InlinedStays(k - 1, n - 1, frags[x], frags); }
    }
  }

  lemma LoneSpread(x: string)
    ensures !OnlyFields([Spread(x)])
  {
  }

  // ---------- the walk and the tree ----------

  /** The fewest levels that inline fragment `x` fully. */
  lemma {:induction false} Fewest(x: string, n: nat, frags: Fragments) returns (m: nat)
    requires x in frags && OnlyFields(Inlined(n, frags[x], frags))
    ensures m <= n && OnlyFields(Inlined(m, frags[x], frags))
    ensures forall j: nat :: j < m ==> !OnlyFields(Inlined(j, frags[x], frags))
  {
    m := n;
    if j: nat :| j < n && OnlyFields(Inlined(j, frags[x], frags)) {
      m := Fewest(x, j, frags);
    }
  }

  /** None of the fragments being visited can be inlined in fewer than `n` levels. */
  ghost predicate Barred(n: nat, frags: Fragments, visited: set<string>) {
    forall z, j: nat :: z in visited && z in frags && j < n ==> !OnlyFields(Inlined(j, frags[z], frags))
  }

  /** Where the tree exists, no spread on its way leads back into a fragment being visited. */
  lemma {:induction false} WalkAgrees(n: nat, ss: seq<Selection>, frags: Fragments, d: nat, visited: set<string>)
    requires OnlyFields(Inlined(n, ss, frags)) && Barred(n, frags, visited)
    ensures Depth(ss, frags, d, visited) == d + FieldDepth(Inlined(n, ss, frags))
    decreases n, ss, 0
  {
    if ss != [] {
      InlinedParts(n, ss, frags);
      WalkAgrees(n, ss[1..], frags, d, visited);
      hide Inlined, OnlyFields, FieldDepth, Barred;
      match ss[0]
      case Field(fields) =>
        SingleField(Inlined(n, fields, frags));
        WalkAgrees(n, fields, frags, d + 1, visited);
      case InlineFragment(inner) =>
        WalkAgrees(n, inner, frags, d, visited);
      case Spread(x) =>
        LoneSpread(x);
        if x in frags {
          SpreadAgrees(n - 1, x, frags, d, visited);
        } else {
          NothingInlined();
        }
    }
  }

  lemma NothingInlined()
    ensures FieldDepth([]) == 0 && OnlyFields([])
  {
  }

  lemma {:induction false} SpreadAgrees(k: nat, x: string, frags: Fragments, d: nat, visited: set<string>)
    requires x in frags && OnlyFields(Inlined(k, frags[x], frags)) && Barred(k + 1, frags, visited)
    ensures x !in visited
    ensures Depth(frags[x], frags, d, visited + {x}) == d + FieldDepth(Inlined(k, frags[x], frags))
    decreases k, frags[x], 1
  {
    hide Inlined, OnlyFields, FieldDepth, Depth;
    var m := Fewest(x, k, frags);
    InlinedStays(m, k, frags[x], frags);
    WalkAgrees(m, frags[x], frags, d, visited + {x});
  }

  /** Wherever the fully inlined selection exists, the result is its depth. */
  lemma DepthIsInlinedDepth(ss: seq<Selection>, frags: Fragments, n: nat)
    requires OnlyFields(Inlined(n, ss, frags))
    ensures Depth(ss, frags, 0, {}) == FieldDepth(Inlined(n, ss, frags))
  {
    WalkAgrees(n, ss, frags, 0, {});
  }

  // ---------- fragment cycles ----------

  /** Some selection in `ss`, at whatever level, spreads fragment `x`. */
  predicate SpreadsIn(ss: seq<Selection>, x: string) {
    ss != [] &&
    ((match ss[0]
      case Field(fields) => SpreadsIn(fields, x)
      case InlineFragment(inner) => SpreadsIn(inner, x)
      case Spread(y) => x == y)
     || SpreadsIn(ss[1..], x))
  }

  predicate SpreadFrom(frags: Fragments, a: string, b: string) {
    a in frags && b in frags && SpreadsIn(frags[a], b)
  }

  /** A chain of known fragments, each spread in the one before it and the first one in `ss`. */
  ghost predicate Chain(frags: Fragments, ss: seq<Selection>, path: seq<string>) {
    && path != [] && path[0] in frags && SpreadsIn(ss, path[0])
    && forall i :: 0 <= i < |path| - 1 ==> SpreadFrom(frags, path[i], path[i + 1])
  }

  /** No chain comes back to a fragment: section 5.5.2.2 of the October 2021 GraphQL specification, as far as `ss` leads. */
  ghost predicate CycleFree(frags: Fragments, ss: seq<Selection>) {
    forall path, i, j :: Chain(frags, ss, path) && 0 <= i < j < |path| ==> path[i] != path[j]
  }

  /** `ss` may occur at the end of `path`: whatever known fragment it spreads continues the chain. */
  ghost predicate Inside(frags: Fragments, root: seq<Selection>, path: seq<string>, ss: seq<Selection>) {
    forall x :: SpreadsIn(ss, x) && x in frags ==> Chain(frags, root, path + [x])
  }

  function Names(path: seq<string>): set<string> {
    set x | x in path
  }

  lemma InsideNext(frags: Fragments, root: seq<Selection>, path: seq<string>, x: string)
    requires x in frags && Chain(frags, root, path + [x])
    ensures Inside(frags, root, path + [x], frags[x])
  {
    forall y | SpreadsIn(frags[x], y) && y in frags
      ensures Chain(frags, root, path + [x] + [y])
    {
      var next := path + [x] + [y];
      assert next[0] == (path + [x])[0];
      forall i | 0 <= i < |next| - 1
        ensures SpreadFrom(frags, next[i], next[i + 1])
      {
        assert next[i] == (path + [x])[i];
        if i < |path| { assert next[i + 1] == (path + [x])[i + 1]; }
      }
    }
  }

  lemma NewInChain(frags: Fragments, root: seq<Selection>, path: seq<string>, x: string)
    requires CycleFree(frags, root) && Chain(frags, root, path + [x])
    ensures x !in path
  {
    hide Chain;
    var next := path + [x];
    forall i | 0 <= i < |path|
      ensures path[i] != x
    {
      assert next[i] == path[i] && next[|path|] == x;
    }
  }

  lemma SpreadEnters(frags: Fragments, root: seq<Selection>, path: seq<string>, x: string)
    requires CycleFree(frags, root) && x in frags && Chain(frags, root, path + [x])
    ensures Inside(frags, root, path + [x], frags[x])
    ensures |frags.Keys - Names(path + [x])| < |frags.Keys - Names(path)|
  {
    NewInChain(frags, root, path, x);
    FewerLeft(frags, Names(path), x);
    assert Names(path + [x]) == Names(path) + {x};
    InsideNext(frags, root, path, x);
  }

  lemma InsideParts(frags: Fragments, root: seq<Selection>, path: seq<string>, ss: seq<Selection>)
    requires ss != [] && Inside(frags, root, path, ss)
    ensures Inside(frags, root, path, ss[1..])
    ensures ss[0].Field? ==> Inside(frags, root, path, ss[0].fields)
    ensures ss[0].InlineFragment? ==> Inside(frags, root, path, ss[0].inner)
    ensures ss[0].Spread? && ss[0].name in frags ==> Chain(frags, root, path + [ss[0].name])
  {
    hide Chain;
  }

  /** As many levels as there are fragments not yet on the path inline everything. */
  lemma {:induction false} Inlines(n: nat, ss: seq<Selection>, frags: Fragments, root: seq<Selection>, path: seq<string>)
    requires CycleFree(frags, root) && Inside(frags, root, path, ss) && |frags.Keys - Names(path)| <= n
    ensures OnlyFields(Inlined(n, ss, frags))
    decreases n, ss
  {
    if ss != [] {
      InsideParts(frags, root, path, ss);
      InlinedParts(n, ss, frags);
      hide CycleFree, Inside, Names, Inlined, FieldDepth, OnlyFields, Chain, SpreadsIn;
      Inlines(n, ss[1..], frags, root, path);
      match ss[0]
      case Field(fields) =>
        Inlines(n, fields, frags, root, path);
        SingleField(Inlined(n, fields, frags));
      case InlineFragment(inner) =>
        Inlines(n, inner, frags, root, path);
      case Spread(x) =>
        if x in frags {
          SpreadEnters(frags, root, path, x);
          Inlines(n - 1, frags[x], frags, root, path + [x]);
        } else {
          NothingInlined();
        }
    }
  }

  lemma {:induction false} SpreadInlines(n: nat, ss: seq<Selection>, frags: Fragments, x: string)
    requires OnlyFields(Inlined(n, ss, frags)) && SpreadsIn(ss, x) && x in frags
    ensures n > 0 && OnlyFields(Inlined(n - 1, frags[x], frags))
    decreases n, ss
  {
    InlinedParts(n, ss, frags);
    hide Inlined, OnlyFields, FieldDepth;
    if SpreadsIn(ss[1..], x) {
      SpreadInlines(n, ss[1..], frags, x);
    } else {
      match ss[0]
      case Field(fields) =>
        SingleField(Inlined(n, fields, frags));
        SpreadInlines(n, fields, frags, x);
      case InlineFragment(inner) =>
        SpreadInlines(n, inner, frags, x);
      case Spread(_) =>
        LoneSpread(x);
    }
  }

  /** Along a chain the fragments take fewer and fewer levels. */
  lemma {:induction false} ChainDescends(frags: Fragments, path: seq<string>, i: nat, j: nat, n: nat) returns (m: nat)
    requires forall k :: 0 <= k < |path| - 1 ==> SpreadFrom(frags, path[k], path[k + 1])
    requires i < j < |path| && path[i] in frags && OnlyFields(Inlined(n, frags[path[i]], frags))
    ensures m < n && path[j] in frags && OnlyFields(Inlined(m, frags[path[j]], frags))
    decreases j - i
  {
    hide Inlined, OnlyFields;
    SpreadInlines(n, frags[path[i]], frags, path[i + 1]);
    if i + 1 == j {
      m := n - 1;
    } else {
      m := ChainDescends(frags, path, i + 1, j, n - 1);
    }
  }

  lemma TreeHasNoCycle(ss: seq<Selection>, frags: Fragments, n: nat)
    requires OnlyFields(Inlined(n, ss, frags))
    ensures CycleFree(frags, ss)
  {
    hide Inlined, OnlyFields;
    forall path, i, j | Chain(frags, ss, path) && 0 <= i < j < |path|
      ensures path[i] != path[j]
    {
      SpreadInlines(n, ss, frags, path[0]);
      var k := n - 1;
      if i > 0 { k := ChainDescends(frags, path, 0, i, n - 1); }
      k := Fewest(path[i], k, frags);
      var m := ChainDescends(frags, path, i, j, k);
    }
  }

  /** The fully inlined selection exists if and only if the selection leads into no cycle of fragments. */
  lemma TreeExists(ss: seq<Selection>, frags: Fragments)
    ensures OnlyFields(Inlined(|frags|, ss, frags)) <==> CycleFree(frags, ss)
    ensures forall n: nat :: OnlyFields(Inlined(n, ss, frags)) ==> CycleFree(frags, ss)
  {
    forall n: nat | OnlyFields(Inlined(n, ss, frags))
      ensures CycleFree(frags, ss)
    {
      TreeHasNoCycle(ss, frags, n);
    }
    if CycleFree(frags, ss) {
      assert frags.Keys - Names([]) == frags.Keys;
      forall x | SpreadsIn(ss, x) && x in frags
        ensures Chain(frags, ss, [] + [x])
      {
      }
      hide CycleFree, Chain, Inlined, OnlyFields, Names;
      Inlines(|frags|, ss, frags, ss, []);
    }
  }

  const CYCLIC: Fragments := map["F" := [Field([Spread("F")])]]

  lemma CyclicDepth()
    ensures Depth([Spread("F")], CYCLIC, 0, {}) == 1
  {
    var spread := [Spread("F")];
    var body := [Field(spread)];
    assert spread[1..] == [] && body[1..] == [] && CYCLIC["F"] == body && {} + {"F"} == {"F"};
    assert Depth(spread, CYCLIC, 1, {"F"}) == 1;
    assert DepthOfOne(body[0], CYCLIC, 0, {"F"}) == 1;
    assert Depth(body, CYCLIC, 0, {"F"}) == 1;
    assert DepthOfOne(spread[0], CYCLIC, 0, {}) == 1;
  }

  /** On a cyclic document it stays at one: each time around the cycle nests one field deeper, and the tree never ends. */
  lemma CyclesAreCutShort(n: nat)
    ensures !CycleFree(CYCLIC, [Spread("F")])
    ensures Depth([Spread("F")], CYCLIC, 0, {}) == 1
    ensures FieldDepth(Inlined(n, [Spread("F")], CYCLIC)) == n && !OnlyFields(Inlined(n, [Spread("F")], CYCLIC))
  {
    CyclicDepth();
    CycleInlines(n);
    CycleInlines(|CYCLIC|);
    TreeExists([Spread("F")], CYCLIC);
    hide *;
  }

  lemma {:induction false} CycleInlines(n: nat)
    ensures FieldDepth(Inlined(n, [Spread("F")], CYCLIC)) == n && !OnlyFields(Inlined(n, [Spread("F")], CYCLIC))
  {
    InlinedSingle(n, Spread("F"), CYCLIC);
    if n > 0 {
      CycleInlines(n - 1);
      InlinedSingle(n - 1, Field([Spread("F")]), CYCLIC);
      SingleField(Inlined(n - 1, [Spread("F")], CYCLIC));
      hide Inlined, FieldDepth;
    }
  }

  lemma InlinedSingle(n: nat, s: Selection, frags: Fragments)
    ensures Inlined(n, [s], frags) == InlinedOne(n, s, frags)
  {
    assert [s][1..] == [];
    hide InlinedOne;
  }
}
