/** How deep a query nests, counted before any resolver runs. */
module DepthRule {

  datatype Selection =
    | Field(name: string, selections: seq<Selection>)
    | Inline(selections: seq<Selection>)
    | Spread(fragment: string)

  /** The named fragments of a document. */
  type Fragments = map<string, seq<Selection>>

  predicate Introspective(name: string) {
    |name| >= 2 && name[0] == '_' && name[1] == '_'
  }

  function Deeper(x: nat, y: nat): nat {
    if x >= y then x else y
  }

  ghost function Unvisited(fragments: Fragments, visiting: set<string>): nat {
    |fragments.Keys - visiting|
  }

  lemma {:induction false} VisitingMore(fragments: Fragments, visiting: set<string>, name: string)
    requires name in fragments && name !in visiting
    ensures Unvisited(fragments, visiting + {name}) < Unvisited(fragments, visiting)
  {
    var before, after := fragments.Keys - visiting, fragments.Keys - (visiting + {name});
    assert before == after + {name};
  }

  /** How many fields deep one selection goes; a spread of a fragment being visited adds nothing. */
  function DepthOfOne(selection: Selection, fragments: Fragments, visiting: set<string>): nat
    decreases Unvisited(fragments, visiting), selection, 1
  {
    match selection
    case Field(name, selections) =>
      if Introspective(name) then 0 else 1 + DepthOf(selections, fragments, visiting)
    case Inline(selections) => DepthOf(selections, fragments, visiting)
    case Spread(name) =>
      if name in visiting || name !in fragments then 0
      else
        VisitingMore(fragments, visiting, name);
        DepthOf(fragments[name], fragments, visiting + {name})
  }

  /** The maximum over a list of selections. The measure that makes it end is the fragments not yet visited. */
  function DepthOf(selections: seq<Selection>, fragments: Fragments, visiting: set<string>): nat
    decreases Unvisited(fragments, visiting), selections, 0
  {
    if selections == [] then 0
    else Deeper(DepthOf(selections[..|selections| - 1], fragments, visiting),
                DepthOfOne(selections[|selections| - 1], fragments, visiting))
  }

  /** The loop keeps the deepest selection found so far. */
  method MeasureDepth(selections: seq<Selection>, fragments: Fragments, visiting: set<string>) returns (deepest: nat)
    ensures deepest == DepthOf(selections, fragments, visiting)
    decreases Unvisited(fragments, visiting), selections
  {
    deepest := 0;
    for i := 0 to |selections|
      invariant deepest == DepthOf(selections[..i], fragments, visiting)
    {
      assert selections[..i + 1][..i] == selections[..i];
      var selection := selections[i];
      if selection.Field? {
        var depth: nat := 0;
        if !Introspective(selection.name) {
          var below := MeasureDepth(selection.selections, fragments, visiting);
          depth := 1 + below;
        }
        deepest := Deeper(deepest, depth);
      } else if selection.Inline? {
        var depth := MeasureDepth(selection.selections, fragments, visiting);
        deepest := Deeper(deepest, depth);
      } else if selection.fragment !in visiting && selection.fragment in fragments {
        VisitingMore(fragments, visiting, selection.fragment);
        var depth := MeasureDepth(fragments[selection.fragment], fragments, visiting + {selection.fragment});
        deepest := Deeper(deepest, depth);
      }
    }
    assert selections[..|selections|] == selections;
  }

  /* ---- inlining ---- */

  /** A rank under which every fragment spreads only lower ones: the table has no cycle. */
  type Ranking = map<string, nat>

  predicate SpreadsBelow(selection: Selection, fragments: Fragments, ranking: Ranking, bound: nat) {
    match selection
    case Field(_, selections) => forall i :: 0 <= i < |selections| ==> SpreadsBelow(selections[i], fragments, ranking, bound)
    case Inline(selections) => forall i :: 0 <= i < |selections| ==> SpreadsBelow(selections[i], fragments, ranking, bound)
    case Spread(name) => name in fragments ==> name in ranking && ranking[name] < bound
  }

  predicate AllSpreadBelow(selections: seq<Selection>, fragments: Fragments, ranking: Ranking, bound: nat) {
    forall i :: 0 <= i < |selections| ==> SpreadsBelow(selections[i], fragments, ranking, bound)
  }

  ghost predicate Acyclic(fragments: Fragments, ranking: Ranking) {
    forall name :: name in fragments ==>
      name in ranking && AllSpreadBelow(fragments[name], fragments, ranking, ranking[name])
  }

  /** A selection with every spread replaced by the fragment it names, and undefined ones by nothing. */
  ghost function Inlined(selection: Selection, fragments: Fragments, ranking: Ranking, bound: nat): Selection
    requires Acyclic(fragments, ranking) && SpreadsBelow(selection, fragments, ranking, bound)
    decreases bound, selection, 1
  {
    match selection
    case Field(name, selections) => Field(name, AllInlined(selections, fragments, ranking, bound))
    case Inline(selections) => Inline(AllInlined(selections, fragments, ranking, bound))
    case Spread(name) =>
      if name in fragments then Inline(AllInlined(fragments[name], fragments, ranking, ranking[name])) else Inline([])
  }

  ghost function AllInlined(selections: seq<Selection>, fragments: Fragments, ranking: Ranking, bound: nat): (r: seq<Selection>)
    requires Acyclic(fragments, ranking) && AllSpreadBelow(selections, fragments, ranking, bound)
    ensures |r| == |selections|
    decreases bound, selections, 0
  {
    if selections == [] then []
    else
      var n := |selections| - 1;
      AllInlined(selections[..n], fragments, ranking, bound) + [Inlined(selections[n], fragments, ranking, bound)]
  }

  /** The nesting of a query that spreads nothing: a field is a level, an inline fragment is not. */
  function Nesting(selection: Selection): nat
    decreases selection, 1
  {
    match selection
    case Field(name, selections) => if Introspective(name) then 0 else 1 + DeepestOf(selections)
    case Inline(selections) => DeepestOf(selections)
    case Spread(_) => 0
  }

  function DeepestOf(selections: seq<Selection>): nat
    decreases selections, 0
  {
    if selections == [] then 0
    else Deeper(DeepestOf(selections[..|selections| - 1]), Nesting(selections[|selections| - 1]))
  }

  predicate SpreadFree(selection: Selection) {
    match selection
    case Field(_, selections) => forall i :: 0 <= i < |selections| ==> SpreadFree(selections[i])
    case Inline(selections) => forall i :: 0 <= i < |selections| ==> SpreadFree(selections[i])
    case Spread(_) => false
  }

  /** Inlining leaves no spread behind. */
  lemma {:induction false} InlinedIsSpreadFree(selection: Selection, fragments: Fragments, ranking: Ranking, bound: nat)
    requires Acyclic(fragments, ranking) && SpreadsBelow(selection, fragments, ranking, bound)
    ensures SpreadFree(Inlined(selection, fragments, ranking, bound))
    decreases bound, selection, 1
  {
    match selection
    case Field(_, selections) => AllInlinedSpreadFree(selections, fragments, ranking, bound);
    case Inline(selections) => AllInlinedSpreadFree(selections, fragments, ranking, bound);
    case Spread(name) =>
      if name in fragments {
        AllInlinedSpreadFree(fragments[name], fragments, ranking, ranking[name]);
      }
  }

  lemma {:induction false} AllInlinedSpreadFree(selections: seq<Selection>, fragments: Fragments, ranking: Ranking, bound: nat)
    requires Acyclic(fragments, ranking) && AllSpreadBelow(selections, fragments, ranking, bound)
    ensures forall i :: 0 <= i < |selections| ==> SpreadFree(AllInlined(selections, fragments, ranking, bound)[i])
    decreases bound, selections, 0
  {
    if selections != [] {
      var n := |selections| - 1;
      AllInlinedSpreadFree(selections[..n], fragments, ranking, bound);
      InlinedIsSpreadFree(selections[n], fragments, ranking, bound);
    }
  }

  /* ---- cycles ---- */

  /** A selection with every spread written out, but for those of a fragment inside itself, which select nothing. */
  function Cut(selection: Selection, fragments: Fragments, inside: set<string>): Selection
    decreases Unvisited(fragments, inside), selection, 1
  {
    match selection
    case Field(name, selections) => Field(name, AllCut(selections, fragments, inside))
    case Inline(selections) => Inline(AllCut(selections, fragments, inside))
    case Spread(name) =>
      if name in fragments && name !in inside then
        VisitingMore(fragments, inside, name);
        Inline(AllCut(fragments[name], fragments, inside + {name}))
      else Inline([])
  }

  function AllCut(selections: seq<Selection>, fragments: Fragments, inside: set<string>): (r: seq<Selection>)
    ensures |r| == |selections|
    decreases Unvisited(fragments, inside), selections, 0
  {
    if selections == [] then []
    else
      var n := |selections| - 1;
      AllCut(selections[..n], fragments, inside) + [Cut(selections[n], fragments, inside)]
  }

  lemma {:induction false} DepthOfOneIsTheCuts(selection: Selection, fragments: Fragments, inside: set<string>)
    ensures DepthOfOne(selection, fragments, inside) == Nesting(Cut(selection, fragments, inside))
    ensures SpreadFree(Cut(selection, fragments, inside))
    decreases Unvisited(fragments, inside), selection, 1
  {
    match selection
    case Field(_, selections) => AllDepthIsTheCuts(selections, fragments, inside);
    case Inline(selections) => AllDepthIsTheCuts(selections, fragments, inside);
    case Spread(name) =>
      if name in fragments && name !in inside {
        VisitingMore(fragments, inside, name);
        AllDepthIsTheCuts(fragments[name], fragments, inside + {name});
      }
  }

  /** On any table, cyclic or not, the count is the nesting of the query cut where a fragment comes back to itself. */
  lemma {:induction false} AllDepthIsTheCuts(selections: seq<Selection>, fragments: Fragments, inside: set<string>)
    ensures DepthOf(selections, fragments, inside) == DeepestOf(AllCut(selections, fragments, inside))
    ensures forall i :: 0 <= i < |selections| ==> SpreadFree(AllCut(selections, fragments, inside)[i])
    decreases Unvisited(fragments, inside), selections, 0
  {
    if selections != [] {
      var n := |selections| - 1;
      AllDepthIsTheCuts(selections[..n], fragments, inside);
      DepthOfOneIsTheCuts(selections[n], fragments, inside);
      var all := AllCut(selections, fragments, inside);
      assert all[..n] == AllCut(selections[..n], fragments, inside);
    }
  }

  // ---- What is counted ----

  /** A way down through nested fields by their names, none of which asks about the schema. */
  ghost predicate Reaches(selections: seq<Selection>, path: seq<string>)
    decreases selections, 0
  {
    path == [] || exists i :: 0 <= i < |selections| && ReachesInto(selections[i], path)
  }

  ghost predicate ReachesInto(selection: Selection, path: seq<string>)
    requires path != []
    decreases selection, 1
  {
    match selection
    case Field(name, selections) => name == path[0] && !("__" <= name) && Reaches(selections, path[1..])
    case Inline(selections) => Reaches(selections, path)
    case Spread(_) => false
  }

  lemma {:induction false} ReachesBefore(selections: seq<Selection>, path: seq<string>)
    requires selections != [] && path != []
    ensures Reaches(selections, path) <==>
      Reaches(selections[..|selections| - 1], path) || ReachesInto(selections[|selections| - 1], path)
  {
    var n := |selections| - 1;
    if Reaches(selections[..n], path) {
      var i :| 0 <= i < n && ReachesInto(selections[..n][i], path);
      assert ReachesInto(selections[i], path);
    }
    if Reaches(selections, path) && !ReachesInto(selections[n], path) {
      var i :| 0 <= i < |selections| && ReachesInto(selections[i], path);
      assert ReachesInto(selections[..n][i], path);
    }
  }

  lemma {:induction false} NotDeeperThan(selections: seq<Selection>, path: seq<string>)
    requires Reaches(selections, path)
    ensures |path| <= DeepestOf(selections)
    decreases selections, 0
  {
    if path != [] {
      assert selections != [];
      var n := |selections| - 1;
      ReachesBefore(selections, path);
      if Reaches(selections[..n], path) {
        NotDeeperThan(selections[..n], path);
      } else {
        NotDeeperInto(selections[n], path);
      }
    }
  }

  lemma {:induction false} NotDeeperInto(selection: Selection, path: seq<string>)
    requires path != [] && ReachesInto(selection, path)
    ensures |path| <= Nesting(selection)
    decreases selection, 1
  {
    match selection
    case Field(name, selections) =>
      OrdinaryByPrefix(name);
      NotDeeperThan(selections, path[1..]);
    case Inline(selections) => NotDeeperThan(selections, path);
  }

  lemma {:induction false} OrdinaryByPrefix(name: string)
    ensures Introspective(name) <==> "__" <= name
  {
    if Introspective(name) {
      assert name[..2] == "__";
    }
  }

  lemma {:induction false} DeepestPath(selections: seq<Selection>) returns (path: seq<string>)
    ensures Reaches(selections, path) && |path| == DeepestOf(selections)
    decreases selections, 0
  {
    path := [];
    if DeepestOf(selections) > 0 {
      var n := |selections| - 1;
      if DeepestOf(selections) == DeepestOf(selections[..n]) {
        path := DeepestPath(selections[..n]);
      } else {
        path := DeepestInto(selections[n]);
      }
      ReachesBefore(selections, path);
    }
  }

  lemma {:induction false} DeepestInto(selection: Selection) returns (path: seq<string>)
    requires Nesting(selection) > 0
    ensures path != [] && ReachesInto(selection, path) && |path| == Nesting(selection)
    decreases selection, 1
  {
    match selection
    case Field(name, selections) =>
      OrdinaryByPrefix(name);
      var rest := DeepestPath(selections);
      path := [name] + rest;
      assert path[1..] == rest;
    case Inline(selections) => path := DeepestPath(selections);
  }

  /**
   * On any table the measured depth is the length of the longest way down
   * through the query, written out and cut where a fragment comes back to
   * itself; what asks about the schema is not counted, nor anything under it.
   */
  lemma {:induction false} DepthIsTheLongestWay(selections: seq<Selection>, fragments: Fragments) returns (path: seq<string>)
    ensures Reaches(AllCut(selections, fragments, {}), path) && |path| == DepthOf(selections, fragments, {})
    ensures forall other :: Reaches(AllCut(selections, fragments, {}), other) ==> |other| <= |path|
  {
    AllDepthIsTheCuts(selections, fragments, {});
    path := DeepestPath(AllCut(selections, fragments, {}));
    forall other | Reaches(AllCut(selections, fragments, {}), other) ensures |other| <= |path| {
      NotDeeperThan(AllCut(selections, fragments, {}), other);
    }
  }

  /** Every fragment on the path ranks at least as high as anything still to be spread. */
  ghost predicate OnPath(visiting: set<string>, ranking: Ranking, bound: nat) {
    forall name :: name in visiting && name in ranking ==> ranking[name] >= bound
  }

  /** Where no fragment spreads itself, nothing is cut. */
  lemma {:induction false} NothingIsCut(
    selections: seq<Selection>, fragments: Fragments, ranking: Ranking, bound: nat, inside: set<string>
  )
    requires Acyclic(fragments, ranking) && AllSpreadBelow(selections, fragments, ranking, bound)
    requires OnPath(inside, ranking, bound)
    ensures AllCut(selections, fragments, inside) == AllInlined(selections, fragments, ranking, bound)
    decreases bound, selections, 0
  {
    if selections != [] {
      var n := |selections| - 1;
      NothingIsCut(selections[..n], fragments, ranking, bound, inside);
      OneIsNotCut(selections[n], fragments, ranking, bound, inside);
    }
  }

  lemma {:induction false} OneIsNotCut(
    selection: Selection, fragments: Fragments, ranking: Ranking, bound: nat, inside: set<string>
  )
    requires Acyclic(fragments, ranking) && SpreadsBelow(selection, fragments, ranking, bound)
    requires OnPath(inside, ranking, bound)
    ensures Cut(selection, fragments, inside) == Inlined(selection, fragments, ranking, bound)
    decreases bound, selection, 1
  {
    match selection
    case Field(_, selections) => NothingIsCut(selections, fragments, ranking, bound, inside);
    case Inline(selections) => NothingIsCut(selections, fragments, ranking, bound, inside);
    case Spread(name) =>
      if name in fragments {
        NothingIsCut(fragments[name], fragments, ranking, ranking[name], inside + {name});
      }
  }

  /** Where no fragment spreads itself, the count is the nesting of the query with every fragment written out. */
  lemma {:induction false} DepthRespectsInlining(
    selections: seq<Selection>, fragments: Fragments, ranking: Ranking, bound: nat
  )
    requires Acyclic(fragments, ranking) && AllSpreadBelow(selections, fragments, ranking, bound)
    ensures var inlined := AllInlined(selections, fragments, ranking, bound);
      && DepthOf(selections, fragments, {}) == DeepestOf(inlined)
      && forall i :: 0 <= i < |inlined| ==> SpreadFree(inlined[i])
  {
    AllDepthIsTheCuts(selections, fragments, {});
    NothingIsCut(selections, fragments, ranking, bound, {});
  }

  /**
   * Spreads replaced by their fragments, down to a height of nested spreads;
   * below it, and for a name no fragment has, a spread selects nothing.
   */
  function Unrolled(selection: Selection, fragments: Fragments, height: nat): Selection
    decreases height, selection, 1
  {
    match selection
    case Field(name, selections) => Field(name, AllUnrolled(selections, fragments, height))
    case Inline(selections) => Inline(AllUnrolled(selections, fragments, height))
    case Spread(name) =>
      if name in fragments && height > 0 then Inline(AllUnrolled(fragments[name], fragments, height - 1)) else Inline([])
  }

  function AllUnrolled(selections: seq<Selection>, fragments: Fragments, height: nat): (r: seq<Selection>)
    ensures |r| == |selections|
    decreases height, selections, 0
  {
    if selections == [] then []
    else
      var n := |selections| - 1;
      AllUnrolled(selections[..n], fragments, height) + [Unrolled(selections[n], fragments, height)]
  }

  lemma {:induction false} DepthWithinUnrolling(selection: Selection, fragments: Fragments, visiting: set<string>, height: nat)
    requires height >= Unvisited(fragments, visiting)
    ensures DepthOfOne(selection, fragments, visiting) <= Nesting(Unrolled(selection, fragments, height))
    decreases height, selection, 1
  {
    match selection
    case Field(_, selections) => AllDepthWithinUnrolling(selections, fragments, visiting, height);
    case Inline(selections) => AllDepthWithinUnrolling(selections, fragments, visiting, height);
    case Spread(name) =>
      if name in fragments && name !in visiting {
        VisitingMore(fragments, visiting, name);
        AllDepthWithinUnrolling(fragments[name], fragments, visiting + {name}, height - 1);
      }
  }

  lemma {:induction false} AllDepthWithinUnrolling(
    selections: seq<Selection>, fragments: Fragments, visiting: set<string>, height: nat
  )
    requires height >= Unvisited(fragments, visiting)
    ensures DepthOf(selections, fragments, visiting) <= DeepestOf(AllUnrolled(selections, fragments, height))
    decreases height, selections, 0
  {
    if selections != [] {
      var n := |selections| - 1;
      AllDepthWithinUnrolling(selections[..n], fragments, visiting, height);
      DepthWithinUnrolling(selections[n], fragments, visiting, height);
      var all := AllUnrolled(selections, fragments, height);
      assert all[..n] == AllUnrolled(selections[..n], fragments, height);
    }
  }
}
