/**
 * The constraint language has three truth values. These lemmas say what an
 * answer under missing data is worth: it is never withdrawn, and where each
 * quantity is named once, "cannot be decided" means exactly that.
 */
module Constraints {
  import opened Prelude
  import opened Predicates
  import opened Definitions
  import opened Engine

  /** A full reading of a day: one number per quantity. */
  type Completion = map<Key, real>

  predicate Covers(reading: Completion, keys: seq<Key>) {
    forall k :: k in keys ==> k in reading
  }

  /** The ordinary two-valued meaning of a constraint. */
  predicate Classical(expr: ConstraintExpr, reading: Completion) {
    match expr
    case Leaf(metric, _, aggregation, op, threshold) =>
      Key(metric, aggregation) in reading && Compares(op, threshold, reading[Key(metric, aggregation)])
    case AnyHolds(any) => exists i :: 0 <= i < |any| && Classical(any[i], reading)
    case AllHold(all) => forall i :: 0 <= i < |all| ==> Classical(all[i], reading)
    case Negated(inner) => !Classical(inner, reading)
  }

  /** A reading that agrees with everything that was extracted. */
  ghost predicate Completes(reading: Completion, values: Values) {
    forall k :: k in reading && Of(values, k).Some? ==> reading[k] == Of(values, k).value.value
  }

  /** One extraction knows at least what another knows. */
  ghost predicate KnowsMore(more: Values, less: Values) {
    forall k :: Of(less, k).Some? ==> Of(more, k) == Of(less, k)
  }

  /** Whatever was decided stays decided, and the same way, as values are filled in. */
  lemma {:induction false} HoldsIsMonotone(expr: ConstraintExpr, less: Values, more: Values)
    requires KnowsMore(more, less)
    ensures Holds(expr, less).Some? ==> Holds(expr, more) == Holds(expr, less)
    decreases expr
  {
    match expr
    case Leaf(_, _, _, _, _) =>
    case AnyHolds(any) =>
      forall i | 0 <= i < |any| ensures Holds(any[i], less).Some? ==> Holds(any[i], more) == Holds(any[i], less) {
        HoldsIsMonotone(any[i], less, more);
      }
    case AllHold(all) =>
      forall i | 0 <= i < |all| ensures Holds(all[i], less).Some? ==> Holds(all[i], more) == Holds(all[i], less) {
        HoldsIsMonotone(all[i], less, more);
      }
    case Negated(inner) => HoldsIsMonotone(inner, less, more);
  }

  /** An answer under missing data is the classical answer under every way of filling it in. */
  lemma {:induction false} HoldsIsSound(expr: ConstraintExpr, values: Values, reading: Completion)
    requires Covers(reading, LeafKeys(expr)) && Completes(reading, values)
    ensures Holds(expr, values).Some? ==> Holds(expr, values).value == Classical(expr, reading)
    decreases expr
  {
    match expr
    case Leaf(_, _, _, _, _) =>
    case AnyHolds(any) =>
      forall i | 0 <= i < |any|
        ensures Holds(any[i], values).Some? ==> Holds(any[i], values).value == Classical(any[i], reading)
      {
        LeafKeysOfMember(any, i);
        HoldsIsSound(any[i], values, reading);
      }
    case AllHold(all) =>
      forall i | 0 <= i < |all|
        ensures Holds(all[i], values).Some? ==> Holds(all[i], values).value == Classical(all[i], reading)
      {
        LeafKeysOfMember(all, i);
        HoldsIsSound(all[i], values, reading);
      }
    case Negated(inner) => HoldsIsSound(inner, values, reading);
  }

  /* ---- the constraint that fires ---- */

  /** Which constraint fires, by position. */
  function FiredAt(constraints: seq<Constraint>, values: Values): Option<nat> {
    if constraints == [] then None
    else if Holds(constraints[0].when, values) == Some(true) then Some(0)
    else
      var later := FiredAt(constraints[1..], values);
      if later.None? then None else Some(later.value + 1)
  }

  lemma {:induction false} FiredAtExact(constraints: seq<Constraint>, values: Values)
    ensures FirstFired(constraints, values).Some? == FiredAt(constraints, values).Some?
    ensures FiredAt(constraints, values).Some? ==>
      var i := FiredAt(constraints, values).value;
      && i < |constraints|
      && Holds(constraints[i].when, values) == Some(true)
      && FirstFired(constraints, values) == Some(constraints[i].reason)
    ensures forall j :: 0 <= j < |constraints| && Holds(constraints[j].when, values) == Some(true) ==>
      FiredAt(constraints, values).Some? && FiredAt(constraints, values).value <= j
  {
    if constraints != [] {
      FiredAtExact(constraints[1..], values);
      forall j | 0 < j < |constraints| && Holds(constraints[j].when, values) == Some(true)
        ensures FiredAt(constraints, values).Some? && FiredAt(constraints, values).value <= j
      {
        assert constraints[1..][j - 1] == constraints[j];
      }
    }
  }

  /**
   * A refusal is knowledge: if a constraint fires with values missing, then
   * under every completion some constraint at the same place or earlier fires.
   */
  lemma {:induction false} FiringSurvivesCompletion(constraints: seq<Constraint>, less: Values, more: Values)
    requires KnowsMore(more, less) && FiredAt(constraints, less).Some?
    ensures FiredAt(constraints, more).Some? && FiredAt(constraints, more).value <= FiredAt(constraints, less).value
  {
    FiredAtExact(constraints, less);
    FiredAtExact(constraints, more);
    HoldsIsMonotone(constraints[FiredAt(constraints, less).value].when, less, more);
  }

  /* ---- when "cannot be decided" is exact ---- */

  /** No quantity is named twice. */
  ghost predicate ReadOnce(expr: ConstraintExpr)
    decreases expr, 0
  {
    match expr
    case Leaf(_, _, _, _, _) => true
    case AnyHolds(any) => ReadOnceOf(any)
    case AllHold(all) => ReadOnceOf(all)
    case Negated(inner) => ReadOnce(inner)
  }

  ghost predicate ReadOnceOf(exprs: seq<ConstraintExpr>)
    decreases exprs, 0
  {
    exprs == [] ||
    (ReadOnce(exprs[0]) && ReadOnceOf(exprs[1..]) && forall k :: k in LeafKeys(exprs[0]) ==> k !in LeafKeysOf(exprs[1..]))
  }

  /** A comparison some number passes and some number fails. */
  ghost predicate Contingent(expr: ConstraintExpr)
    decreases expr, 0
  {
    match expr
    case Leaf(_, _, _, op, threshold) =>
      (exists x: real :: Compares(op, threshold, x)) && (exists y: real :: !Compares(op, threshold, y))
    case AnyHolds(any) => ContingentOf(any)
    case AllHold(all) => ContingentOf(all)
    case Negated(inner) => Contingent(inner)
  }

  ghost predicate ContingentOf(exprs: seq<ConstraintExpr>)
    decreases exprs, 0
  {
    exprs == [] || (Contingent(exprs[0]) && ContingentOf(exprs[1..]))
  }

  /** The meaning of a constraint depends only on the quantities it names. */
  lemma {:induction false} ClassicalReadsItsLeaves(expr: ConstraintExpr, reading: Completion, other: Completion)
    requires forall k :: k in LeafKeys(expr) ==> k in reading && k in other && reading[k] == other[k]
    ensures Classical(expr, reading) == Classical(expr, other)
    decreases expr
  {
    match expr
    case Leaf(_, _, _, _, _) =>
    case AnyHolds(any) =>
      forall i | 0 <= i < |any| ensures Classical(any[i], reading) == Classical(any[i], other) {
        LeafKeysOfMember(any, i);
        ClassicalReadsItsLeaves(any[i], reading, other);
      }
    case AllHold(all) =>
      forall i | 0 <= i < |all| ensures Classical(all[i], reading) == Classical(all[i], other) {
        LeafKeysOfMember(all, i);
        ClassicalReadsItsLeaves(all[i], reading, other);
      }
    case Negated(inner) => ClassicalReadsItsLeaves(inner, reading, other);
  }

  ghost predicate CompletesOver(reading: Completion, keys: seq<Key>, values: Values) {
    && (forall k :: k in reading <==> k in keys)
    && Completes(reading, values)
  }

  /** Any verdict not ruled out is reached by some completion. */
  lemma {:induction false} Reach(expr: ConstraintExpr, values: Values, verdict: bool) returns (reading: Completion)
    requires ReadOnce(expr) && Contingent(expr)
    requires Holds(expr, values) != Some(!verdict)
    ensures CompletesOver(reading, LeafKeys(expr), values)
    ensures Classical(expr, reading) == verdict
    decreases expr, 0
  {
    match expr
    case Leaf(metric, _, aggregation, op, threshold) =>
      var key := Key(metric, aggregation);
      var value: real;
      if Of(values, key).Some? {
        value := Of(values, key).value.value;
      } else {
        value :| Compares(op, threshold, value) == verdict;
      }
      reading := map[key := value];
    case AnyHolds(any) =>
      reading := ReachEach(any, values, verdict);
      if verdict {
        var i :| 0 <= i < |any| && Holds(any[i], values) != Some(false);
        assert Classical(any[i], reading);
      }
    case AllHold(all) =>
      reading := ReachEach(all, values, verdict);
      if !verdict {
        var i :| 0 <= i < |all| && Holds(all[i], values) != Some(true);
        assert !Classical(all[i], reading);
      }
    case Negated(inner) =>
      reading := Reach(inner, values, !verdict);
  }

  /** A verdict, or the opposite one where the verdict is ruled out. */
  function Prefer(verdict: bool, held: Option<bool>): bool {
    if held == Some(!verdict) then !verdict else verdict
  }

  /** Branches that share no quantity reach their preferred verdicts together. */
  lemma {:induction false} ReachEach(exprs: seq<ConstraintExpr>, values: Values, verdict: bool) returns (reading: Completion)
    requires ReadOnceOf(exprs) && ContingentOf(exprs)
    ensures CompletesOver(reading, LeafKeysOf(exprs), values)
    ensures forall i :: 0 <= i < |exprs| ==>
      Classical(exprs[i], reading) == Prefer(verdict, Holds(exprs[i], values))
    decreases exprs, 0
  {
    if exprs == [] {
      reading := map[];
    } else {
      var first := Reach(exprs[0], values, Prefer(verdict, Holds(exprs[0], values)));
      var rest := ReachEach(exprs[1..], values, verdict);
      reading := first + rest;
      forall i | 0 <= i < |exprs| ensures Classical(exprs[i], reading) == Prefer(verdict, Holds(exprs[i], values)) {
        if i == 0 {
          ClassicalReadsItsLeaves(exprs[0], reading, first);
        } else {
          assert exprs[i] == exprs[1..][i - 1];
          LeafKeysOfMember(exprs[1..], i - 1);
          ClassicalReadsItsLeaves(exprs[i], reading, rest);
        }
      }
    }
  }

  /**
   * Where each quantity is named once, an answer is given exactly when every
   * completion agrees on it: undecided means two completions disagree.
   */
  lemma {:induction false} UndecidedIsExact(expr: ConstraintExpr, values: Values)
    requires ReadOnce(expr) && Contingent(expr)
    ensures Holds(expr, values).None? <==>
      exists yes: Completion, no: Completion ::
        && CompletesOver(yes, LeafKeys(expr), values) && Classical(expr, yes)
        && CompletesOver(no, LeafKeys(expr), values) && !Classical(expr, no)
  {
    if Holds(expr, values).None? {
      var yes := Reach(expr, values, true);
      var no := Reach(expr, values, false);
    } else {
      forall reading: Completion | CompletesOver(reading, LeafKeys(expr), values)
        ensures Classical(expr, reading) == Holds(expr, values).value
      {
        HoldsIsSound(expr, values, reading);
      }
    }
  }

  /** Named twice, a quantity can leave a certainty undecided: x or not x. */
  lemma {:induction false} UndecidedTautology(leaf: ConstraintExpr, values: Values, reading: Completion)
    requires leaf.Leaf? && Holds(leaf, values).None?
    ensures Holds(AnyHolds([leaf, Negated(leaf)]), values).None?
    ensures Classical(AnyHolds([leaf, Negated(leaf)]), reading)
  {
    var any := [leaf, Negated(leaf)];
    assert Holds(any[0], values).None? && Holds(any[1], values).None?;
    assert Classical(any[0], reading) || Classical(any[1], reading);
  }
}
