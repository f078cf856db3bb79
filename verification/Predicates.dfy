/** The comparison tree shared by the counting aggregations and the hard constraints. */
module Predicates {

  datatype CompareOp = Lt | Lte | Gt | Gte | Eq | Ne | In | NotIn

  /** What a comparison is made against: one bound, or a set of members. */
  datatype Threshold = One(bound: real) | Many(members: seq<real>)

  datatype Predicate =
    | Compare(op: CompareOp, threshold: Threshold)
    | AnyOf(any: seq<Predicate>)
    | AllOf(all: seq<Predicate>)
    | Not(inner: Predicate)

  predicate IsSetOp(op: CompareOp) {
    op.In? || op.NotIn?
  }

  /** What the parameter schema accepts: sets where sets are meant, and no empty list anywhere. */
  predicate WellShaped(p: Predicate) {
    match p
    case Compare(op, threshold) =>
      IsSetOp(op) == threshold.Many? && (threshold.Many? ==> threshold.members != [])
    case AnyOf(any) => any != [] && forall i :: 0 <= i < |any| ==> WellShaped(any[i])
    case AllOf(all) => all != [] && forall i :: 0 <= i < |all| ==> WellShaped(all[i])
    case Not(inner) => WellShaped(inner)
  }

  predicate Evaluate(p: Predicate, value: real) {
    match p
    case Compare(op, threshold) => Compares(op, threshold, value)
    case AnyOf(any) => exists i :: 0 <= i < |any| && Evaluate(any[i], value)
    case AllOf(all) => forall i :: 0 <= i < |all| ==> Evaluate(all[i], value)
    case Not(inner) => !Evaluate(inner, value)
  }

  predicate Compares(op: CompareOp, threshold: Threshold, value: real) {
    if IsSetOp(op) then
      var members := if threshold.Many? then threshold.members else [threshold.bound];
      (value in members) == op.In?
    else if threshold.Many? then
      false
    else
      var bound := threshold.bound;
      match op
      case Lt => value < bound
      case Lte => value <= bound
      case Gt => value > bound
      case Gte => value >= bound
      case Eq => value == bound
      case Ne => value != bound
  }

  /**
   * The six magnitudes are those of one order: of below, at and above exactly
   * one holds, each seen from the other side, and the other three are their
   * opposites.
   */
  lemma {:induction false} ComparesInOrder(bound: real, value: real, higher: real)
    requires value < higher
    ensures Compares(Eq, One(bound), value) <==> bound - value == 0.0
    ensures Compares(Lt, One(bound), value) <==> Compares(Gt, One(value), bound)
    ensures !Compares(Eq, One(bound), value) ==> (Compares(Lt, One(bound), value) <==> !Compares(Gt, One(bound), value))
    ensures Compares(Eq, One(bound), value) ==> !Compares(Lt, One(bound), value) && !Compares(Gt, One(bound), value)
    ensures Compares(Gt, One(value), higher)
    ensures Compares(Lte, One(bound), value) <==> !Compares(Gt, One(bound), value)
    ensures Compares(Gte, One(bound), value) <==> !Compares(Lt, One(bound), value)
    ensures Compares(Ne, One(bound), value) <==> !Compares(Eq, One(bound), value)
  {
  }

  /** A set is tested for a member, and a magnitude is never compared with a set. */
  lemma {:induction false} ComparesMembers(members: seq<real>, op: CompareOp, value: real)
    ensures Compares(In, Many(members), value) <==> exists i :: 0 <= i < |members| && members[i] == value
    ensures Compares(NotIn, Many(members), value) <==> forall i :: 0 <= i < |members| ==> members[i] != value
    ensures !IsSetOp(op) ==> !Compares(op, Many(members), value)
  {
  }

  /** One more branch is one more way in, or one more condition. */
  lemma {:induction false} OneMoreBranch(branches: seq<Predicate>, p: Predicate, value: real)
    ensures !Evaluate(AnyOf([]), value) && Evaluate(AllOf([]), value)
    ensures Evaluate(AnyOf(branches + [p]), value) <==> Evaluate(AnyOf(branches), value) || Evaluate(p, value)
    ensures Evaluate(AllOf(branches + [p]), value) <==> Evaluate(AllOf(branches), value) && Evaluate(p, value)
    ensures Evaluate(Not(p), value) <==> !Evaluate(p, value)
  {
    var longer := branches + [p];
    assert longer[|branches|] == p;
    assert forall i :: 0 <= i < |branches| ==> longer[i] == branches[i];
  }
}
