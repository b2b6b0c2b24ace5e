/**
 * `_validate_conditions` (word_alchemist.py:127-145, main.py:131-149): the
 * conflicts the parser rejects among the conditions on one attribute.
 */
module Validation {
  import opened Results
  import opened Conditions

  predicate IsLower(op: Op) { op == Gt || op == Ge }

  predicate IsUpper(op: Op) { op == Lt || op == Le }

  /** `[target for op, target in conditions if op == "=="]`. */
  function EqualTargets(cs: seq<(Op, nat)>): (r: seq<nat>)
    ensures |r| <= |cs|
    decreases |cs|
  {
    if cs == [] then []
    else (if cs[0].0 == Eq then [cs[0].1] else []) + EqualTargets(cs[1..])
  }

  /** Two or more `==` conditions, whatever their targets, are what makes the list long. */
  lemma {:induction false} EqualTargetsCount(cs: seq<(Op, nat)>)
    ensures |EqualTargets(cs)| > 1 <==> exists i, j | 0 <= i < j < |cs| :: cs[i].0 == Eq && cs[j].0 == Eq
    decreases |cs|
  {
    if cs != [] {
      EqualTargetsCount(cs[1..]);
      var rest := cs[1..];
      if cs[0].0 == Eq && |EqualTargets(rest)| == 1 {
        EqualTargetsSource(rest);
        var j :| 0 <= j < |rest| && rest[j].0 == Eq;
        assert cs[j + 1].0 == Eq;
      }
      if exists i, j | 0 <= i < j < |cs| :: cs[i].0 == Eq && cs[j].0 == Eq {
        var i, j :| 0 <= i < j < |cs| && cs[i].0 == Eq && cs[j].0 == Eq;
        if i > 0 {
          assert rest[i - 1].0 == Eq && rest[j - 1].0 == Eq;
        } else {
          EqualTargetsNonEmpty(rest, j - 1);
        }
      }
    }
  }

  /** A non-empty list of `==` targets comes from some `==` condition. */
  lemma {:induction false} EqualTargetsSource(cs: seq<(Op, nat)>)
    requires |EqualTargets(cs)| >= 1
    ensures exists j | 0 <= j < |cs| :: cs[j].0 == Eq
    decreases |cs|
  {
    if cs[0].0 != Eq {
      EqualTargetsSource(cs[1..]);
      var j :| 0 <= j < |cs| - 1 && cs[1..][j].0 == Eq;
      assert cs[j + 1].0 == Eq;
    }
  }

  lemma {:induction false} EqualTargetsNonEmpty(cs: seq<(Op, nat)>, j: nat)
    requires j < |cs| && cs[j].0 == Eq
    ensures |EqualTargets(cs)| >= 1
    decreases |cs|
  {
    if j > 0 {
      EqualTargetsNonEmpty(cs[1..], j - 1);
    }
  }

  /**
   * `min_value` after the loop: the largest `>`/`>=` target, absent when
   * there is none (`max(min_value, target) if min_value is not None else target`).
   */
  function LowerBound(cs: seq<(Op, nat)>): (r: Option<nat>)
    ensures r.None? <==> forall i | 0 <= i < |cs| :: !IsLower(cs[i].0)
    ensures r.Some? ==> forall i | 0 <= i < |cs| && IsLower(cs[i].0) :: cs[i].1 <= r.value
    ensures r.Some? ==> exists i | 0 <= i < |cs| :: IsLower(cs[i].0) && cs[i].1 == r.value
    decreases |cs|
  {
    if cs == [] then None
    else
      var prev := LowerBound(cs[..|cs| - 1]);
      var last := cs[|cs| - 1];
      if !IsLower(last.0) then prev
      else if prev.None? then Some(last.1)
      else Some(if prev.value < last.1 then last.1 else prev.value)
  }

  /** `max_value` after the loop: the smallest `<`/`<=` target, absent when there is none. */
  function UpperBound(cs: seq<(Op, nat)>): (r: Option<nat>)
    ensures r.None? <==> forall i | 0 <= i < |cs| :: !IsUpper(cs[i].0)
    ensures r.Some? ==> forall i | 0 <= i < |cs| && IsUpper(cs[i].0) :: r.value <= cs[i].1
    ensures r.Some? ==> exists i | 0 <= i < |cs| :: IsUpper(cs[i].0) && cs[i].1 == r.value
    decreases |cs|
  {
    if cs == [] then None
    else
      var prev := UpperBound(cs[..|cs| - 1]);
      var last := cs[|cs| - 1];
      if !IsUpper(last.0) then prev
      else if prev.None? then Some(last.1)
      else Some(if last.1 < prev.value then last.1 else prev.value)
  }

  /**
   * The check on one attribute: more than one `==` first, then a lower bound
   * that is not strictly below the upper bound (equal bounds are rejected).
   */
  function ValidateAttribute(attribute: Attribute, cs: seq<(Op, nat)>): (r: Outcome<Error>)
    ensures r.Fail? ==> r.error.ConflictingEquality? || r.error.ConflictingRange?
    ensures r.Fail? ==> r.error.attribute == attribute
  {
    var equals := EqualTargets(cs);
    if |equals| > 1 then Fail(ConflictingEquality(attribute, equals))
    else
      var lo, hi := LowerBound(cs), UpperBound(cs);
      if lo.Some? && hi.Some? && lo.value >= hi.value then Fail(ConflictingRange(attribute, lo.value, hi.value))
      else Pass
  }

  /** No two `==` conditions on the attribute. */
  ghost predicate SingleEquality(cs: seq<(Op, nat)>) {
    forall i, j | 0 <= i < j < |cs| :: !(cs[i].0 == Eq && cs[j].0 == Eq)
  }

  /** Every lower-bound target is strictly below every upper-bound target. */
  ghost predicate RangeOpen(cs: seq<(Op, nat)>) {
    forall i, j | 0 <= i < |cs| && 0 <= j < |cs| && IsLower(cs[i].0) && IsUpper(cs[j].0) :: cs[i].1 < cs[j].1
  }

  /**
   * Validation passes exactly when there is at most one `==` and every
   * `>`/`>=` target is below every `<`/`<=` target; an equality conflict is
   * the one reported when both kinds are present.
   */
  lemma {:induction false} ValidateAttributeIff(attribute: Attribute, cs: seq<(Op, nat)>)
    ensures ValidateAttribute(attribute, cs).Pass? <==> SingleEquality(cs) && RangeOpen(cs)
    ensures !SingleEquality(cs) ==> ValidateAttribute(attribute, cs) == Fail(ConflictingEquality(attribute, EqualTargets(cs)))
  {
    EqualTargetsCount(cs);
    if !RangeOpen(cs) {
      ClosedRangeBounds(cs);
    } else {
      OpenRangeBounds(cs);
    }
  }

  /** A lower-bound target at or above an upper-bound target puts the bounds in conflict. */
  lemma ClosedRangeBounds(cs: seq<(Op, nat)>)
    requires !RangeOpen(cs)
    ensures LowerBound(cs).Some? && UpperBound(cs).Some? && LowerBound(cs).value >= UpperBound(cs).value
  {
    var i, j :| 0 <= i < |cs| && 0 <= j < |cs| && IsLower(cs[i].0) && IsUpper(cs[j].0) && cs[i].1 >= cs[j].1;
  }

  /** With every lower-bound target below every upper-bound target, so are the bounds. */
  lemma OpenRangeBounds(cs: seq<(Op, nat)>)
    requires RangeOpen(cs)
    ensures LowerBound(cs).Some? && UpperBound(cs).Some? ==> LowerBound(cs).value < UpperBound(cs).value
  {
    if LowerBound(cs).Some? && UpperBound(cs).Some? {
      var i :| 0 <= i < |cs| && IsLower(cs[i].0) && cs[i].1 == LowerBound(cs).value;
      var j :| 0 <= j < |cs| && IsUpper(cs[j].0) && cs[j].1 == UpperBound(cs).value;
    }
  }

  /** A `!=` condition is never looked at: adding one changes nothing. */
  lemma {:induction false} NotEqualIgnored(attribute: Attribute, cs: seq<(Op, nat)>, t: nat)
    ensures ValidateAttribute(attribute, cs + [(Ne, t)]) == ValidateAttribute(attribute, cs)
  {
    EqualTargetsAppendNe(cs, t);
    assert (cs + [(Ne, t)])[..|cs|] == cs;
  }

  lemma {:induction false} EqualTargetsAppendNe(cs: seq<(Op, nat)>, t: nat)
    ensures EqualTargets(cs + [(Ne, t)]) == EqualTargets(cs)
    decreases |cs|
  {
    if cs == [] {
      assert [(Ne, t)][1..] == [];
    } else {
      assert (cs + [(Ne, t)])[1..] == cs[1..] + [(Ne, t)];
      EqualTargetsAppendNe(cs[1..], t);
    }
  }

  /** The `==` targets from position `k` on: the one at `k`, if any, then the rest. */
  lemma EqualTargetsStep(cs: seq<(Op, nat)>, k: nat)
    requires k < |cs|
    ensures EqualTargets(cs[k..]) == (if cs[k].0 == Eq then [cs[k].1] else []) + EqualTargets(cs[k + 1..])
  {
    assert cs[k..][1..] == cs[k + 1..];
  }

  /** The bounds after one more condition: only a lower (upper) bound condition can move the lower (upper) bound. */
  lemma BoundsStep(cs: seq<(Op, nat)>, k: nat)
    requires k < |cs|
    ensures LowerBound(cs[..k + 1]) ==
      if !IsLower(cs[k].0) then LowerBound(cs[..k])
      else if LowerBound(cs[..k]).None? then Some(cs[k].1)
      else Some(if LowerBound(cs[..k]).value < cs[k].1 then cs[k].1 else LowerBound(cs[..k]).value)
    ensures UpperBound(cs[..k + 1]) ==
      if !IsUpper(cs[k].0) then UpperBound(cs[..k])
      else if UpperBound(cs[..k]).None? then Some(cs[k].1)
      else Some(if cs[k].1 < UpperBound(cs[..k]).value then cs[k].1 else UpperBound(cs[..k]).value)
  {
    assert cs[..k + 1][..k] == cs[..k];
  }
}
