/**
 * The loops that parse a filter string, validate its conditions and run the
 * filters over a file's words. word_alchemist.py (94-154) and main.py
 * (76-83, 98-149) carry the same code; one raises `ValueError` where the
 * other calls `sys.exit`, and both become an `Err` here, so one method
 * stands for each pair.
 */
module Filtering {
  import opened Results
  import opened Pipes
  import opened Conditions
  import opened Validation
  import opened FilterSpec

  /**
   * `_validate_conditions` / `validate_conditions`: collect the `==`
   * targets, then track the largest lower and the smallest upper bound.
   */
  method ValidateConditions(attribute: Attribute, conditions: seq<(Op, nat)>) returns (o: Outcome<Error>)
    ensures o == ValidateAttribute(attribute, conditions)
  {
    var equals := EqualsOf(conditions);
    if |equals| > 1 {
      return Fail(ConflictingEquality(attribute, equals));
    }
    var minValue, maxValue := BoundsOf(conditions);
    if minValue.Some? && maxValue.Some? && (minValue.value > maxValue.value || minValue.value == maxValue.value) {
      return Fail(ConflictingRange(attribute, minValue.value, maxValue.value));
    }
    return Pass;
  }

  /** The first loop of `_validate_conditions`: the `==` targets in order. */
  method EqualsOf(conditions: seq<(Op, nat)>) returns (equals: seq<nat>)
    ensures equals == EqualTargets(conditions)
  {
    equals := [];
    for k := 0 to |conditions|
      invariant EqualTargets(conditions) == equals + EqualTargets(conditions[k..])
    {
      EqualTargetsStep(conditions, k);
      if conditions[k].0 == Eq {
        equals := equals + [conditions[k].1];
      }
    }
    assert conditions[|conditions|..] == [];
  }

  /** The second loop of `_validate_conditions`: `min_value` and `max_value`. */
  method BoundsOf(conditions: seq<(Op, nat)>) returns (minValue: Option<nat>, maxValue: Option<nat>)
    ensures minValue == LowerBound(conditions) && maxValue == UpperBound(conditions)
  {
    minValue, maxValue := None, None;
    for k := 0 to |conditions|
      invariant minValue == LowerBound(conditions[..k])
      invariant maxValue == UpperBound(conditions[..k])
    {
      BoundsStep(conditions, k);
      var op, target := conditions[k].0, conditions[k].1;
      if op == Gt || op == Ge {
        minValue := if minValue.Some? then Some(if minValue.value < target then target else minValue.value) else Some(target);
      } else if op == Lt || op == Le {
        maxValue := if maxValue.Some? then Some(if target < maxValue.value then target else maxValue.value) else Some(target);
      }
    }
    assert conditions[..|conditions|] == conditions;
  }

  /**
   * `attribute_conditions` as a map and the order its keys were inserted in,
   * after recording `filters`.
   */
  ghost predicate Records(filters: seq<Condition>, table: map<Attribute, seq<(Op, nat)>>, keys: seq<Attribute>) {
    && keys == AttributeOrder(filters)
    && (forall a :: a in table <==> a in keys)
    && (forall a | a in table :: table[a] == ConditionsFor(filters, a))
  }

  /**
   * Recording one more condition (first giving its attribute an empty list
   * if it has none) keeps the table and its key order in step with the
   * conditions.
   */
  lemma RecordPreserves(filters: seq<Condition>, table: map<Attribute, seq<(Op, nat)>>, keys: seq<Attribute>, c: Condition,
                        widened: map<Attribute, seq<(Op, nat)>>)
    requires Records(filters, table, keys)
    requires widened == if c.attribute in table then table else table[c.attribute := []]
    ensures Records(filters + [c],
      widened[c.attribute := widened[c.attribute] + [(c.op, c.target)]],
      if c.attribute in table then keys else keys + [c.attribute])
  {
    RecordKeys(filters, keys, c);
    if c.attribute !in table {
      ConditionsForAbsent(filters, c.attribute);
    }
    RecordTable(filters, table, c, widened);
  }

  /** The key order after one more condition: its attribute is appended only when new. */
  lemma RecordKeys(filters: seq<Condition>, keys: seq<Attribute>, c: Condition)
    requires keys == AttributeOrder(filters)
    ensures (if c.attribute in keys then keys else keys + [c.attribute]) == AttributeOrder(filters + [c])
  {
    RecordStep(filters, c);
  }

  /** The table after one more condition: its pair is appended under its attribute, nothing else changes. */
  lemma RecordTable(filters: seq<Condition>, table: map<Attribute, seq<(Op, nat)>>, c: Condition,
                    widened: map<Attribute, seq<(Op, nat)>>)
    requires forall a | a in table :: table[a] == ConditionsFor(filters, a)
    requires c.attribute !in table ==> ConditionsFor(filters, c.attribute) == []
    requires widened == if c.attribute in table then table else table[c.attribute := []]
    ensures var table' := widened[c.attribute := widened[c.attribute] + [(c.op, c.target)]];
      forall a | a in table' :: table'[a] == ConditionsFor(filters + [c], a)
  {
    var table' := widened[c.attribute := widened[c.attribute] + [(c.op, c.target)]];
    assert (filters + [c])[..|filters|] == filters;
    forall a | a in table' ensures table'[a] == ConditionsFor(filters + [c], a) {
      if a != c.attribute {
        assert ConditionsFor(filters + [c], a) == ConditionsFor(filters, a) + [];
      }
    }
  }

  /**
   * One turn of the matching loop after a segment matched: its pair goes
   * under its attribute (a new key gets an empty list first) and its filter
   * joins the list.
   */
  method Record(filters: seq<Condition>, attributeConditions: map<Attribute, seq<(Op, nat)>>, keys: seq<Attribute>, c: Condition)
    returns (filters': seq<Condition>, attributeConditions': map<Attribute, seq<(Op, nat)>>, keys': seq<Attribute>)
    requires Records(filters, attributeConditions, keys)
    ensures filters' == filters + [c]
    ensures Records(filters', attributeConditions', keys')
  {
    attributeConditions', keys' := attributeConditions, keys;
    if c.attribute !in attributeConditions' {
      attributeConditions' := attributeConditions'[c.attribute := []];
      keys' := keys' + [c.attribute];
    }
    RecordPreserves(filters, attributeConditions, keys, c, attributeConditions');
    attributeConditions' := attributeConditions'[c.attribute := attributeConditions'[c.attribute] + [(c.op, c.target)]];
    filters' := filters + [c];
  }

  /** The loop `for attribute, conditions in attribute_conditions.items()`, stopping at the first conflict. */
  method ValidateEach(filters: seq<Condition>, attributeConditions: map<Attribute, seq<(Op, nat)>>, keys: seq<Attribute>)
    returns (o: Outcome<Error>)
    requires Records(filters, attributeConditions, keys)
    ensures o == ValidateAll(AttributeOrder(filters), filters)
  {
    for k := 0 to |keys|
      invariant ValidateAll(keys, filters) == ValidateAll(keys[k..], filters)
    {
      ValidateAllStep(keys, filters, k);
      var outcome := ValidateConditions(keys[k], attributeConditions[keys[k]]);
      if outcome.Fail? {
        return outcome;
      }
    }
    assert keys[|keys|..] == [];
    return Pass;
  }

  /**
   * `_parse_filter_string` / `parse_filter_string`: match each stripped
   * segment, recording its condition and, per attribute in first-seen order,
   * its `(operator, target)` pairs; then validate each attribute.
   */
  method ParseFilterString(filterString: string) returns (r: Result<seq<Condition>, Error>)
    ensures r == ParseFilter(filterString)
  {
    var segments := Segments(filterString);
    ghost var rs := SegmentResults(filterString);
    var filters: seq<Condition> := [];
    // `attribute_conditions` and the order its keys were inserted in
    var attributeConditions: map<Attribute, seq<(Op, nat)>> := map[];
    var keys: seq<Attribute> := [];

    for i := 0 to |segments|
      invariant Collect(rs[..i]) == Ok(filters)
      invariant Records(filters, attributeConditions, keys)
    {
      var m := MatchSegment(segments[i]);
      if m.Err? {
        CollectFailStep(rs, i, filters);
        return Err(InvalidFilterCondition(segments[i]));
      }
      CollectStep(rs, i, filters);
      filters, attributeConditions, keys := Record(filters, attributeConditions, keys, m.value);
    }
    assert rs[..|segments|] == rs;

    var outcome := ValidateEach(filters, attributeConditions, keys);
    if outcome.Fail? {
      return Err(outcome.error);
    }
    return Ok(filters);
  }

  /**
   * `_filter_words` / `filter_words`: read the file, parse the filter
   * string, then hand each filter the previous filter's output.
   */
  method FilterWords(env: Env, filename: string, filterString: string) returns (r: Result<seq<string>, Error>)
    ensures r == FilterSpec.FilterWords(env, filename, filterString)
  {
    var read := ReadWordJson(env, filename);
    if read.Err? {
      return Err(read.error);
    }
    var parsed := ParseFilterString(filterString);
    if parsed.Err? {
      return Err(parsed.error);
    }
    var words := RunSteps(parsed.value, read.value, env.applyFilter);
    return Ok(words);
  }
}
