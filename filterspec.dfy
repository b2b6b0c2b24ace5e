/**
 * What `_parse_filter_string` and `_filter_words` compute
 * (word_alchemist.py:94-125, 147-154; main.py:76-83, 98-129), stated as
 * functions that the methods of `Filtering` are proved against.
 */
module FilterSpec {
  import opened Results
  import opened PyText
  import opened Pipes
  import opened Conditions
  import opened Validation

  /** `[condition.strip() for condition in filter_string.split("and")]`. */
  function Segments(filterString: string): (segs: seq<string>)
    ensures |segs| == |Split(filterString, "and")| >= 1
  {
    var parts := Split(filterString, "and");
    seq(|parts|, i requires 0 <= i < |parts| => Strip(parts[i]))
  }

  /** One segment: its condition, or the `Invalid filter condition` error naming it. */
  function MatchSegment(seg: string): (r: Result<Condition, Error>)
    ensures r.Err? ==> r.error == InvalidFilterCondition(seg)
  {
    var m := MatchCondition(seg);
    if m.None? then Err(InvalidFilterCondition(seg)) else Ok(m.value)
  }

  /** The outcome of matching each segment of a filter string. */
  function SegmentResults(filterString: string): (rs: seq<Result<Condition, Error>>)
    ensures |rs| == |Segments(filterString)|
    ensures forall i | 0 <= i < |rs| :: rs[i] == MatchSegment(Segments(filterString)[i])
  {
    var segs := Segments(filterString);
    seq(|segs|, i requires 0 <= i < |segs| => MatchSegment(segs[i]))
  }

  /** Every segment matches: one condition per segment, each the one its segment spells. */
  ghost predicate AllMatch(segs: seq<string>, cs: seq<Condition>) {
    |cs| == |segs| && forall i | 0 <= i < |segs| :: MatchCondition(segs[i]) == Some(cs[i])
  }

  /** Segment `i` is the first that does not match. */
  ghost predicate FirstMismatch(segs: seq<string>, i: nat) {
    i < |segs| && MatchCondition(segs[i]).None? && forall j | 0 <= j < i :: MatchCondition(segs[j]).Some?
  }

  /** `attribute_conditions[a]`: the `(operator, target)` pairs recorded for `a`, in order. */
  function ConditionsFor(cs: seq<Condition>, a: Attribute): seq<(Op, nat)>
    decreases |cs|
  {
    if cs == [] then []
    else
      var last := cs[|cs| - 1];
      ConditionsFor(cs[..|cs| - 1], a) + (if last.attribute == a then [(last.op, last.target)] else [])
  }

  /** Attribute `a` is used by some condition before any condition uses `b`. */
  predicate SeenBefore(cs: seq<Condition>, a: Attribute, b: Attribute) {
    exists p | 0 <= p < |cs| :: cs[p].attribute == a && forall q | 0 <= q <= p :: cs[q].attribute != b
  }

  /** The keys of `attribute_conditions`, in insertion (first appearance) order. */
  function AttributeOrder(cs: seq<Condition>): (order: seq<Attribute>)
    ensures forall a :: a in order <==> exists i | 0 <= i < |cs| :: cs[i].attribute == a
    ensures forall i, j | 0 <= i < j < |order| :: order[i] != order[j]
    ensures forall i, j | 0 <= i < j < |order| :: SeenBefore(cs, order[i], order[j])
    decreases |cs|
  {
    if cs == [] then []
    else
      var pre := cs[..|cs| - 1];
      var prev := AttributeOrder(pre);
      var a := cs[|cs| - 1].attribute;
      assert cs == pre + [cs[|cs| - 1]];
      FirstSeenExtend(pre, cs[|cs| - 1], prev);
      if a in prev then prev else prev + [a]
  }

  /**
   * Keys in first-appearance order for `pre` stay in that order once one
   * more condition is recorded, and a key not seen in `pre` comes after them all.
   */
  lemma FirstSeenExtend(pre: seq<Condition>, c: Condition, prev: seq<Attribute>)
    requires forall a :: a in prev <==> exists i | 0 <= i < |pre| :: pre[i].attribute == a
    requires forall i, j | 0 <= i < j < |prev| :: SeenBefore(pre, prev[i], prev[j])
    ensures forall i, j | 0 <= i < j < |prev| :: SeenBefore(pre + [c], prev[i], prev[j])
    ensures c.attribute !in prev ==> forall i | 0 <= i < |prev| :: SeenBefore(pre + [c], prev[i], c.attribute)
  {
    var cs := pre + [c];
    forall i, j | 0 <= i < j < |prev|
      ensures SeenBefore(cs, prev[i], prev[j])
    {
      assert SeenBefore(pre, prev[i], prev[j]);
      var p :| 0 <= p < |pre| && pre[p].attribute == prev[i] && forall q | 0 <= q <= p :: pre[q].attribute != prev[j];
      assert forall q | 0 <= q <= p :: cs[q] == pre[q];
    }
    if c.attribute !in prev {
      forall i | 0 <= i < |prev|
        ensures SeenBefore(cs, prev[i], c.attribute)
      {
        assert prev[i] in prev;
        var p :| 0 <= p < |pre| && pre[p].attribute == prev[i];
        assert forall q | 0 <= q <= p :: cs[q] == pre[q];
      }
    }
  }

  /** An attribute that no condition mentions has nothing recorded. */
  lemma {:induction false} ConditionsForAbsent(cs: seq<Condition>, a: Attribute)
    requires forall i | 0 <= i < |cs| :: cs[i].attribute != a
    ensures ConditionsFor(cs, a) == []
    decreases |cs|
  {
    if cs != [] {
      ConditionsForAbsent(cs[..|cs| - 1], a);
    }
  }

  /** The validation loop over the attributes, stopping at the first conflict. */
  function ValidateAll(order: seq<Attribute>, cs: seq<Condition>): (r: Outcome<Error>)
    ensures r.Pass? <==> forall k | 0 <= k < |order| :: ValidateAttribute(order[k], ConditionsFor(cs, order[k])).Pass?
    ensures r.Fail? ==> exists k | 0 <= k < |order| ::
      (r == ValidateAttribute(order[k], ConditionsFor(cs, order[k]))
       && forall j | 0 <= j < k :: ValidateAttribute(order[j], ConditionsFor(cs, order[j])).Pass?)
    decreases |order|
  {
    if order == [] then Pass
    else
      var first := ValidateAttribute(order[0], ConditionsFor(cs, order[0]));
      if first.Fail? then first else ValidateAll(order[1..], cs)
  }

  /**
   * `_parse_filter_string`: every segment must match (syntax errors come
   * first, reported for the first bad segment), then every attribute is
   * validated in the order it first appeared; on success one condition per
   * segment, in order.
   */
  function ParseFilter(filterString: string): Result<seq<Condition>, Error> {
    var matched := Collect(SegmentResults(filterString));
    if matched.Err? then Err(matched.error)
    else
      var cs := matched.value;
      var validated := ValidateAll(AttributeOrder(cs), cs);
      if validated.Fail? then Err(validated.error) else Ok(cs)
  }

  /** Matching succeeds exactly when every segment matches, with the conditions they spell. */
  lemma MatchedSegments(filterString: string)
    ensures Collect(SegmentResults(filterString)).Ok? ==> AllMatch(Segments(filterString), Collect(SegmentResults(filterString)).value)
  {
    var segs := Segments(filterString);
    var rs := SegmentResults(filterString);
    CollectOk(rs);
    if Collect(rs).Ok? {
      var cs := Collect(rs).value;
      forall i | 0 <= i < |segs| ensures MatchCondition(segs[i]) == Some(cs[i]) {
        assert rs[i] == Ok(cs[i]);
      }
    }
  }

  /** A successful parse yields one condition per `and`-separated segment, each the one it spells. */
  lemma ParseFilterShape(filterString: string)
    ensures ParseFilter(filterString).Ok? ==> |ParseFilter(filterString).value| == |Split(filterString, "and")|
    ensures ParseFilter(filterString).Ok? ==> AllMatch(Segments(filterString), ParseFilter(filterString).value)
  {
    MatchedSegments(filterString);
  }

  /** The conditions of one filter string are free of conflicts, attribute by attribute. */
  ghost predicate Consistent(cs: seq<Condition>) {
    forall a: Attribute :: SingleEquality(ConditionsFor(cs, a)) && RangeOpen(ConditionsFor(cs, a))
  }

  /** The validation loop passes exactly when no attribute has a conflict. */
  lemma ValidateAllIff(cs: seq<Condition>)
    ensures ValidateAll(AttributeOrder(cs), cs).Pass? <==> Consistent(cs)
  {
    var order := AttributeOrder(cs);
    forall a: Attribute
      ensures ValidateAttribute(a, ConditionsFor(cs, a)).Pass? <==> SingleEquality(ConditionsFor(cs, a)) && RangeOpen(ConditionsFor(cs, a))
    {
      ValidateAttributeIff(a, ConditionsFor(cs, a));
    }
    if ValidateAll(order, cs).Pass? {
      forall a: Attribute ensures SingleEquality(ConditionsFor(cs, a)) && RangeOpen(ConditionsFor(cs, a)) {
        if a in order {
          var k :| 0 <= k < |order| && order[k] == a;
          assert ValidateAttribute(order[k], ConditionsFor(cs, order[k])).Pass?;
        } else {
          ConditionsForAbsent(cs, a);
          assert ConditionsFor(cs, a) == [];
        }
      }
    }
  }

  /**
   * Once every segment matches, the parse succeeds exactly when no attribute
   * has two `==` conditions or a lower bound at or above an upper bound; the
   * two attributes are never compared with each other.
   */
  lemma ParseFilterAccepts(filterString: string, cs: seq<Condition>)
    requires AllMatch(Segments(filterString), cs)
    ensures ParseFilter(filterString) == Ok(cs) <==> Consistent(cs)
    ensures ParseFilter(filterString).Err? ==> ParseFilter(filterString).error.ConflictingEquality? || ParseFilter(filterString).error.ConflictingRange?
  {
    var segs := Segments(filterString);
    var rs := SegmentResults(filterString);
    forall i | 0 <= i < |rs| ensures rs[i] == Ok(cs[i]) {
      assert MatchCondition(segs[i]) == Some(cs[i]);
    }
    CollectOk(rs);
    assert Collect(rs).value == cs;
    ValidateAllIff(cs);
  }

  /** A segment that does not match is reported even when later segments conflict. */
  lemma SyntaxErrorFirst(filterString: string, i: nat)
    requires FirstMismatch(Segments(filterString), i)
    ensures ParseFilter(filterString) == Err(InvalidFilterCondition(Segments(filterString)[i]))
  {
    var segs := Segments(filterString);
    var rs := SegmentResults(filterString);
    assert FirstFailure(rs, i) by {
      forall j | 0 <= j < i ensures rs[j].Ok? {
        assert MatchCondition(segs[j]).Some?;
      }
    }
    CollectErr(rs, i);
  }

  /** Parsing fails only with a syntax error naming a segment, or a conflict on an attribute. */
  lemma ParseFilterErrors(filterString: string)
    ensures ParseFilter(filterString).Err? ==>
      || ParseFilter(filterString).error.InvalidFilterCondition?
      || ParseFilter(filterString).error.ConflictingEquality?
      || ParseFilter(filterString).error.ConflictingRange?
  {
    var rs := SegmentResults(filterString);
    CollectOk(rs);
    if Collect(rs).Err? {
      var k :| 0 <= k < |rs| && rs[k].Err?;
      FirstFailureExists(rs, k);
      var i: nat :| i <= k && FirstFailure(rs, i);
      CollectErr(rs, i);
      assert Collect(rs).error == MatchSegment(Segments(filterString)[i]).error;
    }
  }

  /**
   * The conditions, the file contents and the filter application: a file
   * name outside `disk` stands for a file that cannot be read as a JSON
   * array; `applyFilter` is `NumberComparisonFilter(...).apply_filter`.
   */
  datatype Env = Env(disk: map<string, seq<string>>, applyFilter: (Condition, seq<string>) -> seq<string>)

  /** `_read_word_json` / `read_word_json`. */
  function ReadWordJson(env: Env, filename: string): (r: Result<seq<string>, Error>)
    ensures r.Ok? <==> filename in env.disk
    ensures r.Ok? ==> r.value == env.disk[filename]
    ensures r.Err? ==> r.error == UnreadableFile(filename)
  {
    if filename in env.disk then Ok(env.disk[filename]) else Err(UnreadableFile(filename))
  }

  /**
   * `_filter_words`: read the file, then parse the filter string, then run
   * the conditions over the words one after another.
   */
  function FilterWords(env: Env, filename: string, filterString: string): (r: Result<seq<string>, Error>)
    ensures filename !in env.disk ==> r == Err(UnreadableFile(filename))
    ensures filename in env.disk && ParseFilter(filterString).Err? ==> r == Err(ParseFilter(filterString).error)
    ensures r.Ok? ==> filename in env.disk && ParseFilter(filterString).Ok?
  {
    var words := ReadWordJson(env, filename);
    if words.Err? then Err(words.error)
    else
      var filters := ParseFilter(filterString);
      if filters.Err? then Err(filters.error)
      else Ok(Pipe(filters.value, words.value, env.applyFilter))
  }

  /**
   * If no filter ever lengthens the list it is given, the words that
   * survive a filter string are never more than the file holds.
   */
  lemma FilterWordsNarrows(env: Env, filename: string, filterString: string)
    requires forall c, w :: |env.applyFilter(c, w)| <= |w|
    ensures FilterWords(env, filename, filterString).Ok? ==> |FilterWords(env, filename, filterString).value| <= |env.disk[filename]|
  {
    var filters := ParseFilter(filterString);
    if filename in env.disk && filters.Ok? {
      PipeRelates(filters.value, env.disk[filename], env.applyFilter, (x: seq<string>, y: seq<string>) => |x| <= |y|);
    }
  }

  /** Recording one more condition: its attribute joins the key order if new, and its pair joins that attribute's list. */
  lemma RecordStep(cs: seq<Condition>, c: Condition)
    ensures AttributeOrder(cs + [c]) == if c.attribute in AttributeOrder(cs) then AttributeOrder(cs) else AttributeOrder(cs) + [c.attribute]
    ensures forall a :: ConditionsFor(cs + [c], a) == ConditionsFor(cs, a) + (if a == c.attribute then [(c.op, c.target)] else [])
  {
    assert (cs + [c])[..|cs|] == cs;
  }

  /** Validating from key `k` on: key `k` first, then the rest unless it failed. */
  lemma ValidateAllStep(order: seq<Attribute>, cs: seq<Condition>, k: nat)
    requires k < |order|
    ensures ValidateAll(order[k..], cs) ==
      if ValidateAttribute(order[k], ConditionsFor(cs, order[k])).Fail? then ValidateAttribute(order[k], ConditionsFor(cs, order[k]))
      else ValidateAll(order[k + 1..], cs)
  {
    assert order[k..][1..] == order[k + 1..];
  }
}
