/**
 * One filter condition, `attribute operator target`, and the full-match test
 * of a stripped segment against `^(length|syllables)\s*(==|!=|>=|<=|>|<)\s*(\d+)$`
 * (word_alchemist.py:97 and main.py:101).
 */
module Conditions {
  import opened Results
  import opened PyText

  /** The keys of `filter_map`: the measurements a condition can compare. */
  datatype Attribute = Length | Syllables

  datatype Op = Eq | Ne | Ge | Le | Gt | Lt

  /**
   * A parsed condition; it is also what a `NumberComparisonFilter` is built from
   * (the attribute selects the measurement, then the operator and the target).
   */
  datatype Condition = Condition(attribute: Attribute, op: Op, target: nat)

  /** Every way the pipeline can stop, with the details its message reports. */
  datatype Error =
    | InvalidFilterCondition(segment: string)
    | ConflictingEquality(attribute: Attribute, targets: seq<nat>)
    | ConflictingRange(attribute: Attribute, min: nat, max: nat)
    | TooManyFilters(filters: nat, files: nat)
    | UnreadableFile(filename: string)

  function AttributeName(a: Attribute): string {
    match a
    case Length => "length"
    case Syllables => "syllables"
  }

  function OpSymbol(op: Op): string {
    match op
    case Eq => "=="
    case Ne => "!="
    case Ge => ">="
    case Le => "<="
    case Gt => ">"
    case Lt => "<"
  }

  /** The `(length|syllables)` group, anchored at the start. */
  function MatchAttribute(s: string): (r: Option<(Attribute, string)>)
    ensures r.Some? ==> s == AttributeName(r.value.0) + r.value.1
  {
    if AttributeName(Length) <= s then Some((Length, s[|AttributeName(Length)|..]))
    else if AttributeName(Syllables) <= s then Some((Syllables, s[|AttributeName(Syllables)|..]))
    else None
  }

  /** The `(==|!=|>=|<=|>|<)` group: alternatives tried in the order written. */
  function MatchOp(s: string): (r: Option<(Op, string)>)
    ensures r.Some? ==> s == OpSymbol(r.value.0) + r.value.1
  {
    if OpSymbol(Eq) <= s then Some((Eq, s[2..]))
    else if OpSymbol(Ne) <= s then Some((Ne, s[2..]))
    else if OpSymbol(Ge) <= s then Some((Ge, s[2..]))
    else if OpSymbol(Le) <= s then Some((Le, s[2..]))
    else if OpSymbol(Gt) <= s then Some((Gt, s[1..]))
    else if OpSymbol(Lt) <= s then Some((Lt, s[1..]))
    else None
  }

  /**
   * `re.match(pattern, s)`: the attribute, then `\s*` (greedy; giving back
   * spaces can never help, since neither an operator nor a digit is a space),
   * the operator, `\s*` again, and digits up to the end of `s`.
   */
  function MatchCondition(s: string): Option<Condition> {
    var name := MatchAttribute(s);
    if name.None? then None
    else
      var op := MatchOp(TrimLeft(name.value.1));
      if op.None? then None
      else
        var digits := TrimLeft(op.value.1);
        if IsNumeral(digits) then Some(Condition(name.value.0, op.value.0, DecimalValue(digits))) else None
  }

  /** `s` is the attribute, spaces, the operator, spaces and a numeral for `c`, in that order. */
  predicate SpelledAs(s: string, c: Condition, ws1: string, ws2: string, ds: string) {
    && AllSpace(ws1) && AllSpace(ws2) && IsNumeral(ds) && DecimalValue(ds) == c.target
    && s == AttributeName(c.attribute) + (ws1 + (OpSymbol(c.op) + (ws2 + ds)))
  }

  /** The language of the pattern, written as the concatenation it describes. */
  ghost predicate Spells(s: string, c: Condition) {
    exists ws1: string, ws2: string, ds: string :: SpelledAs(s, c, ws1, ws2, ds)
  }

  /** The matcher accepts exactly the strings the pattern spells, with the condition they spell. */
  lemma MatchConditionIff(s: string, c: Condition)
    ensures MatchCondition(s) == Some(c) <==> Spells(s, c)
  {
    if MatchCondition(s) == Some(c) {
      MatchConditionSpells(s, c);
    }
    if Spells(s, c) {
      var ws1: string, ws2: string, ds: string :| SpelledAs(s, c, ws1, ws2, ds);
      SpelledMatches(c, ws1, ws2, ds);
    }
  }

  lemma MatchConditionSpells(s: string, c: Condition)
    requires MatchCondition(s) == Some(c)
    ensures Spells(s, c)
  {
    var am := MatchAttribute(s);
    var afterName := am.value.1;
    var om := MatchOp(TrimLeft(afterName));
    var afterOp := om.value.1;
    var ds := TrimLeft(afterOp);
    assert am.value.0 == c.attribute && om.value.0 == c.op;
    assert IsNumeral(ds) && DecimalValue(ds) == c.target;
    var ws1 := LeadingSpaces(afterName);
    var ws2 := LeadingSpaces(afterOp);
    assert SpelledAs(s, c, ws1, ws2, ds);
  }

  /** The whitespace `lstrip` removes from `s`. */
  function LeadingSpaces(s: string): (ws: string)
    ensures AllSpace(ws) && s == ws + TrimLeft(s)
  {
    var ws := s[..|s| - |TrimLeft(s)|];
    assert s == ws + TrimLeft(s);
    ws
  }

  /** The operator group picks the operator that is written, even `>` before a space or digit. */
  lemma MatchOpSpelled(op: Op, tail: string)
    requires tail != [] && (IsSpace(tail[0]) || IsDigit(tail[0]))
    ensures MatchOp(OpSymbol(op) + tail) == Some((op, tail))
  {
    var t := OpSymbol(op) + tail;
    assert t[|OpSymbol(op)|..] == tail;
    assert t[0] == OpSymbol(op)[0];
    if |OpSymbol(op)| == 1 {
      assert t[1] == tail[0] && tail[0] != '=';
    } else {
      assert t[1] == OpSymbol(op)[1];
    }
  }

  lemma MatchAttributeSpelled(a: Attribute, rest: string)
    ensures MatchAttribute(AttributeName(a) + rest) == Some((a, rest))
  {
    var t := AttributeName(a) + rest;
    assert t[|AttributeName(a)|..] == rest;
    assert AttributeName(a) <= t;
    if a == Syllables {
      assert t[0] == 's';
      assert !(AttributeName(Length) <= t);
    }
  }

  lemma SpelledMatches(c: Condition, ws1: string, ws2: string, ds: string)
    requires AllSpace(ws1) && AllSpace(ws2) && IsNumeral(ds) && DecimalValue(ds) == c.target
    ensures MatchCondition(AttributeName(c.attribute) + (ws1 + (OpSymbol(c.op) + (ws2 + ds)))) == Some(c)
  {
    var afterName := ws1 + (OpSymbol(c.op) + (ws2 + ds));
    MatchAttributeSpelled(c.attribute, afterName);
    OperatorPartMatches(c.op, ws1, ws2, ds);
    MatchConditionFrom(AttributeName(c.attribute) + afterName, c.attribute, afterName, c.op, ws2 + ds);
  }

  /** After the attribute: spaces skipped, the written operator matched, spaces skipped, the numeral left. */
  lemma OperatorPartMatches(op: Op, ws1: string, ws2: string, ds: string)
    requires AllSpace(ws1) && AllSpace(ws2) && IsNumeral(ds)
    ensures MatchOp(TrimLeft(ws1 + (OpSymbol(op) + (ws2 + ds)))) == Some((op, ws2 + ds))
    ensures TrimLeft(ws2 + ds) == ds
  {
    SymbolStart(op, ws2 + ds);
    TrimLeftAfterSpaces(ws1, OpSymbol(op) + (ws2 + ds));
    NumeralStart(ws2, ds);
    MatchOpSpelled(op, ws2 + ds);
    TrimLeftAfterSpaces(ws2, ds);
  }

  /** No operator starts with a space. */
  lemma SymbolStart(op: Op, tail: string)
    ensures OpSymbol(op) + tail != [] && !IsSpace((OpSymbol(op) + tail)[0])
  {
    assert (OpSymbol(op) + tail)[0] == OpSymbol(op)[0];
  }

  /** Spaces then a numeral start with a space or a digit; a numeral never starts with a space. */
  lemma NumeralStart(ws: string, ds: string)
    requires AllSpace(ws) && IsNumeral(ds)
    ensures ws + ds != [] && (IsSpace((ws + ds)[0]) || IsDigit((ws + ds)[0]))
    ensures !IsSpace(ds[0])
  {
    if ws == [] {
      assert (ws + ds)[0] == ds[0];
    } else {
      assert (ws + ds)[0] == ws[0];
    }
  }

  /** `MatchCondition` put together from what each of its groups matched. */
  lemma MatchConditionFrom(s: string, a: Attribute, afterName: string, op: Op, afterOp: string)
    requires MatchAttribute(s) == Some((a, afterName))
    requires MatchOp(TrimLeft(afterName)) == Some((op, afterOp))
    requires IsNumeral(TrimLeft(afterOp))
    ensures MatchCondition(s) == Some(Condition(a, op, DecimalValue(TrimLeft(afterOp))))
  {
  }
}
