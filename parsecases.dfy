/**
 * Concrete filter strings that show how `_parse_filter_string` treats the
 * word `and` (word_alchemist.py:96-105): it cuts on the bare letters, so
 * an empty filter string or a trailing `and` leaves an empty segment, which
 * the pattern rejects.
 */
module ParseCases {
  import opened Results
  import opened PyText
  import opened Conditions
  import opened FilterSpec

  /** An empty filter string is one empty segment, and that is a syntax error. */
  lemma EmptyFilterStringRejected()
    ensures ParseFilter("") == Err(InvalidFilterCondition(""))
  {
    assert Split("", "and") == [""];
    EmptySegmentUnmatched();
    assert Segments("")[0] == "";
    SyntaxErrorFirst("", 0);
  }

  /**
   * Whatever precedes it, a trailing `and` leaves an empty last segment, so
   * the parse fails with a syntax error.
   */
  lemma TrailingAndRejected(s: string)
    ensures ParseFilter(s + "and").Err? && ParseFilter(s + "and").error.InvalidFilterCondition?
  {
    SplitTrailingAnd(s);
    EmptyPieceRejected(s + "and", |Split(s + "and", "and")| - 1);
  }

  /** Any empty piece between the `and`s makes the parse fail with a syntax error. */
  lemma EmptyPieceRejected(fs: string, k: nat)
    requires k < |Split(fs, "and")| && Split(fs, "and")[k] == ""
    ensures ParseFilter(fs).Err? && ParseFilter(fs).error.InvalidFilterCondition?
  {
    var rs := SegmentResults(fs);
    assert Segments(fs)[k] == Strip("");
    EmptySegmentUnmatched();
    assert rs[k].Err?;
    CollectOk(rs);
    ParseFilterErrorIsSyntax(fs);
  }

  /** The empty segment names no attribute, so it never matches. */
  lemma EmptySegmentUnmatched()
    ensures Strip("") == "" && MatchSegment("").Err?
  {
    assert TrimLeft("") == "" && TrimRight("") == "";
    assert MatchAttribute("") == None by {
      assert !(AttributeName(Length) <= "") && !(AttributeName(Syllables) <= "");
    }
  }

  /** Before validation runs, a failed match is the only possible error. */
  lemma ParseFilterErrorIsSyntax(fs: string)
    requires Collect(SegmentResults(fs)).Err?
    ensures ParseFilter(fs).Err? && ParseFilter(fs).error.InvalidFilterCondition?
  {
    var rs := SegmentResults(fs);
    CollectOk(rs);
    var k :| 0 <= k < |rs| && rs[k].Err?;
    FirstFailureExists(rs, k);
    var i: nat :| i <= k && FirstFailure(rs, i);
    CollectErr(rs, i);
  }

  /** Splitting `s + "and"` on `and` gives at least two pieces, the last one empty. */
  lemma {:induction false} SplitTrailingAnd(s: string)
    ensures |Split(s + "and", "and")| >= 2
    ensures Split(s + "and", "and")[|Split(s + "and", "and")| - 1] == ""
    decreases |s|
  {
    var t := s + "and";
    if s == [] {
      assert t == "and" && t[..3] == "and" && t[3..] == "";
    } else if |s| >= 3 && t[..3] == "and" {
      assert t[3..] == s[3..] + "and";
      SplitTrailingAnd(s[3..]);
    } else {
      if |s| < 3 {
        ShortHeadNotAnd(s);
      }
      assert t[1..] == s[1..] + "and";
      SplitTrailingAnd(s[1..]);
    }
  }

  /** One or two characters before `and` cannot themselves start an `and`. */
  lemma ShortHeadNotAnd(s: string)
    requires 0 < |s| < 3
    ensures (s + "and")[..3] != "and"
  {
    var t := s + "and";
    assert t[|s|] == 'a';
    assert "and"[|s|] != 'a';
  }
}
