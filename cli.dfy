/**
 * The part of main.py's `main` after argument parsing: the inline copy of
 * the list assembly (main.py:178-229), the "no matches" check
 * (main.py:231-234), the combination of the lists, and the formatters that
 * `get_formatters` selects, applied one after another (main.py:160-173,
 * 240-243). Printing and writing the results are not part of this model.
 */
module Cli {
  import opened Results
  import opened Conditions
  import opened FilterSpec
  import opened Assembly
  import opened Pouring
  import opened Combinations
  import opened Formatting
  import opened Pipes
  import Alchemist

  /**
   * The parsed command line, as `parse_args` leaves it: `--files` holds at
   * least one name, every other option defaults to empty or false.
   */
  datatype Args = Args(files: seq<string>, filters: seq<string>, firstWord: string, secondWord: string,
                       join: bool, capitalize: bool, append: string)

  /** How `main` ends: with `sys.exit(message)`, with the notice, or with results to output. */
  datatype Run = Exit(error: Error) | NoMatches | Output(results: seq<string>)

  /**
   * The list assembly in `main`: the same plan as `WordAlchemist._pour` on
   * the same inputs, and the same first error, which `main` reports through
   * `sys.exit` instead of raising it.
   */
  method AssembleWordLists(env: Env, args: Args) returns (r: Result<seq<seq<string>>, Error>)
    ensures r == Assemble(env, args.files, args.filters, args.firstWord, args.secondWord)
  {
    var filterLength := |args.filters|;
    var fileLength := |args.files|;
    if filterLength > fileLength {
      return Err(TooManyFilters(filterLength, fileLength));
    }

    ghost var rs := FileResults(env, args.files, args.filters);
    var wordLists: seq<seq<string>> := [];
    if args.firstWord != "" {
      wordLists := wordLists + [[args.firstWord]];
      if args.secondWord != "" {
        wordLists := wordLists + [[args.secondWord]];
      }
    }
    assert PouredUpTo(rs, args.firstWord, args.secondWord, 0, [], wordLists);

    ghost var lists: seq<seq<string>>;
    if filterLength == 0 {
      forall i | 0 <= i < fileLength ensures rs[i] == ReadWordJson(env, args.files[i]) {
        FileResultAt(env, args.files, args.filters, i);
      }
      r, lists := ReadEach(env, args.files, args.firstWord, args.secondWord, rs, [], wordLists);
    } else {
      forall i | 0 <= i < fileLength
        ensures i < filterLength ==> rs[i] == FilterWords(env, args.files[i], args.filters[i])
        ensures filterLength <= i ==> rs[i] == FilterWords(env, args.files[i], args.filters[filterLength - 1])
      {
        FileResultAt(env, args.files, args.filters, i);
      }
      r, lists := FilterEach(env, args.files, args.filters, args.firstWord, args.secondWord, rs, [], wordLists);
      if r.Ok? && fileLength > filterLength {
        r, lists := FilterRest(env, args.files, args.filters, args.firstWord, args.secondWord, rs, lists, r.value);
      }
    }
    if r.Ok? {
      PourDone(rs, args.firstWord, args.secondWord, lists, r.value);
    }
  }

  /** The check `main` makes before combining, as written: only an empty plan counts as no matches. */
  predicate NoticeAsWritten(plan: seq<seq<string>>) {
    plan == []
  }

  /**
   * As written, the notice needs a plan with no lists at all, which needs no
   * first word and no files; `parse_args` always supplies a file, so the
   * notice is never printed.
   */
  lemma NoticeAsWrittenNeedsNoFiles(env: Env, args: Args)
    ensures Assemble(env, args.files, args.filters, args.firstWord, args.secondWord) == Ok([])
        <==> args.firstWord == "" && args.files == [] && args.filters == []
    ensures |args.files| > 0 ==>
      !(Assemble(env, args.files, args.filters, args.firstWord, args.secondWord).Ok?
        && NoticeAsWritten(Assemble(env, args.files, args.filters, args.firstWord, args.secondWord).value))
  {
    EmptyPlan(env, args.files, args.filters, args.firstWord, args.secondWord);
  }

  /**
   * One readable file holding no words: the plan is `[[]]`, the check as
   * written lets it through, and there is nothing to output.
   */
  lemma NoticeAsWrittenMissesEmptyFile(applyFilter: (Condition, seq<string>) -> seq<string>)
    ensures Assemble(Env(map["words.json" := []], applyFilter), ["words.json"], [], "", "") == Ok([[]])
    ensures !NoticeAsWritten([[]]) && Combine([[]]) == []
  {
    var env := Env(map["words.json" := []], applyFilter);
    var rs: seq<Result<seq<string>, Error>> := [Ok([])];
    assert FileResults(env, ["words.json"], []) == rs;
    assert rs[..0] == [] && rs[..1] == rs;
    CollectStep(rs, 0, []);
    assert Collect(rs) == Ok([] + [rs[0].value]);
    assert [] + [rs[0].value] == [[]];
    assert Collect(FileResults(env, ["words.json"], [])) == Ok([[]]);
    assert Leading("", "") == [] && WithSecond([[]], "", "") == [[]];
    assert Assemble(env, ["words.json"], [], "", "") == Ok([[]]);
    CombineEdgeCases([[]]);
  }

  /**
   * The check the notice's wording asks for: no combination at all, which
   * is exactly a plan holding an empty list.
   */
  predicate NoticeIntended(plan: seq<seq<string>>) {
    exists i | 0 <= i < |plan| :: plan[i] == []
  }

  /** The intended check holds exactly when there is nothing to output. */
  lemma NoticeIntendedIff(plan: seq<seq<string>>)
    ensures NoticeIntended(plan) <==> Combine(plan) == []
  {
    CombineEdgeCases(plan);
    assert |Combine(plan)| == Count(plan);
  }

  /** The formatters `get_formatters` selects: join, append, capitalize, each only when asked for. */
  function Selected(args: Args): (fs: seq<Formatter>)
    ensures JoinFormatter in fs <==> args.join
    ensures AppendFormatter(args.append) in fs <==> args.append != ""
    ensures forall f | f in fs && f.AppendFormatter? :: f.suffix == args.append
    ensures CapitalizeFormatter in fs <==> args.capitalize
    ensures InFixedOrder(fs)
  {
    (if args.join then [JoinFormatter] else [])
      + (if args.append != "" then [AppendFormatter(args.append)] else [])
      + (if args.capitalize then [CapitalizeFormatter] else [])
  }

  /** `get_formatters`. */
  method GetFormatters(args: Args) returns (formatters: seq<Formatter>)
    ensures formatters == Selected(args)
  {
    formatters := [];
    if args.join {
      formatters := formatters + [JoinFormatter];
    }
    if args.append != "" {
      formatters := formatters + [AppendFormatter(args.append)];
    }
    if args.capitalize {
      formatters := formatters + [CapitalizeFormatter];
    }
  }

  /**
   * Formatters that each keep the number of results keep it together, so
   * every combination is still there after formatting.
   */
  lemma FormattersKeepCount(formatters: seq<Formatter>, results: seq<string>, apply: (Formatter, seq<string>) -> seq<string>)
    requires forall f, xs :: |apply(f, xs)| == |xs|
    ensures |Pipe(formatters, results, apply)| == |results|
  {
    PipeRelates(formatters, results, apply, (a: seq<string>, b: seq<string>) => |a| == |b|);
  }

  /**
   * `main` from the assembled lists on: an exit on the first error, the
   * notice when there is nothing to combine, else every combination passed
   * through the selected formatters. The notice uses the intended check.
   */
  method Execute(env: Env, args: Args, apply: (Formatter, seq<string>) -> seq<string>) returns (o: Run)
    ensures Assemble(env, args.files, args.filters, args.firstWord, args.secondWord).Err? ==>
      o == Exit(Assemble(env, args.files, args.filters, args.firstWord, args.secondWord).error)
    ensures Assemble(env, args.files, args.filters, args.firstWord, args.secondWord).Ok? ==>
      var plan := Assemble(env, args.files, args.filters, args.firstWord, args.secondWord).value;
      if Combine(plan) == [] then o == NoMatches else o == Output(Pipe(Selected(args), Combine(plan), apply))
  {
    var wordLists := AssembleWordLists(env, args);
    if wordLists.Err? {
      return Exit(wordLists.error);
    }
    NoticeIntendedIff(wordLists.value);
    if NoticeIntended(wordLists.value) {
      return NoMatches;
    }
    var results := Alchemist.JoinCombinations(wordLists.value);
    var formatters := GetFormatters(args);
    results := RunSteps(formatters, results, apply);
    return Output(results);
  }
}
