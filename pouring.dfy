/**
 * The three loops that build the word lists, shared by `WordAlchemist._pour`
 * (word_alchemist.py:64-90) and the inline copy in main.py's `main`
 * (main.py:193-229), whose loop text is the same. Each loop is proved against
 * `Assembly.FileResults`: after file `i` the lists built so far are the
 * successes of files `0..i` laid out as the plan lays them out, and a failure
 * is the first failure of the whole plan.
 */
module Pouring {
  import opened Results
  import opened Conditions
  import opened FilterSpec
  import Filtering
  import opened Assembly

  /** The unfiltered loop of `_pour` and `main`: every file read in turn, `[second_word]` after file 0's list when that rule applies. */
  method ReadEach(env: Env, files: seq<string>, first: string, second: string, ghost rs: seq<Result<seq<string>, Error>>, ghost lists: seq<seq<string>>, wordLists: seq<seq<string>>)
    returns (r: Result<seq<seq<string>>, Error>, ghost lists': seq<seq<string>>)
    requires |rs| == |files| && forall i {:trigger rs[i]} | 0 <= i < |files| :: rs[i] == ReadWordJson(env, files[i])
    requires PouredUpTo(rs, first, second, 0, lists, wordLists)
    ensures r.Err? ==> Collect(rs) == Err(r.error)
    ensures r.Ok? ==> PouredUpTo(rs, first, second, |files|, lists', r.value)
  {
    var acc := wordLists;
    lists' := lists;
    for i := 0 to |files|
      invariant PouredUpTo(rs, first, second, i, lists', acc)
    {
      var words := ReadWordJson(env, files[i]);
      PourStep(rs, first, second, i, lists', acc);
      if words.Err? {
        return Err(words.error), lists';
      }
      lists' := lists' + [words.value];
      acc := acc + [words.value];
      if i == 0 && second != "" && first == "" {
        acc := acc + [[second]];
      }
    }
    return Ok(acc), lists';
  }

  /**
   * One step of a filtered loop of `_pour` and `main`: file `i` through `filter`, its
   * words appended, `[second_word]` after file 0's list when that rule
   * applies; a failure stops the whole pour.
   */
  method FilterFile(env: Env, files: seq<string>, first: string, second: string, ghost rs: seq<Result<seq<string>, Error>>, i: nat, filter: string,
                    ghost lists: seq<seq<string>>, wordLists: seq<seq<string>>)
    returns (r: Result<seq<seq<string>>, Error>, ghost lists': seq<seq<string>>)
    requires i < |rs| == |files|
    requires rs[i] == FilterWords(env, files[i], filter)
    requires PouredUpTo(rs, first, second, i, lists, wordLists)
    ensures r.Err? ==> Collect(rs) == Err(r.error)
    ensures r.Ok? ==> PouredUpTo(rs, first, second, i + 1, lists', r.value)
  {
    var filtered := Filtering.FilterWords(env, files[i], filter);
    PourStep(rs, first, second, i, lists, wordLists);
    if filtered.Err? {
      return Err(filtered.error), lists;
    }
    var acc := wordLists + [filtered.value];
    if i == 0 && second != "" && first == "" {
      acc := acc + [[second]];
    }
    return Ok(acc), lists + [filtered.value];
  }

  /** The first filtered loop of `_pour` and `main`: file `i` through `filters[i]`. */
  method FilterEach(env: Env, files: seq<string>, filters: seq<string>, first: string, second: string, ghost rs: seq<Result<seq<string>, Error>>, ghost lists: seq<seq<string>>, wordLists: seq<seq<string>>)
    returns (r: Result<seq<seq<string>>, Error>, ghost lists': seq<seq<string>>)
    requires |rs| == |files| && |filters| <= |files|
    requires forall i {:trigger rs[i]} | 0 <= i < |filters| :: rs[i] == FilterWords(env, files[i], filters[i])
    requires PouredUpTo(rs, first, second, 0, lists, wordLists)
    ensures r.Err? ==> Collect(rs) == Err(r.error)
    ensures r.Ok? ==> PouredUpTo(rs, first, second, |filters|, lists', r.value)
  {
    var acc := wordLists;
    lists' := lists;
    for i := 0 to |filters|
      invariant PouredUpTo(rs, first, second, i, lists', acc)
    {
      var step;
      step, lists' := FilterFile(env, files, first, second, rs, i, filters[i], lists', acc);
      if step.Err? {
        return step, lists';
      }
      acc := step.value;
    }
    return Ok(acc), lists';
  }

  /** The last loop of `_pour` and `main`: every file past the last filter goes through the last filter. */
  method FilterRest(env: Env, files: seq<string>, filters: seq<string>, first: string, second: string, ghost rs: seq<Result<seq<string>, Error>>, ghost lists: seq<seq<string>>, wordLists: seq<seq<string>>)
    returns (r: Result<seq<seq<string>>, Error>, ghost lists': seq<seq<string>>)
    requires |rs| == |files| && 0 < |filters| <= |files|
    requires forall i {:trigger rs[i]} | |filters| <= i < |files| :: rs[i] == FilterWords(env, files[i], filters[|filters| - 1])
    requires PouredUpTo(rs, first, second, |filters|, lists, wordLists)
    ensures r.Err? ==> Collect(rs) == Err(r.error)
    ensures r.Ok? ==> PouredUpTo(rs, first, second, |files|, lists', r.value)
  {
    var acc := wordLists;
    lists' := lists;
    var lastFilter := filters[|filters| - 1];
    for i := |filters| to |files|
      invariant PouredUpTo(rs, first, second, i, lists', acc)
    {
      var step;
      step, lists' := FilterFile(env, files, first, second, rs, i, lastFilter, lists', acc);
      if step.Err? {
        return step, lists';
      }
      acc := step.value;
    }
    return Ok(acc), lists';
  }
}
