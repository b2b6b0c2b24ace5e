/**
 * What `_pour` (word_alchemist.py:45-92) and the list assembly of `main`
 * (main.py:178-229) build: the ordered word lists the combinations are taken
 * over.
 */
module Assembly {
  import opened Results
  import opened Conditions
  import opened FilterSpec

  /**
   * The single-word lists that open the plan: `[first_word]`, then
   * `[second_word]` right after it, both only when a first word is given.
   */
  function Leading(first: string, second: string): seq<seq<string>> {
    if first == "" then [] else [[first]] + (if second == "" then [] else [[second]])
  }

  /** No first word but a second word: the second word goes right after file 0's list. */
  predicate SecondAfterFirstFile(first: string, second: string) {
    first == "" && second != ""
  }

  /**
   * The filter string file `i` goes through: its own while there are enough,
   * the last one for every file after that, none when there are no filters.
   */
  function FilterFor(filters: seq<string>, i: nat): Option<string> {
    if filters == [] then None else Some(filters[if i < |filters| then i else |filters| - 1])
  }

  /** The list file `i` contributes: its words, filtered when there is a filter for it. */
  function FileList(env: Env, files: seq<string>, filters: seq<string>, i: nat): Result<seq<string>, Error>
    requires i < |files|
  {
    var f := FilterFor(filters, i);
    if f.None? then ReadWordJson(env, files[i]) else FilterWords(env, files[i], f.value)
  }

  /** What each file contributes, in file order. */
  function FileResults(env: Env, files: seq<string>, filters: seq<string>): (rs: seq<Result<seq<string>, Error>>)
    ensures |rs| == |files|
    ensures forall i | 0 <= i < |files| :: rs[i] == FileList(env, files, filters, i)
  {
    seq(|files|, i requires 0 <= i < |files| => FileList(env, files, filters, i))
  }

  /** The file lists with `[second]` placed after the first one when that rule applies. */
  function WithSecond(lists: seq<seq<string>>, first: string, second: string): seq<seq<string>> {
    if SecondAfterFirstFile(first, second) && |lists| > 0 then [lists[0], [second]] + lists[1..] else lists
  }

  /** The plan `_pour` returns, or the error it raises first. */
  function Assemble(env: Env, files: seq<string>, filters: seq<string>, first: string, second: string)
    : Result<seq<seq<string>>, Error>
  {
    if |filters| > |files| then Err(TooManyFilters(|filters|, |files|))
    else
      var lists := Collect(FileResults(env, files, filters));
      if lists.Err? then Err(lists.error)
      else Ok(Leading(first, second) + WithSecond(lists.value, first, second))
  }

  /** The position of file `i`'s list in the plan. */
  function SlotOf(first: string, second: string, i: nat): nat {
    |Leading(first, second)| + i + (if SecondAfterFirstFile(first, second) && i > 0 then 1 else 0)
  }

  /**
   * `TooManyFilters` is raised exactly when there are more filters than
   * files, and then whatever the files hold, since none has been read yet.
   */
  lemma TooManyFiltersIff(env: Env, files: seq<string>, filters: seq<string>, first: string, second: string)
    ensures |filters| > |files| ==> Assemble(env, files, filters, first, second) == Err(TooManyFilters(|filters|, |files|))
    ensures (Assemble(env, files, filters, first, second).Err? && Assemble(env, files, filters, first, second).error.TooManyFilters?)
      <==> |filters| > |files|
  {
    if |filters| <= |files| {
      var rs := FileResults(env, files, filters);
      CollectOk(rs);
      if Collect(rs).Err? {
        var k :| 0 <= k < |rs| && rs[k].Err?;
        FirstFailureExists(rs, k);
        var i: nat :| i <= k && FirstFailure(rs, i);
        CollectErr(rs, i);
        var f := FilterFor(filters, i);
        if f.Some? {
          ParseFilterErrors(f.value);
        }
      }
    }
  }

  /**
   * The shape of a plan: the first word first, the second word right after
   * it or, with no first word, right after file 0's list (dropped when there
   * are no files); every file's list once, in file order, filtered by its own
   * filter, by the last filter once they run out, or not at all when there
   * are none.
   */
  lemma AssembleShape(env: Env, files: seq<string>, filters: seq<string>, first: string, second: string, plan: seq<seq<string>>)
    requires Assemble(env, files, filters, first, second) == Ok(plan)
    ensures |plan| == |files| + (if first != "" then 1 else 0) + (if second != "" && (first != "" || |files| > 0) then 1 else 0)
    ensures first != "" ==> plan[0] == [first]
    ensures first != "" && second != "" ==> plan[1] == [second]
    ensures first == "" && second != "" && |files| > 0 ==> plan[1] == [second]
    ensures forall i | 0 <= i < |files| :: SlotOf(first, second, i) < |plan|
    ensures forall i | 0 <= i < |files| && filters == [] :: ReadWordJson(env, files[i]) == Ok(plan[SlotOf(first, second, i)])
    ensures forall i | 0 <= i < |filters| :: FilterWords(env, files[i], filters[i]) == Ok(plan[SlotOf(first, second, i)])
    ensures forall i | |filters| <= i < |files| && filters != [] ::
      FilterWords(env, files[i], filters[|filters| - 1]) == Ok(plan[SlotOf(first, second, i)])
  {
    var rs := FileResults(env, files, filters);
    var lists := Collect(rs);
    CollectOk(rs);
    var lead := Leading(first, second);
    var rest := WithSecond(lists.value, first, second);
    assert plan == lead + rest;
    forall i | 0 <= i < |files|
      ensures SlotOf(first, second, i) < |plan| && plan[SlotOf(first, second, i)] == lists.value[i]
    {
      if SecondAfterFirstFile(first, second) && i > 0 {
        assert rest[i + 1] == lists.value[i];
      } else {
        assert rest[i] == lists.value[i];
      }
      assert rs[i] == Ok(lists.value[i]);
    }
  }

  /** The plan is empty only with no first word, no files and no filters. */
  lemma EmptyPlan(env: Env, files: seq<string>, filters: seq<string>, first: string, second: string)
    ensures Assemble(env, files, filters, first, second) == Ok([]) <==> first == "" && files == [] && filters == []
  {
    if Assemble(env, files, filters, first, second) == Ok([]) {
      AssembleShape(env, files, filters, first, second, []);
    }
    if first == "" && files == [] && filters == [] {
      assert FileResults(env, files, filters) == [];
      assert Collect(FileResults(env, files, filters)) == Ok([]);
      var lists := Collect(FileResults(env, files, filters));
      assert lists.value == [];
      assert Leading(first, second) + WithSecond(lists.value, first, second) == [];
    }
  }

  /** One more file list: it goes last, and `[second]` follows it when it is file 0's list and the rule applies. */
  lemma WithSecondStep(lists: seq<seq<string>>, words: seq<string>, first: string, second: string)
    ensures WithSecond(lists + [words], first, second) ==
      WithSecond(lists, first, second) + [words] + (if lists == [] && SecondAfterFirstFile(first, second) then [[second]] else [])
  {
    if SecondAfterFirstFile(first, second) && lists != [] {
      assert (lists + [words])[1..] == lists[1..] + [words];
    }
  }

  /** What file `i` contributes, with the choice of filter spelled out. */
  lemma FileResultAt(env: Env, files: seq<string>, filters: seq<string>, i: nat)
    requires i < |files|
    ensures filters == [] ==> FileResults(env, files, filters)[i] == ReadWordJson(env, files[i])
    ensures i < |filters| ==> FileResults(env, files, filters)[i] == FilterWords(env, files[i], filters[i])
    ensures filters != [] && |filters| <= i ==> FileResults(env, files, filters)[i] == FilterWords(env, files[i], filters[|filters| - 1])
  {
  }

  /**
   * After the loops of `_pour` have handled the first `i` of the per-file
   * results `rs`: their lists are `lists`, and the plan so far is the
   * leading words then those lists.
   */
  ghost predicate PouredUpTo(rs: seq<Result<seq<string>, Error>>, first: string, second: string,
                             i: nat, lists: seq<seq<string>>, wordLists: seq<seq<string>>)
  {
    && i <= |rs| && |lists| == i
    && Collect(rs[..i]) == Ok(lists)
    && wordLists == Leading(first, second) + WithSecond(lists, first, second)
  }

  /**
   * One turn of the loops of `_pour` on file `i`: an error stops the plan
   * with that error; a list is appended, followed by `[second]` when it is
   * file 0's list and the rule applies.
   */
  lemma PourStep(rs: seq<Result<seq<string>, Error>>, first: string, second: string,
                 i: nat, lists: seq<seq<string>>, wordLists: seq<seq<string>>)
    requires PouredUpTo(rs, first, second, i, lists, wordLists) && i < |rs|
    ensures rs[i].Err? ==> Collect(rs) == Err(rs[i].error)
    ensures rs[i].Ok? ==> PouredUpTo(rs, first, second, i + 1, lists + [rs[i].value],
      wordLists + [rs[i].value] + (if i == 0 && SecondAfterFirstFile(first, second) then [[second]] else []))
  {
    if rs[i].Err? {
      CollectFailStep(rs, i, lists);
    } else {
      CollectStep(rs, i, lists);
      WithSecondStep(lists, rs[i].value, first, second);
    }
  }

  /** Once every file is handled, the plan is the leading words then every file's list. */
  lemma PourDone(rs: seq<Result<seq<string>, Error>>, first: string, second: string,
                 lists: seq<seq<string>>, wordLists: seq<seq<string>>)
    requires PouredUpTo(rs, first, second, |rs|, lists, wordLists)
    ensures Collect(rs) == Ok(lists) && wordLists == Leading(first, second) + WithSecond(lists, first, second)
  {
    assert rs[..|rs|] == rs;
  }
}
