/**
 * The `WordAlchemist` class of word_alchemist.py: its settings are fixed at
 * construction, `_pour` assembles the word lists and `mix` returns the
 * space-joined combinations of them.
 */
module Alchemist {
  import opened Results
  import opened PyText
  import opened Conditions
  import opened FilterSpec
  import opened Pouring
  import opened Assembly
  import opened Combinations
  import opened Formatting

  class WordAlchemist {
    const files: seq<string>
    const filters: seq<string>
    const formatters: seq<Formatter>
    const firstWord: string
    const secondWord: string

    constructor (files: seq<string>, filters: seq<string>, formatters: seq<Formatter>, firstWord: string, secondWord: string)
      ensures this.files == files && this.filters == filters && this.formatters == formatters
      ensures this.firstWord == firstWord && this.secondWord == secondWord
    {
      this.files := files;
      this.filters := filters;
      this.formatters := formatters;
      this.firstWord := firstWord;
      this.secondWord := secondWord;
    }

    /**
     * `_pour`: the word lists to combine, or the first error — too many
     * filters before any file is read, else the first file that cannot be
     * read or whose filter string does not parse.
     */
    method Pour(env: Env) returns (r: Result<seq<seq<string>>, Error>)
      ensures r == Assemble(env, files, filters, firstWord, secondWord)
    {
      var filterLength := |filters|;
      var fileLength := |files|;
      if filterLength > fileLength {
        return Err(TooManyFilters(filterLength, fileLength));
      }

      ghost var rs := FileResults(env, files, filters);
      var wordLists: seq<seq<string>> := [];
      if firstWord != "" {
        wordLists := wordLists + [[firstWord]];
        if secondWord != "" {
          wordLists := wordLists + [[secondWord]];
        }
      }
      assert PouredUpTo(rs, firstWord, secondWord, 0, [], wordLists);

      ghost var lists: seq<seq<string>>;
      if filterLength == 0 {
        forall i | 0 <= i < fileLength ensures rs[i] == ReadWordJson(env, files[i]) {
          FileResultAt(env, files, filters, i);
        }
        r, lists := ReadEach(env, files, firstWord, secondWord, rs, [], wordLists);
      } else {
        forall i | 0 <= i < fileLength
          ensures i < filterLength ==> rs[i] == FilterWords(env, files[i], filters[i])
          ensures filterLength <= i ==> rs[i] == FilterWords(env, files[i], filters[filterLength - 1])
        {
          FileResultAt(env, files, filters, i);
        }
        r, lists := FilterEach(env, files, filters, firstWord, secondWord, rs, [], wordLists);
        if r.Ok? && fileLength > filterLength {
          r, lists := FilterRest(env, files, filters, firstWord, secondWord, rs, lists, r.value);
        }
      }
      if r.Ok? {
        PourDone(rs, firstWord, secondWord, lists, r.value);
      }
    }

    /**
     * `mix`: every combination of one word from each assembled list, in
     * `itertools.product` order, joined by single spaces; the formatters
     * play no part.
     */
    method Mix(env: Env) returns (r: Result<seq<string>, Error>)
      ensures Assemble(env, files, filters, firstWord, secondWord).Err? ==>
        r == Err(Assemble(env, files, filters, firstWord, secondWord).error)
      ensures Assemble(env, files, filters, firstWord, secondWord).Ok? ==>
        r == Ok(Combine(Assemble(env, files, filters, firstWord, secondWord).value))
    {
      var wordLists := Pour(env);
      if wordLists.Err? {
        return Err(wordLists.error);
      }
      var results := JoinCombinations(wordLists.value);
      return Ok(results);
    }
  }

  /** The loop of `mix`: each tuple of `itertools.product` joined by single spaces, in product order. */
  method JoinCombinations(wordLists: seq<seq<string>>) returns (results: seq<string>)
    ensures results == Combine(wordLists)
  {
    var allCombinations := Product(wordLists);
    results := [];
    for k := 0 to |allCombinations|
      invariant results == Combine(wordLists)[..k]
    {
      results := results + [JoinWith(" ", allCombinations[k])];
    }
    assert results == Combine(wordLists);
  }
}
