# word-alchemist, modelled in Dafny

word-alchemist is a command-line brainstorming tool. It reads word lists from
JSON files and optionally narrows each list with a filter string such as
`length>3 and syllables<=2`. It can pin a first and a second word. It then
prints every combination that takes one word from each list, joined by
spaces, after the selected formatters (join, append, capitalize) have run
over it.

This project models the core of that program:

- `WordAlchemist` (word_alchemist.py) builds the word lists (`_pour`) and combines them (`mix`).
- `_pour` runs three loops: read every file, filter file `i` with filter `i`, and filter the remaining files with the last filter.
- A filter string is split on `and`, and each segment is matched against the pattern `^(length|syllables)\s*(==|!=|>=|<=|>|<)\s*(\d+)$`.
- The conditions are grouped per attribute and checked for conflicting `==` targets and empty ranges.
- main.py carries a copy of the parsing, validation and filtering functions, a copy of the list assembly, and the formatter selection.

Modules, one per file:

| module | what it holds |
|---|---|
| `Results` | `Option`, `Result`, `Outcome`. `Collect` is a loop over steps that stops at the first error, the way a raised `ValueError` or `sys.exit` ends the loop. |
| `PyText` | The Python string operations the core uses: `str.isspace`, `strip`, `split`, `' '.join`, ASCII digits. |
| `Pipes` | Running a sequence of steps one after another: the filters over a word list, the formatters over the results. |
| `Conditions` | Attributes, operators, conditions, the errors, and a hand-written matcher for the filter pattern. |
| `Validation` | What `_validate_conditions` decides for one attribute. |
| `FilterSpec` | What `_parse_filter_string`, `_read_word_json` and `_filter_words` compute, as functions. |
| `Filtering` | The loops of those functions, as methods proved against `FilterSpec`. |
| `Assembly` | The plan `_pour` returns (`Assemble`) and the lemmas about it. |
| `Pouring` | The three loops of `_pour`, proved step by step against `Assembly`. |
| `Combinations` | `itertools.product` with the last list varying fastest, and `mix`'s joining. |
| `Formatting` | The formatter kinds and their fixed order. |
| `Alchemist` | The `WordAlchemist` class: `Pour` and `Mix`. |
| `Cli` | main.py's `main` from the parsed arguments on, and `get_formatters`. |
| `ParseCases` | What the `and` split does to empty and trailing-`and` filter strings. |

Errors are data. A `ValueError` raised by word_alchemist.py and a `sys.exit`
in main.py both become an `Err` carrying the error kind and its values. The
message text is not modelled.

The file system is a map from file names to word lists (`FilterSpec.Env`).
A name outside the map is a file that cannot be read as a JSON array.

main.py carries module-level copies of three of the class's methods. The
copies match their originals except that they call `sys.exit` where the
class raises:

- `filter_words` (main.py:76-83) copies `_filter_words` (word_alchemist.py:147-154).
- `parse_filter_string` (main.py:98-129) copies `_parse_filter_string` (word_alchemist.py:94-125).
- `validate_conditions` (main.py:131-149) copies `_validate_conditions` (word_alchemist.py:127-145).

The `Filtering` methods therefore stand for both copies.

`read_word_json` (main.py:85-96) differs from `_read_word_json`
(word_alchemist.py:156-162). It catches a missing file and invalid JSON and
exits with its own messages, where `_read_word_json` lets both exceptions
propagate. Either way every read failure is the one `UnreadableFile` error
here, so `FilterSpec.ReadWordJson` stands for both.

Likewise, `Pouring` stands for the loops of both `_pour`
(word_alchemist.py:64-90) and `main` (main.py:193-229).

## Model

| member | source | states |
|---|---|---|
| Results.CollectOk | word_alchemist.py:102-117 | The condition loop completes exactly when every segment matches. Its values are then the matched conditions, in segment order. |
| Results.CollectErr | word_alchemist.py:102-105 | A failed loop reports the error of the first segment that fails. |
| PyText.StripEnds | word_alchemist.py:96 | A stripped segment neither starts nor ends with whitespace. |
| PyText.StripInfix | word_alchemist.py:96 | A stripped segment is a piece of the original with only whitespace cut from either end. |
| PyText.SplitJoin | word_alchemist.py:96 | Joining the pieces of `split("and")` with `and` gives back the filter string. |
| PyText.SplitPiecesFree | word_alchemist.py:96 | No piece of `split("and")` contains `and`, so the cut is made at every occurrence, even inside a word. |
| Pipes.RunSteps | word_alchemist.py:151-152 | The filter loop returns the words after every filter has run on them, in order. |
| Conditions.MatchAttribute | word_alchemist.py:97 | A matched attribute group is a prefix of the segment, and the rest is what follows it. |
| Conditions.MatchOp | word_alchemist.py:97 | A matched operator group is a prefix of what it is given, and the rest is what follows it. |
| Conditions.MatchOpSpelled | word_alchemist.py:97 | Before spaces or a digit, the operator alternation picks the operator actually written. For example, `>` is never taken for the start of `>=`. |
| Conditions.MatchConditionIff | word_alchemist.py:97-108 | A segment matches with condition `c` exactly when it is `c`'s attribute, whitespace, its operator, whitespace and a numeral for its target. |
| Conditions.SpelledMatches | word_alchemist.py:97-108 | Every such spelling of a condition matches that condition. |
| Validation.EqualTargetsCount | word_alchemist.py:128-130 | The `==` list holds more than one target exactly when two conditions use `==`. |
| Validation.LowerBound | word_alchemist.py:132-137 | `min_value` is `None` exactly when there is no `>` or `>=`. Otherwise it is the largest of their targets. |
| Validation.UpperBound | word_alchemist.py:132-139 | `max_value` is `None` exactly when there is no `<` or `<=`. Otherwise it is the smallest of their targets. |
| Validation.ValidateAttribute | word_alchemist.py:127-145 | A failure is an equality or a range conflict that names the attribute being validated. |
| Validation.ValidateAttributeIff | word_alchemist.py:127-145 | Validation passes exactly when there is at most one `==` and every lower target is strictly below every upper target. When both conflicts are present, the equality conflict is the one raised. |
| Validation.NotEqualIgnored | word_alchemist.py:135-141 | A `!=` condition changes nothing in validation. |
| FilterSpec.Segments | word_alchemist.py:96 | There is one segment per piece of `split("and")`, and always at least one. |
| FilterSpec.MatchSegment | word_alchemist.py:103-105 | A segment that fails to match is reported by its own text. |
| FilterSpec.AttributeOrder | word_alchemist.py:110-111 | The keys of `attribute_conditions` are exactly the attributes used, without repeats, in order of first appearance. |
| FilterSpec.ValidateAll | word_alchemist.py:121-123 | The validation loop passes exactly when every attribute passes. A failure is that of the first key, in key order, that fails. |
| FilterSpec.FilterWords | word_alchemist.py:147-154 | The read error comes before the parse error. A result exists only when the file is readable and the filter string parses. |
| FilterSpec.MatchedSegments | word_alchemist.py:102-117 | When every segment matches, the conditions are the ones the segments spell. |
| FilterSpec.ParseFilterShape | word_alchemist.py:94-125 | An accepted filter string gives exactly one condition per `and`-separated piece, each spelled by its piece. |
| FilterSpec.ValidateAllIff | word_alchemist.py:121-123 | The validation loop passes exactly when no attribute has a conflict. |
| FilterSpec.ParseFilterAccepts | word_alchemist.py:94-125 | A string whose segments all match is accepted exactly when its conditions are consistent. Otherwise the error is a conflict. |
| FilterSpec.SyntaxErrorFirst | word_alchemist.py:102-105 | A syntax error names the first segment that does not match. No conflict is reported before it. |
| FilterSpec.ParseFilterErrors | word_alchemist.py:94-125 | A parse raises only the invalid-condition error or one of the two conflicts. |
| FilterSpec.FilterWordsNarrows | word_alchemist.py:147-154 | If no filter lengthens a list, the filtered words are never more than the file holds. |
| Filtering.ValidateConditions | word_alchemist.py:127-145 | The method's verdict is `ValidateAttribute`'s. |
| Filtering.EqualsOf | word_alchemist.py:128 | The list comprehension yields the `==` targets in order. |
| Filtering.BoundsOf | word_alchemist.py:132-139 | The bound loop ends with the largest lower and the smallest upper target. |
| Filtering.RecordPreserves | word_alchemist.py:110-112 | One recorded condition keeps the dictionary and its key order in step with the conditions seen so far. |
| Filtering.Record | word_alchemist.py:110-117 | The loop body appends the condition and keeps the dictionary and its key order in step. |
| Filtering.ValidateEach | word_alchemist.py:121-123 | The loop over the dictionary's items returns the verdict of validating the attributes in insertion order. |
| Filtering.ParseFilterString | word_alchemist.py:94-125 | The method returns exactly `ParseFilter`'s conditions or error. |
| Filtering.FilterWords | word_alchemist.py:147-154 | The method returns exactly the filtered words or the first error. |
| Assembly.TooManyFiltersIff | word_alchemist.py:47-52 | The too-many-filters error is raised exactly when there are more filters than files, before any file is read. |
| Assembly.AssembleShape | word_alchemist.py:54-90 | The plan has one list per file plus the pinned words. The first word comes first. The second word comes right after the first word, or else right after file 0's list. Every file's list is its words filtered by the right filter string. |
| Assembly.EmptyPlan | word_alchemist.py:54-92 | The plan is empty exactly when there is no first word, no file and no filter. |
| Assembly.WithSecondStep | word_alchemist.py:70-73 | Adding a file's list puts `[second_word]` after it only for file 0, with no first word and a second word. |
| Assembly.PourStep | word_alchemist.py:66-90 | One loop iteration either stops with the plan's first error or extends the lists by that file's list, plus `[second_word]` after file 0. |
| Assembly.PourDone | word_alchemist.py:92 | After the last file, the lists built are the plan. |
| Pouring.ReadEach | word_alchemist.py:64-73 | The unfiltered loop ends with the plan's lists, or with the first file that cannot be read. |
| Pouring.FilterFile | word_alchemist.py:79-84 | One filtered file either extends the lists or stops with the plan's first error. |
| Pouring.FilterEach | word_alchemist.py:78-84 | The per-filter loop ends with the lists of the first `len(filters)` files, or with the first error. |
| Pouring.FilterRest | word_alchemist.py:86-90 | The last-filter loop ends with the lists of every file, or with the first error. |
| Combinations.Count | word_alchemist.py:37 | The number of combinations is zero exactly when some list is empty. |
| Combinations.Product | word_alchemist.py:37 | `product(*lists)` has as many tuples as the product of the lengths. |
| Combinations.ProductAt | word_alchemist.py:37 | The tuple at a choice's lexicographic index picks exactly those positions. |
| Combinations.ProductElement | word_alchemist.py:37 | Every tuple of the product is one word from each list, at its lexicographic index. |
| Combinations.IndexLexOrder | word_alchemist.py:37 | Tuples come in lexicographic order of the positions chosen. |
| Combinations.LastVariesFastest | word_alchemist.py:37 | Advancing the last list's position moves to the very next tuple. |
| Combinations.CombineEdgeCases | word_alchemist.py:37-43 | No lists give the one empty combination `""`. Any empty list gives no combinations. |
| Combinations.CombineAt | word_alchemist.py:37-43 | The result at a choice's index is those words joined by single spaces. |
| Combinations.CombineElement | word_alchemist.py:37-43 | Every result is one word from each list, joined by spaces, at its lexicographic place. |
| Alchemist.WordAlchemist.constructor | word_alchemist.py:21-33 | The object keeps its files, filters, formatters, first word and second word. |
| Alchemist.WordAlchemist.Pour | word_alchemist.py:45-92 | `_pour` returns exactly the plan, or raises its first error. |
| Alchemist.WordAlchemist.Mix | word_alchemist.py:35-43 | `mix` returns every combination of the plan, joined by spaces, in product order, or the error `_pour` raised. |
| Alchemist.JoinCombinations | word_alchemist.py:37-43 | The joining loop returns the space-joined combinations in product order. |
| Cli.AssembleWordLists | main.py:178-229 | main's inline assembly builds exactly the plan `_pour` builds, and stops at the same first error. |
| Cli.NoticeAsWrittenNeedsNoFiles | main.py:231-234 | As written, the no-matches check fires only with no first word and no files, which `--files` never allows. |
| Cli.NoticeAsWrittenMissesEmptyFile | main.py:231-234 | A readable file holding no words gives the plan `[[]]`. The check as written lets it through, and there is nothing to print. |
| Cli.NoticeIntendedIff | main.py:231-234 | The corrected check fires exactly when there are no combinations. |
| Cli.Selected | main.py:160-173 | Join is selected exactly when asked for, and likewise append (with the given suffix) and capitalize. They always come in the order join, append, capitalize. |
| Cli.GetFormatters | main.py:160-173 | `get_formatters` returns exactly the selected formatters. |
| Cli.FormattersKeepCount | main.py:240-243 | Formatters that each keep the number of results keep it together, so no combination is lost to formatting. |
| Cli.Execute | main.py:178-243 | `main` exits with the first error. Otherwise it gives the notice when there are no combinations; this is the corrected check of the finding below, not the `len(word_lists) == 0` at main.py:232. Otherwise it gives every combination passed through the selected formatters in order. |
| ParseCases.EmptyFilterStringRejected | word_alchemist.py:96-105 | An empty filter string is one empty segment and is rejected as an invalid condition. |
| ParseCases.SplitTrailingAnd | word_alchemist.py:96 | A string ending in `and` splits into at least two pieces, the last one empty. |
| ParseCases.TrailingAndRejected | word_alchemist.py:96-105 | Any filter string ending in `and` is rejected with an invalid-condition error. |
| ParseCases.EmptyPieceRejected | word_alchemist.py:96-105 | Any empty piece between the `and`s makes the parse fail with an invalid-condition error. |
| ParseCases.ParseFilterErrorIsSyntax | word_alchemist.py:102-105 | Once a segment fails to match, the error is an invalid condition and never a conflict. |

## Left out

- Command-line parsing (main.py:32-74): `Cli.Args` is what `parse_args` returns. `--output`, `print_results` and `write_results_to_file` (main.py:151-158, 245-249) are output I/O; `Cli.Execute` returns the results instead.
- JSON reading: decoding, non-string array items and the kinds of read failure are not modelled. Every failure (missing file, invalid JSON, not an array) is one `UnreadableFile` error.
- `NumberComparisonFilter`, `syllapy` and `filter_map` are the `applyFilter` parameter of `Env`. How a word's length or syllable count is compared is not modelled.
- The `Unsupported attribute` branch (word_alchemist.py:118-119, main.py:122-123) is unreachable. The attribute group only matches the two names `filter_map` holds, and `Attribute` has exactly those two values.
- The formatters' bodies are the `apply` parameter of `Cli.Execute`. Only which formatters are chosen, and their order, is modelled.
- The call `WordAlchemist(word_lists)` at main.py:237 passes one argument where the constructor at word_alchemist.py:21-28 takes five. It is not modelled as a constructor call. `Cli.Execute` combines the plan the way `mix` does (`Alchemist.JoinCombinations`).
- `WordAlchemist.formatters` is stored but never read by `mix`. The model keeps the field and nothing uses it.
- Error messages: errors carry their kind and values, not the formatted text.
- `\d` is ASCII digits only. Python's `\d` also accepts other Unicode decimal digits.
- The last filter string is parsed again for each remaining file (word_alchemist.py:88-89). `FilterSpec.FilterWords` is a function, so every parse gives the same result, as the code's does.
- Cli.Execute: uses the corrected no-matches check (`Cli.NoticeIntended`, see "## Findings") in place of main.py:232's `len(word_lists) == 0`. As written, an empty plan (no first word, no files) gets the notice, while a plan holding an empty list does not. `Cli.NoticeAsWritten` and its two lemmas model that check as written.
- FilterSpec.FilterWordsNarrows: holds only under the stated assumption that no single filter lengthens its list. The filters' bodies are not modelled.
- Cli.FormattersKeepCount: holds only under the assumption that each formatter keeps the number of results. The formatters' bodies are not modelled.

## Findings

| source | as written | input that shows it | evidently intended | confidence | as-written member | corrected member |
|---|---|---|---|---|---|---|
| main.py:231-234 | The "No matches found, check your filters" notice is printed only when `word_lists` is empty. That needs no first word and no files, but `--files` is required, so the notice is never printed. | `--files words.json`, where `words.json` holds `[]` (or filters that remove every word): the plan is `[[]]` and the check lets it through: no notice is printed, and execution goes on to the one-argument `WordAlchemist(word_lists)` call at main.py:237 (see "## Left out"), not to the notice. | Print the notice when there are no combinations, i.e. when some list is empty. word_alchemist/main.py:101-103 makes that check on the results. | not executed; high | Cli.NoticeAsWrittenMissesEmptyFile | Cli.NoticeIntendedIff |
