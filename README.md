# Stack Exchange statistics: a Dafny model

The tool reads a directory of `.json` files. Each file holds one Stack Exchange site's questions, one JSON object per line, with a `texts` array and a `tags` array. It prints a report (`GeneralStats`) with:

- the padrón "106998";
- per site, its question and word counts, its tag counters and its ten "chattiest" tags, ranked by words per question;
- the tag counters merged over all sites;
- the ten chattiest sites and the ten chattiest tags overall.

This project models that pipeline and proves its properties:

- **`Records`** (`records.dfy`): the four report records, and the sum of the `questions` counters of a tag map.
- **`Text`** (`text.dfy`):
  - whitespace-separated word counting, with Rust's `char::is_whitespace` table written out;
  - the substring test that admits a file name.
- **`FileAggregation`** (`file_aggregation.dfy`):
  - `process_json_file`: the loop over the lines of a file as an imperative method, proved against a prefix fold (`Aggregate`);
  - the fold's closed forms: counts, per-tag counters and error behaviour.
- **`Ranking`** (`ranking.dfy`): `get_tag_top_ten` and `get_site_top_ten`.
  - Scores are the truncating ratio words / questions.
  - The stable ascending sort is followed by `rev` and `take(10)`.
- **`Iteration`** (`iteration.dfy`): the iteration order of a `HashMap`, as an unspecified enumeration of its entries that depends on the map's contents only.
- **`TagMerge`** (`tag_merge.dfy`): the loop that merges the per-site tag maps, as an imperative method proved against a closed form.
- **`Directory`** (`directory.dfy`): `process_directory`.
  - Admitting files and dropping failed ones.
  - Building the site records, the merge, the two rankings and the final report.
  - Its outcomes:
    - the empty report for an unreadable directory;
    - the error of a failed listing item;
    - the division-by-zero panic that an empty `.json` file causes in `get_site_top_ten`.

Inputs are modelled as follows:

- A file's content is either `ReadFailed` or its sequence of lines.
- A line is `Undecodable` (not JSON) or a `Record` giving its `texts` and `tags` as arrays, or `None` when the field is missing or is not an array. A line that parses to a non-object JSON value yields neither field.
- Array elements are strings or not strings.
- The directory listing is `Unreadable` or a sequence of entries. Each entry is a failed listing item, or a file with its optional Unicode name and its content.

The `Directory` lemmas about the contents of a report take `Reports` as their precondition. `Reports` says that no listing item failed and no admitted file is empty. `Directory.DirectoryReports` proves this is exactly when a readable directory yields a report.

## Model

| member | source | states |
|---|---|---|
| FileAggregation.ProcessJsonFile | src/main.rs:40-78 | The nested line, text and tag loops return exactly the fold `ProcessedFile`. That is a read failure, the first line fault, or the question count, word count and tag map. |
| FileAggregation.FailurePersists | src/main.rs:47-63 | Once a prefix of the lines fails (`?`), the whole file fails with the same error. |
| FileAggregation.AggregateSucceeds | src/main.rs:46-63 | A file succeeds if and only if every line parses and has both a `texts` array and a `tags` array. |
| FileAggregation.AggregateFailsAtFirstFault | src/main.rs:47-63 | A file fails with error `e` if and only if its first faulty line raises `e`. Fields are checked in the source's order: parse, then `texts`, then `tags`. |
| FileAggregation.AggregateCounts | src/main.rs:46-60 | On success, `questions` is the number of lines. `words` is the sum of the word counts of every string element of every `texts` array. |
| FileAggregation.AddTagsAt | src/main.rs:65-73 | The tag loop of one line gives tag `t` one more question and the line's words for each occurrence of `t`. `t` gets an entry if and only if it already had one or occurs in the line. |
| FileAggregation.AddTagsTotal | src/main.rs:65-73 | The tag loop of one line adds the number of string tags to the sum of the tag questions. |
| FileAggregation.AggregateTag | src/main.rs:61-75 | On success, the entry of `t` counts its occurrences over the lines and the words of the lines carrying it, once per occurrence. `t` is a key if and only if it occurs. |
| FileAggregation.AggregateTagsPositive | src/main.rs:67-71 | Every tag in the map of a successful file has at least one question, so the division at line 201 cannot fail. |
| FileAggregation.AggregateTotalQuestions | src/main.rs:65-74 | The tag questions of a successful file sum to the number of string tags in its lines. |
| FileAggregation.TextWordsStrings | src/main.rs:55-60 | The `line_words` of a `texts` array ignore its non-string elements. |
| FileAggregation.AddTagsStrings | src/main.rs:65-74 | The tag loop ignores non-string tags. |
| FileAggregation.StepStrings | src/main.rs:46-74 | One line's step gives the same result with the line's non-string array elements dropped. |
| FileAggregation.NonStringsIgnored | src/main.rs:46-75 | Dropping every non-string element of `texts` and `tags` leaves the whole result, error or counters, unchanged. |
| FileAggregation.AggregateSnoc | src/main.rs:46-75 | The fold over a file with one more line is one more step, or the earlier error. |
| FileAggregation.ExampleLineWords | src/main.rs:55-60 | Two texts of five words give `line_words` 10, and one such text gives 5. |
| FileAggregation.ExampleLineTags | src/main.rs:65-73 | The tag loops of two example lines build the entries A: (1, 10), B: (1, 10), then A: (2, 15). |
| FileAggregation.ExampleFirstLines | src/main.rs:46-75 | The example's first two lines give 2 questions, 15 words and tags A: (2, 15), B: (1, 10). |
| FileAggregation.ThreeLineExample | src/main.rs:46-77 | Three lines hold 10, 5 and 0 words and carry tags A and B, then A, then none. They give 3 questions, 15 words and tags A: (2, 15), B: (1, 10). |
| Text.WordCountZero | src/main.rs:57-58 | A text has zero words if and only if every character is whitespace. |
| Text.WordCountSingle | src/main.rs:57-58 | A non-empty text without whitespace counts one word. |
| Text.WordCountJoin | src/main.rs:57-58 | Two texts joined by a whitespace character count the sum of their words. |
| Text.Prepend | src/main.rs:57-58 | A word and a space in front of a text add one word. |
| Text.WordCountUnwords | src/main.rs:57-58 | `n` words joined by single spaces count `n`. |
| Text.Contains | src/main.rs:127 | The name test holds if and only if ".json" occurs at some position of the name. |
| Ranking.Insert | src/main.rs:203 | One insertion step of the stable sort keeps the positions sorted by (ratio, position) and adds exactly the new position. |
| Ranking.SortAsc | src/main.rs:203 | The stable ascending sort orders every position by (ratio, position), each position exactly once. |
| Ranking.Reverse | src/main.rs:204-206 | `rev` reads the positions back to front. |
| Ranking.ReverseMembers | src/main.rs:204-206 | `rev` keeps exactly the same elements. |
| Ranking.Ranked | src/main.rs:203-206 | The sort followed by `rev` is a permutation of the positions. Higher ratios come first, and among equal ratios the later position comes first. |
| Ranking.RankedUnique | src/main.rs:203-206 | Any permutation of the positions in that order is exactly the result of `Ranked`. |
| Ranking.TopTenOrder | src/main.rs:198-210 | The ranking returns `min(10, n)` keys, at distinct positions. Their ratios do not increase, and ties come later position first. |
| Ranking.TopTenOmitted | src/main.rs:207 | A key left out by `take(10)` has a lower ratio than every key kept, or an equal ratio and an earlier position. |
| Ranking.TopTenKeys | src/main.rs:198-210 | Every key returned is one of the input keys. With distinct input keys, none is returned twice. |
| Ranking.RatioFloor | src/main.rs:201 | The score `words / questions` is the truncated quotient: the one `r` with `r * questions <= words < (r + 1) * questions`. The same division is at line 226. |
| Ranking.GetTagTopTenSpec | src/main.rs:198-210 | The tag ranking, stated with `words / questions`: it returns `min(10, n)` tags in non-increasing ratio, with ties later first, and none of the omitted tags ranks higher. |
| Ranking.GetSiteTopTenSpec | src/main.rs:222-237 | The site ranking satisfies the same statement, over the sites in input order. |
| Ranking.ExampleOrder | src/main.rs:346-395 | With ratios rising over positions 0 to 9 and position 10 the lowest, the ranked order begins 9, 8, …, 0. |
| Ranking.TagTopTenExample | src/main.rs:346-365 | tag1 … tag10 have 1000 words over 11 … 2 questions, and tag11 has 1000 words over 1000 questions. They rank as tag10, tag9, …, tag1. |
| Ranking.SiteExampleFacts | src/main.rs:368-386 | The input of the site test: site1 … site10 have 100 words over 11 … 2 questions, and site11 has 100 words over 100 questions. |
| Ranking.SiteTopTenExample | src/main.rs:368-395 | Those sites rank as site10, site9, …, site1. |
| Ranking.ExampleKeys | src/main.rs:204-209 | Reading keys `prefix1` … `prefix11` at positions 9 down to 0 yields `prefix10` … `prefix1`. |
| Iteration.Keys | src/main.rs:157 | A map's iteration visits every key exactly once. |
| Iteration.Entries | src/main.rs:199-201 | A map's iteration yields every (key, value) pair of the map exactly once, and nothing else. |
| Iteration.EntriesCover | src/main.rs:199-201 | Every key that is visited yields its pair. |
| Records.TotalQuestionsRemove | src/tag_data.rs:15-18 | The sum of the tag questions is independent of the order in which the entries are summed. |
| Records.TotalQuestionsUpdate | src/main.rs:67-72 | Replacing one tag entry changes the sum by the difference of the two `questions` counts. |
| TagMerge.MergeTags | src/main.rs:153-165 | The loops over the sites and their tag maps produce exactly `MergedTags`: every tag of some site, with the per-site counters summed. |
| TagMerge.SiteTagKeysMember | src/main.rs:156-158 | A tag is collected if and only if some site holds it. |
| TagMerge.SumsOutside | src/main.rs:158-163 | A tag no site holds sums to zero. |
| TagMerge.MergedTagsSnoc | src/main.rs:156-164 | One more site adds its counters to the merge, entry by entry. |
| TagMerge.AddSiteEmpty | src/main.rs:157 | Merging an empty tag map changes nothing. |
| TagMerge.AddSiteEntry | src/main.rs:158-163 | Merging one entry adds its counters to that tag alone. |
| TagMerge.MergedTagsAt | src/main.rs:153-165 | A tag is in the merge if and only if some site holds it. Its counters are then the sums over the sites. |
| TagMerge.SumQuestionsPositive | src/main.rs:162 | A tag some site holds with a question has a positive sum. |
| TagMerge.MergedTagsPositive | src/main.rs:158-163 | Every merged tag has a question, so ranking the merged tags at line 168 cannot divide by zero. |
| TagMerge.AddSiteSplit | src/main.rs:157-163 | Merging a tag map is merging one entry, then the rest. |
| TagMerge.TotalAfterEntry | src/main.rs:162 | Merging one entry adds exactly its `questions` to the total. |
| TagMerge.AddSiteSplitTotal | src/main.rs:157-163 | The total after merging a map splits into one entry plus the rest. |
| TagMerge.AddSiteTotal | src/main.rs:157-164 | Merging a site's tags adds exactly that site's tag questions to the total. |
| TagMerge.MergeConservesQuestions | src/main.rs:153-165 | The merged tag questions sum to the tag questions of all sites together. |
| Directory.Filter | src/main.rs:119-150 | `filter_map` keeps only the elements its test accepts. |
| Directory.FilterShape | src/main.rs:119-150 | Every element kept comes from the input, and every accepted element is kept. |
| Directory.FilterDistinct | src/main.rs:119-150 | Elements with pairwise different keys stay pairwise different after filtering. |
| Directory.Kept | src/main.rs:121-147 | Only files with a Unicode name containing ".json" whose processing succeeded are kept. |
| Directory.AdmittedPositive | src/main.rs:130-133 | An admitted file's tag map has a question in every tag, so its own ranking at line 133 cannot divide by zero. |
| Directory.SiteOfEntry | src/main.rs:130-141 | A kept file's site record has a question in every tag. |
| Directory.SiteOfChattyTags | src/main.rs:133-141 | A site ranks `min(10, number of its tags)` of its own tags, none twice. |
| Directory.InfoSites | src/main.rs:119-150 | There is one (name, site) pair per kept file, in listing order. |
| Directory.InfoSitesFrom | src/main.rs:121-143 | Every pair comes from an admitted file: its name and its site record. So failed files give none. |
| Directory.InfoSitesCover | src/main.rs:121-143 | Every admitted file gives a pair: its name and its site record. |
| Directory.InfoSitesDistinct | src/main.rs:122-141 | With distinct file names, the pairs have distinct names. |
| Directory.SitesMapKeys | src/main.rs:178 | The collected site map's names are exactly the pair names. |
| Directory.SitesMapDistinct | src/main.rs:178 | With distinct names, the site map has one entry per pair, holding that pair's site. |
| Directory.ProcessDirectory | src/main.rs:99-186 | An unreadable directory gives the empty report with padrón "106998". A failed listing item, and nothing else, gives the error outcome. Every report carries "106998". |
| Directory.ReportOf | src/main.rs:152-185 | When no listing item failed and no admitted file is empty, the run reports. Its sites, tags and both rankings are built from the kept pairs, and every site has a question. |
| Directory.DirectorySites | src/main.rs:119-150 | A report's sites are named exactly after the admitted ".json" files. |
| Directory.DirectorySiteRecord | src/main.rs:130-141 | With distinct names, an admitted file's site gives one question per line and the file's words and tag map. |
| Directory.DirectoryTags | src/main.rs:152-165 | A tag is in the report if and only if some admitted file has it. Its counters are the sums over the sites, and tag questions are conserved. |
| Directory.RankedTags | src/main.rs:198-210 | Ranking a tag map yields `min(10, number of tags)` of its keys, none twice. |
| Directory.RankedSites | src/main.rs:222-237 | Ranking the sites yields `min(10, number of sites)` of their names. With distinct names, none is returned twice. |
| Directory.DirectoryTotals | src/main.rs:167-176 | The totals hold `min(10, tags)` distinct report tags and `min(10, sites)` report sites. The site count is exact and the sites are distinct when the file names differ. |
| Directory.InfoSitesEmpty | src/main.rs:130-141 | Some site has no question if and only if some admitted file has no line. |
| Directory.DirectoryReports | src/main.rs:99-186 | The run ends in a report if and only if the directory is unreadable, or no listing item failed and no admitted ".json" file is empty. |
| Directory.DirectoryDivideByZero | src/main.rs:119-171 | The run panics dividing by zero at line 226 if and only if no listing item failed and some admitted ".json" file is empty. |

## Left out

- File and directory I/O (`fs::read_to_string`, `fs::read_dir`): their results are inputs, `FileContent` and `Listing`. The error values of `io::Error` are not modelled; only which outcome occurs is.
- JSON decoding (`serde_json::from_str`) is an input too. Each line arrives already decoded as `Undecodable` or `Record`, and array elements are only "string" or "not a string".
- `str::lines` splitting is not modelled: a file's lines are given. A blank line is an `Undecodable` line.
- Lines 178-179: `flatten().collect()` into a `HashMap`, where a later site replaces an earlier one of the same name. This is modelled, but the count and distinctness lemmas assume distinct file names, as in a real directory.
- Rayon's parallel `par_iter`: the model maps the entries sequentially in listing order. The source collects in that order too.
- `HashMap` iteration order is an unspecified enumeration (`Iteration.Entries`), so ties in a ranking depend on it. The ranking lemmas hold for input in any order.
- Iteration.Keys: the model fixes one order per map value, so two equal maps are iterated alike. Rust's `HashMap` seeds each instance's `RandomState` separately, and its order also depends on the insertion history. Two sites with equal tag maps may therefore list tied chatty tags in different orders in the source, but not in the model.
- Ranking.TagTopTenExample: stated for one iteration order of the test's map. Its ten ratios are distinct, so by `Ranking.RankedUnique` no other order changes the result, but that general statement is not proved.
- The `usize` counters are unbounded `nat`s: overflow (a panic in debug builds, wrap-around in release builds) is not modelled.
- `main` (argument parsing, thread-pool setup, JSON printing) and the `eprintln!` diagnostics are not modelled.
- The `test_process_json_file` and `test_process_directory` tests read data files that are not part of this model. `Directory.DirectoryTotals` states the relations those tests check: two sites give two chatty sites, and four tags give four chatty tags.
- FileAggregation.ThreeLineExample: the texts are any strings with the stated word counts, not concrete literals.
