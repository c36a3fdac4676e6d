# Skincare backend core in Dafny

This project models the deterministic core of the skincare advisor backend
(`backend/main.py`): the rule-based follow-up questionnaire built from the
detected skin issues, the product recommender that scores each catalogue
product against those issues and the user's answers and returns the
best-scoring few, and the tail of the image scan that appends the default
issues and removes duplicates.

Modules, one file each:

- `Wrappers` (`wrappers.dfy`): the `Option` type used for absent values.
- `Questionnaire` (`questions.dfy`): the `Question` record of
  `backend/schemas.py`, the fixed issue-to-question table, the question
  generator as a specification function `Generate` and as the loop of
  `generate_followup_questions` (`GenerateFollowupQuestions`), and lemmas
  about it.
- `Seqs` (`seqs.dfy`): "no duplicates" and "first position of an element",
  shared by the detector and the ranking.
- `Detector` (`detector.dfy`): `list(dict.fromkeys(...))` as `Dedup`, the
  first-occurrence-order characterisation of it, and the end of
  `detect_issues_from_image` (`DetectIssuesTail`).
- `Answers` (`answers.dfy`): the loosely typed answer values a client may send
  (string, integer, float, NaN, boolean, null, list or object), Python truthiness
  and Python's `int()` conversion, including the decimal-string parser with
  surrounding whitespace and sign.
- `Ranking` (`ranking.dfy`): a stable descending sort of catalogue positions by
  integer key, and the proof that every stable descending order is this one,
  which is how Python's `sorted(..., reverse=True)` behaves.
- `Recommender` (`recommender.dfy`): the product record, `score_product` as a
  specification function `Score` and as its loop (`ScoreProduct`), the ranked
  catalogue, the `[:top_n]` slice with Python's slice semantics, and the
  recommendation lemmas.

The Python field `type` of `Question` is called `kind` here, since `type` is a
Dafny keyword. A catalogue product is modelled by its `concern_tags` list
(absent when the record has no such field) and an opaque remainder that is
passed through untouched.

## Model

| member | source | states |
|---|---|---|
| Questionnaire.QuestionFor | backend/main.py:104-129 | the question for a known tag carries the tag as id and the table's text and options; dryness is a "number" question without options, every other tag a "select" question; every table question is well formed (kind is text, number or select, and select exactly when options are present and non-empty) |
| Questionnaire.Generate | backend/main.py:138-148 | at most one question per issue; every question belongs to a known tag that occurs among the issues and is that tag's table question |
| Questionnaire.GenerateFollowupQuestions | backend/main.py:138-148 | the loop over the issues yields exactly the questions of the specification function |
| Questionnaire.GenerateAppend | backend/main.py:138-148 | the questions for concatenated issue lists are the concatenation of the questions for each list |
| Questionnaire.GenerateSingle | backend/main.py:139-147 | a single issue gives its table question if the tag is known and nothing otherwise |
| Questionnaire.GenerateLength | backend/main.py:138-148 | the number of questions equals the number of issues that are known tags |
| Questionnaire.GenerateCount | backend/main.py:138-148 | each known tag gets as many questions as it occurs among the issues, an unknown tag none (no deduplication in the generator) |
| Questionnaire.GenerateOrder | backend/main.py:138-148 | the questions follow the order of the issues: known issues at positions i < j have their questions at positions k < l |
| Questionnaire.GenerateWellFormed | backend/schemas.py:7-19 | every generated question is a well-formed `Question` |
| Questionnaire.GenerateAllKnown | backend/main.py:138-148 | when every issue is a known tag, question k is the table question of issue k |
| Questionnaire.AllFiveTags | backend/main.py:104-129 | all five table tags give five questions in the same order, the acne question offering Occasional, Frequent and Severe |
| Seqs.FirstIndex | backend/main.py:85 | the first position of an element: it holds the element and no earlier position does |
| Detector.Dedup | backend/main.py:85 | the result has no duplicates and holds exactly the elements of the input |
| Detector.DedupKeepsFirstOccurrenceOrder | backend/main.py:85 | the kept elements are in the order of their first occurrences |
| Detector.DedupOfDistinct | backend/main.py:85 | a list without duplicates is returned unchanged |
| Detector.DedupIdempotent | backend/main.py:85 | deduplicating twice equals deduplicating once |
| Detector.FirstOccurrenceOrderUnique | backend/main.py:85 | two lists with the same elements, both in first-occurrence order of the input, are equal |
| Detector.DedupCharacterized | backend/main.py:85 | the deduplicated list is the only list in first-occurrence order that holds all elements of the input |
| Detector.DetectIssuesTail | backend/main.py:82-85 | the scan's issues are the heuristic tags followed by dryness and acne, deduplicated: they always contain dryness and acne, have no duplicates, and hold exactly the heuristic and default tags |
| Answers.Truthy | backend/main.py:176 | Python truthiness of an answer: non-empty strings and containers, non-zero numbers, `NaN` and `True` are truthy (a predicate without a contract; `DrynessBonus` and `NaNGivesNoBonus` state what depends on it) |
| Answers.Truncate | backend/main.py:178 | a float converts to the integer next to it toward zero |
| Answers.ToInt | backend/main.py:177-181 | `int()` of an answer: null, containers and `NaN` fail, integers are kept, booleans give 0 or 1, finite floats truncate toward zero, a string converts exactly as `ParseInt` reads it |
| Answers.LeadingSpaces | backend/main.py:178 | the length of the longest whitespace prefix: every character before it is whitespace and the character at it is not |
| Answers.TrailingStart | backend/main.py:178 | where the longest whitespace suffix of a range begins: every character from it to the end of the range is whitespace and the one before it, inside the range, is not |
| Answers.Strip | backend/main.py:178 | the string without the whitespace `int()` skips (ASCII tab to carriage return and space, and non-ASCII Unicode spaces, but not the separators 0x1C to 0x1F): the input is the longest whitespace prefix, then the result, then only whitespace, and the result neither starts nor ends with whitespace |
| Answers.StripUnique | backend/main.py:178 | any split of a string into whitespace, a part that neither starts nor ends with whitespace, and whitespace has that part as its stripped form, so the contract of `Strip` determines it |
| Answers.StripLeadingSpace | backend/main.py:178 | stripping ignores one more whitespace character in front |
| Answers.StripTrailingSpace | backend/main.py:178 | stripping ignores one more whitespace character at the end |
| Answers.DigitNotSpace | backend/main.py:178 | digits and signs are not whitespace |
| Answers.ParseSigned | backend/main.py:178 | a stripped string that converts holds a digit, and a negative result comes from a leading minus sign |
| Answers.SignedAccepts | backend/main.py:178 | a sign or nothing followed by at least one digit converts to the digits' value, negated after a minus sign |
| Answers.SignedOnlyNumerals | backend/main.py:178 | nothing else converts: a converted string is a sign or nothing followed by digits whose value is the magnitude of the result, and a negative result has a minus sign |
| Answers.ParseInt | backend/main.py:178 | a string that converts holds a digit, and one that converts to a negative number holds a minus sign |
| Answers.ParseIntAccepts | backend/main.py:178 | a string that, once stripped, is a sign or nothing followed by at least one digit converts to the digits' value with that sign |
| Answers.ParseIntOnlyNumerals | backend/main.py:178 | only such strings convert: a converted string is, once stripped, a sign or nothing followed by digits whose value is the magnitude of the result, with a minus sign when the result is negative |
| Answers.DigitChar | backend/main.py:178 | the decimal digit character of a digit value |
| Answers.FormatNat | backend/main.py:178 | the decimal numeral of a natural number is a non-empty digit string |
| Answers.DigitsValueOfFormatNat | backend/main.py:178 | reading a decimal numeral gives back the number |
| Answers.ParseFormatRoundTrip | backend/main.py:178 | the decimal string of any integer, with its sign, converts back to that integer |
| Answers.FormatIntStripped | backend/main.py:178 | the decimal string of an integer has no whitespace for `int()` to skip |
| Answers.FormatIntSigned | backend/main.py:178 | the sign and digits of an integer's decimal string read back as that integer |
| Answers.LeadingSpaceIgnored | backend/main.py:178 | leading whitespace does not change what a string converts to |
| Answers.TrailingSpaceIgnored | backend/main.py:178 | trailing whitespace does not change what a string converts to |
| Answers.SeparatorNotSkipped | backend/main.py:177-181 | the string "\x1c3" does not convert, since `int()` does not skip the separator 0x1C |
| Answers.ParseThree | backend/main.py:178 | the answer "3" converts to 3 |
| Ranking.Positions | backend/main.py:183 | the catalogue positions 0 to n-1 in order |
| Ranking.Apply | backend/main.py:183 | picking the products at a list of positions yields, at each index, the product at that position |
| Ranking.Insert | backend/main.py:183 | insertion keeps the positions in range and adds exactly the inserted position |
| Ranking.InsertRanked | backend/main.py:183 | inserting a new position into a ranked list keeps it ranked (higher key first, equal keys by position) |
| Ranking.Sort | backend/main.py:183 | the sort is a permutation of its input and, for distinct positions, ranked |
| Ranking.Order | backend/main.py:183 | the ranked permutation of all positions by key |
| Ranking.RankedSortedStable | backend/main.py:183 | in a ranked list keys never increase, and equal keys appear in increasing position order |
| Ranking.RankedUnique | backend/main.py:183 | two ranked permutations of the same positions are equal, so the stable descending order is unique |
| Ranking.ApplyPermutation | backend/main.py:183 | picking by two permutations of the same positions yields the same products counted with multiplicity |
| Ranking.ApplyOrderKeepsElements | backend/main.py:183 | picking by a permutation of all positions keeps every product, with multiplicity |
| Ranking.OrderOfTies | backend/main.py:183 | with all keys equal the order is the catalogue order |
| Ranking.OrderOfTwo | backend/main.py:183 | of two keys where the second is larger, the second comes first |
| Recommender.Tags | backend/main.py:171-176 | `prod.get("concern_tags", [])`: the product's tags, or no tags when the field is absent (no contract; `ScoreWithoutTags` states the default) |
| Recommender.MatchCount | backend/main.py:170-173 | the tag count is at most the number of tags |
| Recommender.DrynessBonus | backend/main.py:175-181 | a non-zero bonus needs a truthy dryness answer, a product tagged dryness and a successful conversion, and then equals the converted answer; when those hold the bonus is the converted value |
| Recommender.Score | backend/main.py:169-182 | the score of a product: its tag count plus its dryness bonus (no contract; `ScoreProduct` is proved equal to it and the lemmas below state its properties) |
| Recommender.ScoreProduct | backend/main.py:169-182 | the loop over the tags plus the dryness adjustment computes exactly the specification score |
| Recommender.Scores | backend/main.py:183 | the sort key of each product is its score |
| Recommender.RankOrder | backend/main.py:183 | the ranking is a permutation of the catalogue positions, ranked by score |
| Recommender.RankOrderSortedStable | backend/main.py:183 | scores never increase along the ranking, and equal scores keep catalogue order |
| Recommender.SliceEnd | backend/main.py:184 | the length of `[:top_n]`: `top_n` capped by the length, and for negative `top_n` the length minus its magnitude, at least zero |
| Recommender.RankedCatalogue | backend/main.py:183 | the sorted catalogue is a permutation of the catalogue, listing the products at the ranked positions |
| Recommender.Recommend | backend/main.py:183-184 | the result has the slice length (min of `top_n` and the catalogue size for non-negative `top_n`), is a prefix of the sorted catalogue and a sub-multiset of the catalogue |
| Recommender.RecommendPicks | backend/main.py:183-184 | recommended product k is the catalogue product at ranked position k |
| Recommender.RecommendSortedByScore | backend/main.py:183-184 | recommended products have non-increasing scores |
| Recommender.RecommendStable | backend/main.py:183-184 | recommended products with equal scores keep their catalogue order |
| Recommender.RecommendIsTop | backend/main.py:183-184 | no product left out scores higher than any recommended product |
| Recommender.RecommendAllTied | backend/main.py:183-184 | with all scores equal the recommendation is the catalogue's first `top_n` products |
| Recommender.RecommendIsStableSort | backend/main.py:183-184 | any arrangement of the positions sorted by score, highest first, with ties in catalogue order, gives the same recommendation |
| Recommender.RecommendEmptyCatalogue | backend/main.py:183-184 | an empty catalogue yields an empty recommendation |
| Recommender.MatchCountAppend | backend/main.py:171-173 | counting splits over concatenated tag lists |
| Recommender.RepeatedTagCounts | backend/main.py:171-173 | a matching tag listed twice scores two points |
| Recommender.MatchCountSetOnly | backend/main.py:172 | the count depends only on which tags are issues, not on the order or repetition of the issues |
| Recommender.MatchCountAll | backend/main.py:170-173 | the count equals the number of tags exactly when every tag is an issue |
| Recommender.MatchCountNone | backend/main.py:170-173 | the count is zero exactly when no tag is an issue |
| Recommender.ScoreWithoutTags | backend/main.py:171-176 | a product without `concern_tags` scores 0 |
| Recommender.ScoreWithoutDrynessAnswer | backend/main.py:175-181 | without a truthy, convertible dryness answer the score is the tag count |
| Recommender.NaNGivesNoBonus | backend/main.py:176-181 | a `NaN` dryness answer is truthy, but its conversion raises `ValueError`, which the scorer catches, so it adds nothing |
| Recommender.BonusForLevel | backend/main.py:176-179 | a truthy dryness answer converting to a level adds that level for a product tagged dryness |
| Recommender.TwoProductsRanked | backend/main.py:183-184 | of two products, the higher-scoring one is recommended first |
| Recommender.RankOrderOfTwo | backend/main.py:183 | of two products where the second scores higher, the ranking swaps them |
| Recommender.RecommendSwapped | backend/main.py:184 | a swapping ranking of two products recommends them swapped when `top_n` is at least 2 |
| Recommender.DrynessScenario | backend/main.py:169-184 | with issues dryness and acne and dryness answer "3", a product tagged dryness scores 4, one tagged acne and dryness scores 5, and the latter is recommended first |

## Left out

- Loading the catalogue from JSON (`load_products`, its file-not-found error) and resolving its path from the environment (`get_products_path`): file and environment I/O; the catalogue is a parameter.
- The image heuristics of `detect_issues_from_image` (image decoding, the two mean-intensity thresholds that add "dullness" or "oily", the swallowed decoding exception): image processing and floating point; the tags they produce are an arbitrary parameter of `DetectIssuesTail`.
- The language-model switch in `generate_followup_questions`: it reads the environment and never changes the result.
- The HTTP handlers (`/scan`, `/quiz/start`, `/recommend`), request validation and the error response for an empty upload: web framework behaviour.
- Answers.ToInt: underscores between digits and non-ASCII decimal digits are not modelled; `int()` accepts such strings, while the model treats them as not convertible.
- Answers.ToInt: the interpreter's limit on the length of digit strings (a `ValueError` for very long numbers in recent Python versions, so no bonus) is not modelled; the model converts digit strings of any length, because the limit depends on the interpreter version and its configuration.
- Answers.ToInt: an infinite float answer is not modelled; `int()` raises `OverflowError` for it, which the scorer does not catch, so the request fails, and the model has no error outcome for the whole recommendation.
- Recommender.Tags: a `concern_tags` value that is not a list of strings (null, a number, a nested object) is not modelled.
- Answers.Answer: answer values of other types (bytes, custom objects) are not modelled; lists and objects are represented only by their size, which decides truthiness.
- Recommender.Product: the rest of a product record is opaque and returned unchanged; product identity is by value, so two equal records are indistinguishable.
