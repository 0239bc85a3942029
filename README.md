# eatwell_server: food matching and nutrient arithmetic in Dafny

eatwell_server turns a meal description into a nutrient profile.
An ingredient name is matched against the USDA SR Legacy food table in five steps:
- a full-text search and a fuzzy search each give up to 20 rows;
- the two result lists are merged without duplicates;
- the candidates are reranked by embedding cosine similarity plus a word-overlap bonus;
- the top candidate is accepted when its score reaches 0.6;
- the accepted food's nutrient rows and portion rows become an `AnalysisIngredient`.

A meal's totals are then fourteen sums, one per nutrient field, each rounded to two decimals.

This project models that logic and proves properties of it. The database, the OpenAI calls and the HTTP layer are replaced by inputs.

Modules, one per source file:
- `MealAnalysis` (`models/meal_analysis.py`): the records `FoodPortion`, `AllNutrients`, `AnalysisIngredient` and `AnalysisMeal`. `Nutrient` names the fourteen fields, and `HasSelectedPortion` says that the selected portion id really names one of the ingredient's portions.
- `Helper` (`helper.py`): the fourteen `calculate_*` loops, all through one accumulator method. It also holds `get_selected_portion`, `map_portions`, `map_ingredients`, the default-portion branch of `get_portions`, and `map_nutrients` with its nutrient-number table.
- `SearchService` (`db/search_service.py`): `get_candidates` (merge and deduplicate) and `rerank_with_embeddings` (filter, overlap bonus, stable descending sort, truncation).
- `Query` (`query.py`): the decision logic of `search_food`, plus the whole pipeline over in-memory tables.
- `Embeddings` (`db/embeddings.py`): `get_batches`.
- `App` and `Debug` (`app.py`, `debug.py`): the two identical copies of `extract_json_from_code_block`.

Three support modules supply Python semantics the source relies on:
- `Optional`: the option type used for Python's `None`.
- `PyRound`: `round(x, 2)` on exact reals, with ties going to the even hundredth.
- `Text`: `str.strip`, `str.split(sep)`, `str.split()`, `'sep'.join` and the substring test `w in s`, over Python's whitespace set.

Quantities are `real`. Every Python `ZeroDivisionError` path becomes a precondition:
- a food whose fermented serving size is 0;
- a first portion of 0 grams.

## Model

| member | source | states |
|---|---|---|
| MealAnalysis.FieldsDetermineProfile | models/meal_analysis.py:9-23 | a nutrient profile is exactly its fourteen fields: two profiles that agree on every field are equal |
| PyRound.Round2 | helper.py:10 | `round(x, 2)` is a whole number of hundredths within 0.005 of x |
| Helper.FirstWithId | helper.py:116-119 | the result is absent iff no portion has the id; otherwise it is the portion at the first index whose id matches |
| Helper.GetSelectedPortion | helper.py:116-119 | the loop returns the first portion whose id equals the selected id, and it returns one iff the selected id occurs among the portions |
| Helper.FirstWithIdAt | helper.py:116-119 | when index i holds the first portion with the id, the search returns exactly that portion |
| Helper.SelectedPortion | helper.py:7-8 | for an ingredient whose selected id occurs, the selected portion is one of its portions and carries that id |
| Helper.TotalContributionAppend | helper.py:5-9 | the unrounded accumulator is additive over concatenation of ingredient lists |
| Helper.TotalContributionStep | helper.py:6-9 | extending the processed prefix by one ingredient adds exactly that ingredient's contribution |
| Helper.IngredientShare | helper.py:7-9 | the loop body looks up the selected portion and yields (gram weight / 100) * amount * field value |
| Helper.TotalContributionSingle | helper.py:8-9 | one ingredient contributes (gram weight / 100) * amount * field value |
| Helper.NutrientTotal | helper.py:4-10 | the loop's accumulator holds the sum over the first k ingredients; the result is round(sum of contributions, 2), and 0 for an empty list |
| Helper.CalculateProtein | helper.py:4-10 | round(Σ (gram_weight/100)·amount·protein, 2) over the ingredients |
| Helper.CalculateLeucine | helper.py:12-18 | the same sum for leucine |
| Helper.CalculateCarbohydrates | helper.py:20-26 | the same sum for carbohydrates |
| Helper.CalculateOmega3s | helper.py:28-34 | the same sum for omega-3s |
| Helper.CalculateFat | helper.py:36-42 | the same sum for fat |
| Helper.CalculateIron | helper.py:44-50 | the same sum for iron |
| Helper.CalculateZinc | helper.py:52-58 | the same sum for zinc |
| Helper.CalculateFermentedFoodServings | helper.py:60-66 | the same sum for fermented food servings |
| Helper.CalculateFiber | helper.py:68-74 | the same sum for fiber |
| Helper.CalculateCollagen | helper.py:76-82 | the same sum for collagen |
| Helper.CalculateVitaminC | helper.py:84-90 | the same sum for vitamin C |
| Helper.CalculateVitaminA | helper.py:92-98 | the same sum for vitamin A |
| Helper.CalculateVitaminE | helper.py:100-106 | the same sum for vitamin E |
| Helper.CalculateSelenium | helper.py:108-114 | the same sum for selenium |
| Helper.ScalingExample | helper.py:8-9 | a 150 g portion, amount 2 and 10 g protein per 100 g contribute 30 g |
| Helper.GetPortions | helper.py:180-188 | fetched rows come back unchanged; no rows give exactly the one portion (1, 100.0, 100.0, "grams"); the result is never empty |
| Helper.MapPortions | helper.py:149-162 | the append loop keeps length and order and copies every field of every row |
| Helper.MapNutrients | helper.py:190-233 | the row-by-row loop yields the profile of the nutrient-number fold followed by the two food-row fields |
| Helper.ApplyRow | helper.py:196-227 | one row leaves every field its number does not feed (by the nutrient-number table) unchanged |
| Helper.FoldRows | helper.py:192-227 | the nutrient rows never set fermented-food servings or collagen: both stay 0 after the fold |
| Helper.ApplyRowField | helper.py:200-227 | one row overwrites the field its number maps to, adds into omega-3s for 851, 629 and 621, and leaves every other field alone |
| Helper.UnmappedRowIgnored | helper.py:200-227 | a row whose number is in no branch leaves the profile unchanged |
| Helper.FoldRowsField | helper.py:196-227 | after all rows, each overwritten field holds the amount of the last row with its number (0 when none), and omega-3s holds the sum of all omega-3 rows |
| Helper.AbsentFieldStaysZero | helper.py:192-227 | a field no row feeds stays at its initial 0 |
| Helper.Omega3Example | helper.py:206-211 | omega-3 rows 0.1, 0.2 and 0.05 give 0.35 |
| Helper.MappedNutrientsField | helper.py:229-231 | fermented servings are 0 for a missing serving size, else round(100/size, 2); collagen is the food's value or 0; every other field follows the nutrient-number table |
| Helper.ToIngredientSelectable | helper.py:129-132 | a mapped ingredient's selected portion exists iff it has portions, and it is then the first one |
| Helper.MapIngredients | helper.py:122-147 | one ingredient per entry, in order; the amount is copied; the selected id is the first portion's id or 0; the selection is valid iff there are portions |
| SearchService.FirstIndex | db/search_service.py:82-86 | the first position of a key in the concatenated search results |
| SearchService.Dedup | db/search_service.py:80-86 | the merged list is no longer than the concatenated results, and no merged candidate carries a similarity yet |
| SearchService.DedupKeys | db/search_service.py:80-86 | the merged list has exactly the input keys, each once |
| SearchService.DedupFirst | db/search_service.py:82-85 | each merged candidate is built from the first row with its key |
| SearchService.DedupOrder | db/search_service.py:82-85 | merged candidates appear in the order of their first rows |
| SearchService.DedupSpec | db/search_service.py:80-86 | the merged list has pairwise distinct (fdc_id, data_type) keys, exactly the input keys, each entry built from the key's first occurrence, in first-occurrence order |
| SearchService.DedupPrefix | db/search_service.py:82-86 | deduplicating a prefix gives a prefix of the result, so full-text hits come before fuzzy ones |
| SearchService.GetCandidates | db/search_service.py:76-87 | the seen-set loop computes the deduplicated concatenation: distinct keys, every input key, full-text hits first, at most |fts|+|fuzzy| entries |
| SearchService.CandidateBound | db/search_service.py:77-78 | with both searches limited to 20 there are at most 40 candidates |
| SearchService.WordsOfTwo | db/search_service.py:55 | splitting "a b" on whitespace gives the two words |
| SearchService.CountContained | db/search_service.py:55 | the overlap never exceeds the number of term words |
| SearchService.CountContainedTwo | db/search_service.py:55 | with two term words, each word the description contains adds one |
| SearchService.OverlapExample | db/search_service.py:55 | "greek yogurt" against "yogurt plain greek" has overlap 2 |
| SearchService.RepeatedWordExample | db/search_service.py:55 | a repeated term word counts each time: "greek greek" against "greek yogurt" has overlap 2 |
| SearchService.Score | db/search_service.py:49-63 | a score keeps the candidate's fdc_id, data_type and description, and its similarity lies between the cosine and the cosine plus 0.05 per term word |
| SearchService.ScoreAllCount | db/search_service.py:41-63 | one score per candidate with a stored embedding, each the score of some such candidate |
| SearchService.EmbeddedCountMono | db/search_service.py:41-47 | a longer prefix of the candidates holds at least as many with a stored embedding |
| SearchService.EmbeddedCountStrict | db/search_service.py:41-47 | an embedded candidate adds one to the count of every longer prefix |
| SearchService.ScoreAllPositions | db/search_service.py:41-63 | the score of each embedded candidate sits in the scored list at the number of embedded candidates before it |
| SearchService.ScoreAllSpec | db/search_service.py:41-63 | exactly one score per candidate with a stored embedding, each equal to cosine + 0.05·overlap of some such candidate; every embedded candidate's score occurs, in candidate order (positions strictly increase with the candidate index) |
| SearchService.MarkUnembeddedSpec | db/search_service.py:64-66 | the in-place writes keep every candidate's key and description, so the key set is unchanged, and leave no candidate without an embedding unscored: it has similarity 0.0 |
| SearchService.InsertDescMultiset | db/search_service.py:69 | inserting one score keeps every element and adds that one |
| SearchService.InsertDescSorted | db/search_service.py:69 | inserting into a descending list keeps it descending |
| SearchService.InsertDescStable | db/search_service.py:69 | the new score goes after every earlier score of equal similarity |
| SearchService.SortDesc | db/search_service.py:69 | the sort keeps the number of entries |
| SearchService.SortDescSorted | db/search_service.py:69 | the sort output is descending by similarity |
| SearchService.SortDescPermutation | db/search_service.py:69 | the sort output holds exactly the input entries, with multiplicity |
| SearchService.SortDescStable | db/search_service.py:69 | entries of each similarity value keep their input order |
| SearchService.SortDescSpec | db/search_service.py:69 | the sort is descending, a permutation, and stable: the entries of each similarity value keep their input order |
| SearchService.Ranked | db/search_service.py:70 | the reranked list has at most top_k entries and no more than there are scores |
| SearchService.RankedSpec | db/search_service.py:68-70 | the reranked list is a prefix of the sorted scores of length min(top_k, #embedded), descending, each entry the score of some embedded candidate |
| SearchService.RerankWithEmbeddings | db/search_service.py:32-70 | the scoring loop, sort and slice give that list, only embedded candidates appear, and the updated candidate list is the input with 0.0 written into exactly the candidates without an embedding, every other candidate unchanged |
| Query.SearchFood | query.py:15-68 | None iff no candidates or an accepted id without a food row; the sentinel ("None", 0.0) iff the top score is below 0.6; otherwise the ingredient with the first portion selected, amount round(quantity/gram_weight, 2), all mapped portions and the mapped nutrients; the no-division-by-zero precondition applies only when the top candidate is accepted with a food row |
| Query.LowScoreIgnoresFood | query.py:20-24 | a top score below 0.6 gives the sentinel whatever the food row and its portions, even ones that would divide by zero |
| Query.OnlyTopCandidateMatters | query.py:19 | the result depends only on the first ranked candidate |
| Query.ThresholdIsInclusive | query.py:20-24 | a top score of exactly 0.6 is accepted and 0.59 gives the sentinel |
| Query.DefaultPortionWhenNoneStored | query.py:55-59 | a food without portion rows gets the 100 g portion with id 1, and the amount is round(quantity/100, 2) |
| Query.AmountExample | query.py:64 | 300 g against a 150 g first portion gives amount 2.0 |
| Query.OverlapLiftsOverThreshold | query.py:12-20 | cosine 0.5 plus the two-word overlap bonus makes that candidate the only reranked entry with similarity exactly 0.6, the acceptance threshold |
| Query.GreekYogurtExample | query.py:9-68 | "greek yogurt" reranked against one candidate "yogurt plain greek" with cosine 0.5, matched to a food with 10 g protein per 100 g and a 100 g portion, asked for 100 g, yields amount 1 and a protein total of 10 |
| Query.ResolveIngredient | query.py:9-12 | the pipeline equals SearchFood applied to the top 5 of the reranked deduplicated search results and the rows of the top food; it demands divisibility only of an accepted top food |
| Embeddings.GetBatches | db/embeddings.py:15-22 | the islice loop yields exactly the consecutive chunks of the input, and no batch at all iff the input is empty or the batch size is 0 |
| Embeddings.FlattenChunks | db/embeddings.py:15-22 | concatenating the batches gives the input back |
| Embeddings.ChunkSizes | db/embeddings.py:19-21 | every batch is non-empty and at most batch_size long, and all but the last have exactly batch_size items |
| Embeddings.ChunkCount | db/embeddings.py:18-21 | there are ⌈n / batch_size⌉ batches |
| Text.TrimStart | app.py:163 | the result is a suffix of the input, only whitespace was removed, and it does not start with whitespace |
| Text.TrimEnd | app.py:163 | the result is a prefix of the input, only whitespace was removed, and it does not end with whitespace |
| Text.StripIsTrimmedInfix | app.py:163 | `strip()` returns the infix of the text that starts after the leading whitespace, and everything after it is whitespace |
| Text.StripEnds | app.py:163 | the result of `strip()` neither starts nor ends with whitespace |
| Text.SplitOn | app.py:163 | `split(sep)` gives at least one piece and no piece contains sep |
| Text.JoinSplit | app.py:163-165 | joining the pieces of `split(sep)` with sep gives the text back |
| Text.SplitJoin | app.py:163-165 | splitting a join of sep-free pieces gives the pieces back |
| Text.SplitLength | app.py:164 | `split(sep)` has one more piece than the text has separators |
| Text.Words | db/search_service.py:55 | `split()` gives non-empty words free of whitespace |
| Text.WordsOfJoin | db/search_service.py:55 | `split()` of words joined by single spaces gives the words back |
| Text.Contains | db/search_service.py:55 | `w in s` holds iff w occurs in s at some position |
| App.ExtractJsonFromCodeBlock | app.py:157-166 | text not starting with ``` is only stripped |
| App.DropsFirstAndLastLine | app.py:161-165 | a fenced text whose stripped form has three or more lines loses its first and last line, whether or not the last one is a fence |
| App.ShortFenceIsStripped | app.py:164-166 | a fenced text of fewer than three lines is only stripped |
| App.RoundTrip | app.py:157-166 | extracting from "```json\n" + b + "\n```" gives b back for every b |
| Debug.SameAsApp | debug.py:161-170 | the debug copy computes the same result as the app copy on every text |
| Debug.ExtractJsonFromCodeBlock | debug.py:161-170 | text not starting with ``` is only stripped |
| Debug.LeadingWhitespaceKeepsFence | debug.py:165-170 | the fence test is on the unstripped text, so leading whitespace disables fence removal |
| Debug.DropsFirstAndLastLine | debug.py:165-169 | a fenced text of three or more stripped lines loses its first and last line |
| Debug.RoundTrip | debug.py:161-170 | extracting from "```\n" + b + "\n```" gives b back for every b |

## Left out

- Database access is not modelled. This covers all of `db/database.py`, the SQL halves of `get_portions` and `get_nutrients` (helper.py:164-178, 235-262), the food-row fetch in `search_food` (query.py:26-39), and the table builds in `db/embeddings.py`. Their results are inputs: rows as sequences, and tables as maps keyed by food id.
- `fts_search` (SQLite FTS5 with BM25) and `fuzzy_search` (rapidfuzz `token_sort_ratio`) are not modelled. Their results are the two input sequences of `GetCandidates`.
- The embedding API, `load_embedding` and `cosine_similarity` are not modelled, because they are network calls and numpy float arithmetic. Each candidate's cosine score is an input map from (fdc_id, data_type) to a real. A key missing from the map is a candidate without a stored embedding.
- The OpenAI chat calls, the HTTP endpoints of `app.py` and `debug.py`, the `test_data.json` read at query.py:74-75 and the `__main__` blocks are I/O and are left out.
- Quantities are exact reals. IEEE-754 rounding and binary representation are not modelled. `PyRound.Round2` rounds the exact value half to even, which is the rule Python's `round` applies to the float it is given.
- SearchService.RerankWithEmbeddings: the source writes `similarity = 0.0` into the caller's dicts in place. The model returns the updated list as the second result, `marked`, so aliasing between the caller's list and other references is not captured.
- SearchService.SortDesc: Python's `sorted` is a library call. It is modelled as a stable insertion sort, which is the ordering `sorted(..., reverse=True)` is documented to give: descending, with equal keys in input order.
- The ZeroDivisionError raised for a fermented serving size of 0 or a first portion of 0 g is a precondition (`Helper.MapNutrients`, `Query.SearchFood`), not a modelled error result. `Query.SearchFood` demands it only when the top candidate is accepted with a food row, the only path on which the source divides.
- Helper.Calculate* (and Helper.NutrientTotal): the AttributeError raised when no portion carries an ingredient's selected id (helper.py:7-8, 116-119) is not modelled; the precondition `AllSelectable` excludes that input.
- Embeddings.GetBatches: the batch size is a `nat`, so the ValueError `islice` raises for a negative size is not modelled; the one caller passes 100.
- SearchService.Overlap: the word test runs on the description as the search rows return it; the source's comment at db/search_service.py:54 says it is already normalised, and the model does not normalise it either.
- Strings are sequences of code points. The whitespace set of `str.split()` and `str.strip()` is Python's `isspace` set. Case folding is not involved, because the source compares descriptions as they are stored.
- `AnalysisMeal` is a datatype with a per-field accessor only. Nothing in the modelled files builds one, so no operation on it exists to model.
- The specification describes some behaviour the code does not have; the model follows the code:
  - The code's acceptance threshold is 0.6 where the specification suggests about 0.5.
  - No match or a low score gives `None` or the sentinel dict `{"food": "None", "similarity": 0.0}`, not a typed unmatched ingredient.
  - Embedding calls are not retried.
  - There is no fallback to lexical-only ranking.
