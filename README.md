# Dog-nutrition planner in Dafny

This project models the two algorithmic cores of a small dog-nutrition
planner and proves what they promise.

- **Food search** (`foods_db.py`, `search.py`, `toxicity.py`):
  - two toxicity predicates;
  - the query tokenizer;
  - token search with an `AND` pass and an `OR` fallback;
  - alias search;
  - two query expanders: intent rules plus a seed map, and a Chinese alias table;
  - two ways of merging and ranking results: by tier, and by the best character-overlap score.

  The SQLite tables `foods` and `food_aliases` are sequences of rows. Every
  query the source sends is a filter, an `ORDER BY` and a `LIMIT` over
  them. The table updates `upsert_food`, `add_food_alias` and
  `delete_food_alias` are methods of a class `FoodTables.Tables` that
  holds both tables and their `AUTOINCREMENT` counters.
- **Requirements and recipe optimizer** (`models.py`, `nrc.py`,
  `optimizer.py`):
  - profile validation;
  - the per-1000-kcal reference table and its scaling to a day;
  - the LOW / HIGH / OK classifier;
  - the greedy optimizer. It filters candidates, seeds equal energy
    shares, then corrects the amounts in place for at most 120 rounds.

  Each imperative loop of the source is a Dafny method with loop
  invariants. Its `ensures` ties the result to a specification function,
  and lemmas prove the source's promises about that function.

Modules, one file each:
- `Wrappers`: `Option` and `Result`.
- `Text`: ASCII `lower`, `strip` over Python's whitespace set, substring
  test, code-point order.
- `Sequences`: filter, SQL `LIMIT`, Python slice, stable sort.
- `Toxicity`, `FoodsDb`, `FoodTables`, `FoodsDbCn`, `Search`, `Models`,
  `Nrc`, `Optimizer`.

Some inputs are parameters:
- the energy requirement (`calculate_mer`);
- the seed alias map that `_load_seed_alias_map` reads from CSV;
- the `CN_ALIASES` table;
- the candidate rows that `optimize_recipe` would fetch, including each
  food's nutrient amounts;
- `round(g, 1)`, passed as a function.

## Model

| member | source | states |
|---|---|---|
| Toxicity.KeywordsWellFormed | src/dog_nutrition/toxicity.py:1-5 | every keyword is non-empty, already lower-case and has no leading or trailing whitespace |
| Toxicity.BlankNameIsSafe | src/dog_nutrition/toxicity.py:8-11 | an empty or all-whitespace name is never toxic |
| Toxicity.ToxicIffKeyword | src/dog_nutrition/toxicity.py:8-12 | a name is toxic exactly when some keyword is a substring of its stripped, lower-cased form; the blank-name guard excludes nothing more |
| Toxicity.CaseInsensitive | src/dog_nutrition/toxicity.py:9 | two names that lower-case alike are equally toxic |
| Toxicity.ToxicSurrounded | src/dog_nutrition/toxicity.py:12 | adding text around a toxic name leaves it toxic |
| Toxicity.OnionIsToxic | src/dog_nutrition/toxicity.py:1-12 | "洋葱" is toxic |
| Toxicity.DarkChocolateIsToxic | src/dog_nutrition/toxicity.py:1-12 | "dark chocolate" is toxic |
| Toxicity.ChickenBreastIsSafe | src/dog_nutrition/toxicity.py:1-12 | "鸡胸肉" is not toxic |
| FoodsDb.SearchFilterWithinToxicity | src/dog_nutrition/foods_db.py:148-150 | a name the search's 8-keyword filter rejects is also rejected by toxicity.py's filter |
| FoodsDb.ToxicSurrounded | src/dog_nutrition/foods_db.py:148-150 | adding text around a name the search filter rejects leaves it rejected |
| FoodsDb.RowsToRecords | src/dog_nutrition/foods_db.py:165-176 | keeps exactly the rows whose names are not toxic, and never adds a row |
| FoodsDb.SplitKeepsText | src/dog_nutrition/foods_db.py:29 | the pieces of the separator split, joined back, are the input with its separators removed |
| FoodsDb.SplitPiecesClean | src/dog_nutrition/foods_db.py:29 | no piece of the split holds a separator |
| FoodsDb.TokenizeQuery | src/dog_nutrition/foods_db.py:153-162 | the loop with its early break returns `Tokens(query)`: the kept pieces, capped at six |
| FoodsDb.TokensWellFormed | src/dog_nutrition/foods_db.py:29-31 | at most six tokens; none is empty, a stopword, or holds a separator |
| FoodsDb.BlankQueryHasNoTokens | src/dog_nutrition/foods_db.py:153-162 | the empty query has no tokens |
| FoodsDb.TwoWordTokens | src/dog_nutrition/foods_db.py:153-162 | two lower-case words with any run of separators between them give those two words, in input order |
| FoodsDb.OneWordTokens | src/dog_nutrition/foods_db.py:153-162 | a single lower-case word that is not a stopword is its own only token |
| FoodsDb.NameOrder | src/dog_nutrition/foods_db.py:208 | `ORDER BY name` is a total, transitive order |
| FoodsDb.Select | src/dog_nutrition/foods_db.py:203-213 | one pass returns only non-toxic table rows that match, sorted by name, at most `limit` of them |
| FoodsDb.SearchFoods | src/dog_nutrition/foods_db.py:179-230 | fails with "limit must be > 0" exactly when `limit <= 0`. Otherwise: a query without tokens gives nothing; the results are safe rows of the table, sorted by name, at most `limit`; each matches every token, or the `AND` pass kept no safe row and it matches some token |
| FoodsDb.SearchFindsMatch | src/dog_nutrition/foods_db.py:196-215 | a safe food that matches every token is returned when at most `limit` foods match every token |
| FoodsDb.LimitBeforeToxicFilter | src/dog_nutrition/foods_db.py:203-230 | with limit 1, a toxic name that sorts first hides a safe food matching every token, in both passes |
| FoodsDb.JoinAliases | src/dog_nutrition/foods_db.py:244-249 | the join holds exactly the (alias, food) pairs with matching food id, language and alias substring |
| FoodsDb.AliasNameOrderTotal | src/dog_nutrition/foods_db.py:250 | `ORDER BY a.alias, f.name` is total |
| FoodsDb.SearchFoodsByAlias | src/dog_nutrition/foods_db.py:233-255 | a blank query gives nothing; at most `limit` results; each is a safe food of the table with an alias, in the normalised language, that contains the normalised query |
| FoodsDb.AliasSearchFinds | src/dog_nutrition/foods_db.py:244-255 | a safe food with a matching alias is returned when the limit is negative or no more than `limit` alias rows match |
| FoodsDb.CalculateKcalForGrams | src/dog_nutrition/foods_db.py:330-335 | fails exactly for a negative input, checking the energy first, with the source's messages; a result is never negative |
| FoodsDb.KcalProportional | src/dog_nutrition/foods_db.py:335 | 100 g carry the per-100 g energy, and energy adds up over portions |
| FoodTables.FindFdc | src/dog_nutrition/foods_db.py:92-96 | the first row holding the (source, fdc id) pair, or none exactly when no row holds it |
| FoodTables.Upsert | src/dog_nutrition/foods_db.py:86-102 | adds at most one row, and always one without an fdc id. The written values are in the table. Existing rows keep id, source and fdc id. When a row is added, the old rows are unchanged, the new row takes the next id and the counter advances |
| FoodTables.UpsertKeepsId | src/dog_nutrition/foods_db.py:92-102 | on a (source, fdc id) conflict, that row alone gets the new name and energy, keeps its id, and the counter stays |
| FoodTables.UpsertWellFormed | src/dog_nutrition/foods_db.py:44-51 | upserting keeps the ids increasing and below the counter, names non-empty, energy non-negative and `UNIQUE(source, fdc_id)` |
| FoodTables.UpsertIdempotent | src/dog_nutrition/foods_db.py:92-102 | with an fdc id, upserting the same values twice equals upserting them once |
| FoodTables.AddAlias | src/dog_nutrition/foods_db.py:112-118 | `INSERT OR IGNORE` keeps the old rows in place, appends one row exactly when its (lang, alias, food id) key is new, and leaves the key present |
| FoodTables.AddAliasWellFormed | src/dog_nutrition/foods_db.py:57-65 | adding an alias keeps the ids increasing and below the counter, and `UNIQUE(lang, alias, food_id)` |
| FoodTables.AddAliasIdempotent | src/dog_nutrition/foods_db.py:112-118 | adding the same alias twice equals adding it once |
| FoodTables.RemoveAlias | src/dog_nutrition/foods_db.py:122-124 | exactly the rows with another id remain |
| FoodTables.RemoveAliasWellFormed | src/dog_nutrition/foods_db.py:122-124 | deleting keeps the alias table well formed |
| FoodTables.AliasesOf | src/dog_nutrition/foods_db.py:128-132 | the listed aliases are in code-point order, one per matching row, and are exactly the aliases of that food in that language |
| FoodTables.Tables.constructor | src/dog_nutrition/foods_db.py:41-69 | fresh tables are empty and valid, with both counters at 1 |
| FoodTables.Tables.UpsertFood | src/dog_nutrition/foods_db.py:72-102 | fails exactly for a blank stripped name, then for negative energy, changing nothing. Otherwise the foods table becomes `Upsert` of the stripped name. The alias table never changes and validity is kept |
| FoodTables.Tables.AddFoodAlias | src/dog_nutrition/foods_db.py:105-119 | fails exactly for a blank alias, then a blank language, changing nothing. Otherwise the alias table becomes `AddAlias` of the stripped alias and the stripped, lower-cased language. The foods table never changes |
| FoodTables.Tables.DeleteFoodAlias | src/dog_nutrition/foods_db.py:122-124 | the alias table loses the row with that id and nothing else changes |
| FoodTables.Tables.GetFoodAliases | src/dog_nutrition/foods_db.py:127-132 | the aliases of the food in the stripped, lower-cased language, in code-point order |
| FoodsDbCn.Dedup | src/dog_nutrition/foods_db.py:291-297 | no repeats, and exactly the non-empty items of the input |
| FoodsDbCn.DedupPrefix | src/dog_nutrition/foods_db.py:291-297 | first-seen order: removing repeats from a longer list only appends to the result for its prefix |
| FoodsDbCn.ExpandQuery | src/dog_nutrition/foods_db.py:277-297 | the loop with its `seen` set returns `Expanded(query, seed)` |
| FoodsDbCn.ExpandedMembers | src/dog_nutrition/foods_db.py:277-297 | the expansion has no repeat and is exactly the non-empty terms among the normalised query, the intent terms and the seed terms |
| FoodsDbCn.ExpandedOrder | src/dog_nutrition/foods_db.py:278-289 | a non-blank normalised query comes first, and the intent terms come before any seed term |
| FoodsDbCn.ChickenBreastExpansion | src/dog_nutrition/foods_db.py:281-282 | "鸡胸肉" with no seed entry expands to itself, "chicken breast", "chicken" and "breast" |
| FoodsDbCn.IntentPrecedence | src/dog_nutrition/foods_db.py:281-286 | a query naming both 鸡肉 and 鸡蛋 gets only the chicken terms |
| FoodsDbCn.SetDefault | src/dog_nutrition/foods_db.py:309 | a new id is appended with its tier; a known id leaves everything unchanged; ids stay distinct |
| FoodsDbCn.SetDefaultAll | src/dog_nutrition/foods_db.py:308-313 | every record's id ends up present; new entries carry the given tier and come from the records; ids stay distinct |
| FoodsDbCn.MergeTerms | src/dog_nutrition/foods_db.py:311-313 | fails exactly when there is a term and the limit is not positive. Otherwise it only appends tier-1 entries of safe table foods, keeps ids distinct, and holds an entry for every food that any term's search returned |
| FoodsDbCn.RankOrder | src/dog_nutrition/foods_db.py:317-326 | the ranking key, with or without the chicken rule, is a total, transitive order |
| FoodsDbCn.Rank | src/dog_nutrition/foods_db.py:318-326 | the sort orders by the ranking key and is a permutation of the merged values |
| FoodsDbCn.Ranking | src/dog_nutrition/foods_db.py:306-326 | fails exactly when the limit is not positive and there is a term to search. Otherwise it is sorted by tier, then (when the stripped query holds 鸡胸 or 鸡肉) chicken names first, then lower-cased name |
| FoodsDbCn.Finish | src/dog_nutrition/foods_db.py:327 | the records of the ranked entries in order, `min(limit, n)` of them for a non-negative limit and `n + limit` (at least 0) for a negative one, as a Python slice gives |
| FoodsDbCn.MergeRecords | src/dog_nutrition/foods_db.py:308-309 | the `setdefault` loop computes `SetDefaultAll` |
| FoodsDbCn.MergeAllTerms | src/dog_nutrition/foods_db.py:311-313 | the nested loop over the terms computes `MergeTerms`, stopping at the first search that raises |
| FoodsDbCn.SearchFoodsCn | src/dog_nutrition/foods_db.py:300-327 | the method computes `SearchFoodsCnSpec` |
| FoodsDbCn.RankingProperties | src/dog_nutrition/foods_db.py:306-326 | each id once; only safe table foods; an entry for every alias hit and every term hit; an entry is at tier 0 exactly when the alias search found its food, and at tier 1 otherwise |
| FoodsDbCn.MergedTiers | src/dog_nutrition/foods_db.py:306-313 | since `setdefault` keeps the first entry for an id, every entry after the alias hits is at tier 1 and is for a food the alias search did not find |
| FoodsDbCn.PermutationKeepsTiersAndHits | src/dog_nutrition/foods_db.py:315-326 | sorting keeps each entry's tier and an entry for every term hit |
| FoodsDbCn.SearchFoodsCnProperties | src/dog_nutrition/foods_db.py:300-327 | raises exactly when the limit is not positive and there is a term. Otherwise it returns at most `limit` safe table foods, each id once |
| FoodsDbCn.SearchFoodsCnOrder | src/dog_nutrition/foods_db.py:315-327 | the result is the foods of the first `min(limit, n)` entries of the ranking, in order, and the ranking is sorted by tier, then the chicken rule, then lower-cased name |
| FoodsDbCn.SearchFoodsCnComplete | src/dog_nutrition/foods_db.py:306-327 | when the ranking fits within the limit, every alias hit and every term hit is in the result |
| Search.CharOverlapScore | src/dog_nutrition/search.py:15-20 | 0 when either character set is empty; always in [0, 1]; 1 exactly for equal, non-empty character sets |
| Search.OverlapSymmetric | src/dog_nutrition/search.py:15-20 | the score does not depend on argument order |
| Search.OverlapSelf | src/dog_nutrition/search.py:15-20 | a string with a visible character scores 1 against itself |
| Search.CollectedMembers | src/dog_nutrition/search.py:26-29 | the loop collects exactly the aliases and keys of the matching entries |
| Search.Distinct | src/dog_nutrition/search.py:30 | no repeats, the same members, and the first item stays first |
| Search.DistinctPrefix | src/dog_nutrition/search.py:30 | first-seen order: later items never reorder earlier ones |
| Search.ExpandQuery | src/dog_nutrition/search.py:23-30 | the loop computes `Expanded(query, table)` |
| Search.ExpandedMembers | src/dog_nutrition/search.py:23-30 | the raw query comes first; no repeats; the members are the query plus the aliases and key of every entry whose key or alias contains the normalised query |
| Search.BlankQueryExpandsToAll | src/dog_nutrition/search.py:24-29 | a blank query brings in every key and alias |
| Search.Update | src/dog_nutrition/search.py:38-40 | adds at most one entry; no entry loses score; the offered food ends with at least the offered score; nothing but the offer comes in; ids stay distinct |
| Search.UpdateOnlyIfBetter | src/dog_nutrition/search.py:39-40 | an offer for a held food replaces it in place exactly when strictly better; on a tie the earlier record stays |
| Search.UpdateAllKeeps | src/dog_nutrition/search.py:35-40 | a run of updates never drops an entry or lowers its score |
| Search.UpdateAllCovers | src/dog_nutrition/search.py:35-40 | every offer is matched or beaten by the entry for its food |
| Search.UpdateAllFrom | src/dog_nutrition/search.py:35-40 | every entry was held before or was offered |
| Search.UpdateAllDistinct | src/dog_nutrition/search.py:34-40 | ids stay distinct |
| Search.TermOffers | src/dog_nutrition/search.py:36-37 | one offer per found food, with the larger of the query's and the term's overlap with its name |
| Search.ScoreOrder | src/dog_nutrition/search.py:41 | score descending, then name ascending, is a total, transitive order |
| Search.OfferAll | src/dog_nutrition/search.py:36-40 | the inner loop computes `UpdateAll` of the term's offers |
| Search.SearchFoodsCn | src/dog_nutrition/search.py:33-41 | the nested loops and the sort compute `SearchFoodsCnSpec` |
| Search.CandidatesBest | src/dog_nutrition/search.py:34-40 | starting empty, each food id is held once, by an offered entry that no offer for that food beats |
| Search.RankedBest | src/dog_nutrition/search.py:41 | sorting and slicing keep the ids distinct and the best-score property, and the result is sorted |
| Search.SearchFoodsCnProperties | src/dog_nutrition/search.py:33-41 | fails exactly for a limit that is not positive. Otherwise: at most `limit` results, each id once, sorted by score then name, each carrying the best score any term earned its food |
| Search.SearchFoodsCnTop | src/dog_nutrition/search.py:41 | exactly `min(limit, n)` of the `n` candidates are returned, and every candidate left out ranks no earlier than every one returned |
| Search.CandidatesCover | src/dog_nutrition/search.py:34-40 | every offered food ends up with a candidate scoring at least the offer |
| Search.CutCovers | src/dog_nutrition/search.py:41 | sorting candidates that fit within the limit and slicing keeps them all |
| Search.SearchFoodsCnComplete | src/dog_nutrition/search.py:33-41 | when at most `limit` foods were found, every food any term offered is returned, with at least the score offered |
| Models.NewDogProfile | src/dog_nutrition/models.py:7-19 | succeeds exactly for a positive weight and one of the three activity levels. The weight is checked first, each failure with the source's message. A success holds the given fields |
| Models.ProfileDefaults | src/dog_nutrition/models.py:12-19 | the defaults give a neutered dog of normal activity; an input invalid both ways reports the weight |
| Nrc.TableWellFormed | src/dog_nutrition/nrc.py:17-34 | sixteen distinct keys; every row has a non-negative minimum and minimum <= suggestion (<= maximum) |
| Nrc.Scale | src/dog_nutrition/nrc.py:41-47 | the key is kept and each bound is scaled. The maximum is absent exactly when the table's is. A positive scale keeps the bounds in order |
| Nrc.RequirementsForProfile | src/dog_nutrition/nrc.py:37-49 | returns the given energy, and one requirement per table row, in table order, scaled by `mer / 1000` |
| Nrc.RequirementsOrdered | src/dog_nutrition/nrc.py:37-49 | for a positive energy, the keys are the table's and every requirement keeps minimum <= suggestion (<= maximum) |
| Nrc.NrcStatusMeaning | src/dog_nutrition/nrc.py:52-57 | LOW exactly below the minimum; HIGH exactly at or above it and above an existing maximum; OK exactly within the bounds |
| Nrc.NrcStatusExamples | src/dog_nutrition/nrc.py:52-57 | 9, 21 and 11 against (10, 20) give LOW, HIGH and OK; no maximum means no HIGH |
| Optimizer.SafeFoods | src/dog_nutrition/optimizer.py:61-71 | the kept foods all come from the candidates and are usable: present, safe by name, positive energy. Every usable candidate is kept |
| Optimizer.SelectFoods | src/dog_nutrition/optimizer.py:61-71 | the filtering loop computes `SafeFoods` |
| Optimizer.TotalsMapGet | src/dog_nutrition/optimizer.py:35-40 | the totals list exactly the nutrients some food lists, and a defaulted lookup gives the sum over foods of amount × grams / 100 |
| Optimizer.TotalAbsent | src/dog_nutrition/optimizer.py:38-39 | a nutrient no food lists totals 0 |
| Optimizer.ComputeTotals | src/dog_nutrition/optimizer.py:35-40 | the nested loops compute `TotalsMap` |
| Optimizer.AddFood | src/dog_nutrition/optimizer.py:38-39 | one food's pass adds its share to each nutrient it lists and leaves the others as they were |
| Optimizer.RowsMeaning | src/dog_nutrition/optimizer.py:43-57 | one row per requirement, in order, with its bounds, its total (0 when absent), and LOW / HIGH as `nrc_status` defines them |
| Optimizer.MakeNrcRows | src/dog_nutrition/optimizer.py:43-57 | the loop computes `RowsFrom` |
| Optimizer.DensestUpTo | src/dog_nutrition/optimizer.py:94 | an index of maximal density among the first `n` foods, with every earlier food strictly less dense |
| Optimizer.Densest | src/dog_nutrition/optimizer.py:94 | Python's `max` over `range(n)`: the first food of maximal density |
| Optimizer.AdjustMeaning | src/dog_nutrition/optimizer.py:92-102 | only the densest food changes, and nothing changes at zero density. LOW adds exactly the grams that supply the deficit. HIGH removes exactly the grams carrying the excess, or clamps at 0. Amounts stay non-negative |
| Optimizer.AdjustAllNonNegative | src/dog_nutrition/optimizer.py:92-102 | a round of corrections keeps every amount non-negative |
| Optimizer.LowRowsBelowMinimum | src/dog_nutrition/optimizer.py:82-83 | every failing LOW row lies below its minimum |
| Optimizer.ApplyCorrections | src/dog_nutrition/optimizer.py:92-102 | the in-place loop over the failing rows leaves `grams` as `AdjustAll`, every correction using the round's starting report |
| Optimizer.ItemIndices | src/dog_nutrition/optimizer.py:85-89 | the positions of the foods given more than 0.1 g (unrounded), increasing |
| Optimizer.ItemsMeaning | src/dog_nutrition/optimizer.py:85-89 | the k-th item is the food at the k-th such position, with its rounded amount |
| Optimizer.ItemsComplete | src/dog_nutrition/optimizer.py:85-89 | every food given more than 0.1 g has its item |
| Optimizer.Settle | src/dog_nutrition/optimizer.py:80-102 | stopping as settled means every nutrient is OK; no round makes an amount negative |
| Optimizer.SettleStep | src/dog_nutrition/optimizer.py:83-102 | a round with a failing row corrects and goes on with one round fewer |
| Optimizer.SettleDone | src/dog_nutrition/optimizer.py:83-90 | a round with no failing row stops, settled, at the current amounts |
| Optimizer.CorrectionNonNegative | src/dog_nutrition/optimizer.py:92-102 | one round's corrections keep the amounts non-negative |
| Optimizer.LastRoundNotRechecked | src/dog_nutrition/optimizer.py:80-105 | with one round left and a failing nutrient, the result is "no feasible solution" and reports the corrected amounts, which are not checked again |
| Optimizer.OptimizeRecipe | src/dog_nutrition/optimizer.py:60-105 | the method, correcting an array in place, computes `OptimizeRecipeSpec` |
| Optimizer.NoSafeFoods | src/dog_nutrition/optimizer.py:61-74 | "no safe foods available" is reported exactly when no candidate is usable, with no items and no rows |
| Optimizer.NoSafeFoodsExample | src/dog_nutrition/optimizer.py:61-74 | a missing, a toxic and an energy-less candidate give "no safe foods available" |
| Optimizer.SeedEnergy | src/dog_nutrition/optimizer.py:76-78 | every seeded amount is positive and together they supply exactly the energy requirement |
| Optimizer.OptimizeOutcome | src/dog_nutrition/optimizer.py:60-105 | a feasible result has reason "ok", one OK row per requirement in order, and items only from usable candidates; an infeasible one has no items |
| Optimizer.SeededFormula | src/dog_nutrition/optimizer.py:80-105 | from any start, the rounds give "ok" with every row OK and usable items, or "no feasible solution" with no items |
| Optimizer.ItemsFromCandidates | src/dog_nutrition/optimizer.py:61-89 | every item names a candidate that is present, safe by name and has energy |

## Left out

- String handling is ASCII only. `lower()` folds ASCII letters only, where Python's also folds other scripts. `strip()` uses a fixed set of whitespace characters.
- SQLite `LIKE` is a plain substring test. The `%` and `_` wildcards a token may contain, and `LIKE`'s own case folding, are not modelled.
- `ORDER BY` ties keep table order (a stable sort); SQLite does not promise an order for ties.
- A negative `LIMIT` means no limit, as in SQLite.
- The `AUTOINCREMENT` ids come from one counter per table, advanced only when a row is added.
- `created_at` is not modelled.
- Foreign keys are not enforced, as SQLite leaves them off unless asked, so `ON DELETE CASCADE` is not modelled.
- `connect_db`, `init_db`'s SQL text and indexes, and `list_aliases` (a display join) are not modelled.
- `_load_seed_alias_map` reads a CSV file, so its parsed map is a parameter.
- `CN_ALIASES`, `KEY_NUTRIENTS` and `get_food_nutrients` are not part of this model. The alias table and the candidates' nutrient maps are parameters.
- `calculate_mer` (energy.py) takes a fractional power of the weight, so the energy requirement is an input.
- Floating point is modelled as exact reals, so rounding error is not modelled. `round(g, 1)` is a parameter function.
- Python dictionaries are Dafny maps, so the iteration order of nutrient keys in `_compute_totals` is not modelled. Each key's total does not depend on that order.
- fdc_import.py, app.py, cli.py and the tools scripts are not modelled: they are I/O, UI and command-line plumbing.
- Tests written against functions or parameters the source does not have are not modelled: `weight=` on `add_food_alias`, `seed_default_zh_aliases`, the "whole egg" expansion.
- Optimizer.OptimizeOutcome: it does not prove that the greedy loop converges or reaches a feasible formula; the source does not promise that.
- FoodsDb.SearchFoodsByAlias: its contract states members, safety and the limit, but not the order by alias then food name. The order is the sort inside it.
- FoodTables.Upsert: its contract does not single out the updated row; `FoodTables.UpsertKeepsId` states the in-place update.
- FoodTables.Upsert: an insert that conflicts on (source, fdc id) leaves the model's counter unchanged, while SQLite may use up an `AUTOINCREMENT` id on the failed attempt, so real ids may skip values that the model's ids do not.
- FoodTables.AddAlias: `INSERT OR IGNORE` of an alias already present leaves the model's counter unchanged, while SQLite may use up an `AUTOINCREMENT` id on it, so real alias ids may skip values.
