# LLAMBO core: survivor selection, parent pairing and their stateful helpers

This project is a Dafny model of the parts of LLAMBO that decide which
LLM-generated optimisation algorithms survive and which are paired as parents.
It also models the small stateful pieces around that logic:

- **Population vocabulary** (`population.dfy`):
  - individuals and pending query items;
  - the result handler stored in an individual's metadata;
  - sanitised save names.
- **Code similarity** (`similarity.dfy`): `code_compare` and the n×n
  similarity matrix with its per-row means.
- **Family-competition selection** (`family.dfy`):
  - each offspring competes with its own parents;
  - the winners form a candidate pool and the losers a substitute pool;
  - the survivors are the candidates by fitness, then the substitutes by
    fitness, cut to the parent count.
- **Diversity-aware selection** (`diversity.dfy`): a stable sort by a
  comparator that weighs score difference against description similarity.
- **Max-diversity parent pairing** (`parents.dfy`):
  - the least similar individuals become seeds;
  - each seed is grouped with the first new combination of its least similar
    co-parents;
  - each group becomes one query item.
- **Individual log store** (`logger.dfy`):
  - `IndividualLogger` with its success and failure filters;
  - metadata-key renaming;
  - log merging.
- **Path access** (`access.dfy`): `dynamical_access`.
- **Plot helpers** (`plotting.dfy`):
  - the NaN left forward fill, over an array;
  - algorithm-name shortening.
- **Injected critic** (`critic.dfy`):
  - the call profiler;
  - the metric lists padded to the evaluation count;
  - the `ignore_metric` switch;
  - the injected maximisation flag.
- **TuRBO trust region** (`turbo.dfy`): the trust-region state and its update.
- **Response handler** (`prompt.dfy`): the generation-task enumeration and the
  handler whose error, once set, is never cleared.

Shared pieces:

- `sorting.dfy` holds the stable sorts that stand in for Python's `sorted` and
  `numpy.argsort`.
- `text.dfy` holds `str.replace`, `in` on strings, `split` and `join`.
- `numeric.dfy` holds sums, maxima and `math.ceil`.
- `wrappers.dfy` holds `Option`.

Modelling choices:

- Fitness, scores, similarities and times are `real`.
- A float that may be NaN, and every Python `None`, is an `Option`.
- Code is a sequence of lines.
- Several things become parameters:
  - the line diff's changed-line count;
  - the description-similarity matrix and its mean vector;
  - clock readings;
  - random ids;
  - the surrogate model's r² and uncertainty.
- Classes whose fields the source updates in place are Dafny classes, and so
  is the Python list that `_update_r2` extends.

Where the code and the repository's own description disagree, the model
follows the code:

- **An offspring is never substituted out of its own family.** The code sorts
  the family and splits it just after the offspring, so the offspring is
  always in the selected part. An offspring weaker than every parent is
  therefore still selected, after all of them (`WeakChildStillSelected`).
  In a contested family a parent is selected exactly when it is strictly
  fitter than the offspring; a parent tied with the offspring is substituted,
  because the stable sort keeps the offspring, listed first, ahead of it
  (`FamilySelectionSpec`).
- **A strong offspring keeps its parents only through the threshold.** An
  offspring fitter than all its parents is selected alone, and every parent is
  substituted (`StrongChildAloneSelected`). A family is selected whole only
  when the number of parents exceeds `parent_size_threshold` (default 1), so
  a two-parent family is selected whole by default but contested for a
  threshold of 2 or more.
- **Pairing yields at most `n_offspring` items.** `max_divese_desc_get_parent_fn`
  emits at most one query item per seed, so at most `n_offspring` items. The
  module's own test at `llamea/population/population.py:541-542` expects two
  items for `n_offspring = 1`, which that bound rules out.
- **Groups may hold fewer than `n_parent` parents.** The co-parent list drops
  the last entry of the argsort, which need not be the seed itself. A group
  can then hold the seed twice, and so fewer than `n_parent` distinct parents;
  the model proves only "at most `n_parent`".

## Model

| member | source | states |
|---|---|---|
| PromptGenerators.GenerationTask.Value | llamevol/prompt_generators/abstract_prompt_generator.py:8-13 | each task's value lies in 0..3 |
| PromptGenerators.TaskOf | llamevol/prompt_generators/abstract_prompt_generator.py:8-13 | looking a task up by value succeeds exactly for 0..3 |
| PromptGenerators.TaskValueRoundTrip | llamevol/prompt_generators/abstract_prompt_generator.py:8-13 | lookup by value and a member's value are inverse |
| PromptGenerators.TaskValuesDistinct | llamevol/prompt_generators/abstract_prompt_generator.py:8-13 | the four members have distinct values |
| PromptGenerators.ResponseHandler.constructor | llamevol/prompt_generators/abstract_prompt_generator.py:18-37 | a new handler has empty texts, no error or error type, no result, no parents and zero counters |
| PromptGenerators.ResponseHandler.SetEvalResult | llamevol/prompt_generators/abstract_prompt_generator.py:39-48 | reading `eval_result` back gives the value set; a result with an error copies its error and error type; otherwise both stay; a recorded error is never cleared; nothing else changes |
| PromptGenerators.ErrorSticky | llamevol/prompt_generators/abstract_prompt_generator.py:43-48 | after any series of assignments the handler has an error exactly when it had one before or some assigned result carried one |
| Population.NewIndividual | llamea/population/population.py:392 | a fresh `Individual()` has only its id set: no parents, fitness, error or metadata |
| Population.GetHandlerFromIndividual | llamea/population/population.py:94-98 | gives the "res_handler" entry, and None exactly when there is no individual or no such entry |
| Population.SetHandlerToIndividual | llamea/population/population.py:89-92 | afterwards the getter returns the handler; every other field and metadata entry is kept; no individual means no change |
| Population.NewQueryItem | llamea/population/population.py:16-27 | the qid defaults to the current time; generation, type and the initialised flag start unset; parent and offspring are as given |
| Population.SaveDirSuffix | llamea/population/population.py:103-109 | the run directory's name is the class name, '_', the sanitised population name (no space, ':' or '/'), '_' and the timestamp |
| Population.SaveFilePath | llamea/population/population.py:151-167 | the saved file's path starts with the directory, ends with `<ClassName><name part>_<timestamp>.pkl`, and joins the two with exactly one '/' unless the directory is empty or already ends with '/' |
| Population.SaveNamePartShape | llamea/population/population.py:157-165 | the name part of a saved population's file is empty or starts with '_'; without a suffix it has no space, ':' or '/'; a name the directory already contains is dropped |
| Text.SafeNameIsSafe | llamea/population/population.py:100-101 | a sanitised name holds no space, ':' or '/', and keeps every other character of the name |
| Text.SafeNameOfSafe | llamea/population/population.py:100-101 | a name that is already safe is returned unchanged |
| Text.SafeNameIdempotent | llamea/population/population.py:100-101 | sanitising twice is sanitising once |
| Text.SafeNameByChar | llamea/population/population.py:100-101 | the three replaces drop spaces and turn ':' and '/' into '_', character by character |
| Text.JoinSplit | llamea/utils.py:483 | joining the pieces of `split('.')` with '.' gives the path back |
| Text.SplitPieces | llamea/utils.py:483 | no piece of `split('.')` contains the separator |
| CodeSimilarity.CompareSelf | llamea/population/population.py:214-219 | a code body compared with itself gives 1, including the empty body |
| CodeSimilarity.CompareBounds | llamea/population/population.py:214-219 | every ratio lies in [-1, 1] |
| CodeSimilarity.CodeCompare | llamea/population/population.py:214-219 | the ratio of unchanged lines is at most 1, and it is exactly 1 when both bodies are empty or the diff reports no changed line, and only then |
| CodeSimilarity.CompareCanBeNegative | llamea/population/population.py:214-219 | two one-line bodies that differ give -1, so there is no lower bound of 0 |
| CodeSimilarity.CodeDiffSimilarity | llamea/population/population.py:208-233 | the nested loop's mirrored writes leave an n×n symmetric matrix; its diagonal is 1 and its entries lie in [-1, 1]; each mean is the average of its row without the diagonal; empty input gives empty results |
| CodeSimilarity.MeanOfCopies | llamea/population/population.py:227-231 | copies of one body have mean similarity 1 to the others |
| Sorting.SortByKeyPerm | llamea/population/population.py:279 | the stable descending sort is a permutation of its input |
| Sorting.SortByKeySorted | llamea/population/population.py:279 | the stable descending sort orders by key, highest first |
| Sorting.SortByCmpPerm | llamea/population/population.py:352 | the comparator sort is a permutation of its input |
| Sorting.SortByCmpAdjacent | llamea/population/population.py:352 | with an antisymmetric comparator, even a non-transitive one, each element ranks at least as high as the next |
| Sorting.ArgSortSpec | llamea/population/population.py:369 | argsort is a permutation of the indices that orders the values ascending |
| FamilyCompetition.IdMap | llamea/population/population.py:293 | every id of the inputs is a key and every key is the id of some input; each key maps to an individual with that id, and an individual with no later namesake is the one its id maps to (the last one wins) |
| FamilyCompetition.FamilySelection | llamea/population/population.py:267-285 | an offspring without parents is selected alone and nothing is substituted; a family with more parents than the threshold is selected whole; in every case the offspring is among the selected ids |
| FamilyCompetition.ContestedSplit | llamea/population/population.py:279-285 | a contested family splits the parents, sorted alone, at the offspring's insertion point |
| FamilyCompetition.FamilySelectionSpec | llamea/population/population.py:267-285 | selected then unselected is the stable fitness order of the family, a permutation of it; the offspring ends the selected list; the parents before it are strictly fitter; every unselected parent is no fitter |
| FamilyCompetition.StrongChildAloneSelected | llamea/population/population.py:279-285 | an offspring fitter than all its parents is selected alone, and all parents are unselected |
| FamilyCompetition.WeakChildStillSelected | llamea/population/population.py:279-285 | an offspring weaker than all its parents is still selected with all of them, and nothing is unselected |
| FamilyCompetition.PoolsSpec | llamea/population/population.py:295-313 | every offspring is a candidate; every previous-population id not substituted is a candidate; after resolution the pools are disjoint; aggressive mode drops the overlap from the candidates, conservative mode from the substitutes |
| FamilyCompetition.OverlapRemoval | llamea/population/population.py:306-313 | the branch on a non-empty intersection computes the same pools as removing the intersection outright: from the candidates when aggressive, from the substitutes otherwise |
| FamilyCompetition.ChildSelected | llamea/population/population.py:297-300 | every offspring's id is in the union of the selected lists |
| FamilyCompetition.Enumerate | llamea/population/population.py:315-316 | lists a set's members once each |
| FamilyCompetition.RankPools | llamea/population/population.py:315-319 | listing and sorting both pools and cutting to `n_parent` gives the ranked prefix described for `FamilyCompetitionSelection` |
| FamilyCompetition.Lookup | llamea/population/population.py:318 | `[all_ind_map[i] for i in ids]` keeps the ids in order and returns the mapped individuals |
| FamilyCompetition.FamilyCompetitionSelection | llamea/population/population.py:287-319 | the result holds min(n_parent, pool sizes) distinct individuals from the two pools; candidates come before substitutes, each part by fitness highest first; whatever was cut off ranks no higher; each result is the individual its id maps to |
| FamilyCompetition.GatherPools | llamea/population/population.py:295-313 | the two loops and the overlap removal leave exactly the candidate and substitute pools `Pools` describes |
| FamilyCompetition.CollectFamilies | llamea/population/population.py:295-300 | after the loop over the new generation the candidate set is the union of every family's selected list and the substitute set the union of the unselected lists |
| FamilyCompetition.KeepFromPopulation | llamea/population/population.py:302-304 | the loop over the previous population adds exactly the ids that no family substituted out |
| FamilyCompetition.DistinctCount | llamea/population/population.py:315-319 | a list has no duplicates exactly when each element occurs at most once |
| DiversitySelection.MeanAbsDeviationNonNegative | llamea/population/population.py:338-341 | the default threshold, the mean absolute deviation of the scores, is at least 0 |
| DiversitySelection.MeanAbsDeviationOfEqualScores | llamea/population/population.py:338-341 | equal scores give a threshold of 0 |
| DiversitySelection.CandCmpAntisymmetric | llamea/population/population.py:343-350 | `cmp_inds(a, b) == -cmp_inds(b, a)` for every threshold |
| DiversitySelection.DiversitySelectionSpec | llamea/population/population.py:323-363 | candidates that fit are returned unchanged as `last + next`; otherwise exactly `n_parent` of them are returned, as a sub-multiset taken from the front of the comparator ranking; the ranking is a permutation of the candidates in which each ranks at least as high as the next |
| DiversitySelection.ScoresApartRankByScore | llamea/population/population.py:343-350 | when all differing scores are farther apart than the threshold, the ranking is by score, highest first |
| DiversitySelection.ScoresCloseRankBySimilarity | llamea/population/population.py:343-350 | when all scores lie within the threshold, the ranking is by mean similarity, least similar first |
| DiversitySelection.DiversityAwarenessSelection | llamea/population/population.py:323-363 | the method's result is the selection specified by `DiversitySelection` |
| DiversitySelection.FitnessThreshold | llamea/population/population.py:338-341 | without a given threshold it is the mean absolute deviation of the candidates' scores from their mean; a given one is used as it is |
| DiversitySelection.Unwrap | llamea/population/population.py:356-360 | the collected list is the individuals of the ranked tuples, in ranking order |
| ParentPairing.CombinationsSpec | llamea/population/population.py:376 | every combination has `n_parent - 1` elements taken from the co-parent list; the combinations are exactly the subsequences of that length, and there are `|others|` choose `n_parent - 1` of them |
| ParentPairing.CombinationsExact | llamea/population/population.py:376 | a sequence is a combination exactly when it has `n_parent - 1` elements and is a subsequence of the co-parent list |
| ParentPairing.CombinationsCount | llamea/population/population.py:376 | `itertools.combinations` yields `len(others)` choose `n_parent - 1` combinations |
| ParentPairing.GroupOf | llamea/population/population.py:378-380 | a group holds its seed and all chosen co-parents |
| ParentPairing.FirstNew | llamea/population/population.py:377-384 | the group found is new and is the group of the first combination whose group is not yet used (every earlier combination's group is used); none is found only when every combination's group is already used |
| ParentPairing.Seeds | llamea/population/population.py:369 | exactly min(`n_offspring`, number of individuals) seeds, all distinct valid indices |
| ParentPairing.SeedsSpec | llamea/population/population.py:369 | exactly min(`n_offspring`, number of individuals) seeds, in ascending mean similarity, and every non-seed is at least as similar as every seed |
| ParentPairing.LowestPrefix | llamea/population/population.py:369 | a prefix of the ascending argsort holds values no larger than any index left out of it |
| ParentPairing.GroupsSpec | llamea/population/population.py:370-383 | at most one group per seed; the groups are pairwise different as sets; each holds its seed, which is one of the seeds; each has at most `n_parent` members, all valid indices |
| ParentPairing.FoundGroup | llamea/population/population.py:376-383 | the group found among a seed's `k`-combinations is not yet used, holds the seed and at most `k` others, all valid indices |
| ParentPairing.NextGroup | llamea/population/population.py:373-383 | the group a seed adds is new, holds the seed and at most `n_parent` members, all valid indices; no group is added only when every combination's group is already used |
| ParentPairing.AddFirstNew | llamea/population/population.py:377-383 | the inner loop adds the first new group among the combinations and stops, or adds nothing |
| ParentPairing.Others | llamea/population/population.py:373-375 | for a non-empty row, all indices but one, each once, in ascending similarity to the seed; the one left out is at least as similar as every kept one; an empty row gives none |
| ParentPairing.GroupSize | llamea/population/population.py:378-380 | a group has at most one more member than the combination |
| ParentPairing.IndexListSpec | llamea/population/population.py:388-389 | a group's indices are listed once each, ascending |
| ParentPairing.MembersSpec | llamea/population/population.py:388-389 | a query's parents are the individuals at the group's indices, in ascending index order |
| ParentPairing.ParentsOf | llamea/population/population.py:389 | the parents of a group are the individuals at its indices, as `Members` lists them |
| ParentPairing.QueryFor | llamea/population/population.py:388-394 | each query has qid 0, a fresh offspring and the group's individuals as parents |
| ParentPairing.MaxDiverseGetParents | llamea/population/population.py:365-404 | one query item per group, so at most `n_offspring` items, each built from its group as `QueryFor` states |
| ParentPairing.CollectGroups | llamea/population/population.py:370-383 | the loop over the seeds leaves `parent_set` equal to the groups `Groups` adds, in order |
| ParentPairing.BuildItems | llamea/population/population.py:386-394 | one query item per group, in order, holding the group's individuals and a fresh offspring with qid 0 |
| IndividualLog.SuccessfulFailedPartition | llamea/utils.py:128-148 | over eligible records, successful plus failed is every eligible individual exactly once |
| IndividualLog.FilterMembers | llamea/utils.py:128-148 | successful individuals have no error, failed ones have one, and none is deprecated |
| IndividualLog.SelectHolds | llamea/utils.py:128-148 | whatever the filter condition guarantees holds for each selected individual |
| IndividualLog.SelectMonotone | llamea/utils.py:146-147 | a stronger filter selects a sub-multiset |
| IndividualLog.FailedWithoutType | llamea/utils.py:138-148 | without an error type, `get_failed_individuals` returns all failed individuals |
| IndividualLog.FailedWithTypeSpec | llamea/utils.py:138-148 | with an error type, the call raises KeyError exactly when some failed individual lacks "error_type"; otherwise it returns the failed individuals of that type |
| IndividualLog.FailedOfTypeIncluded | llamea/utils.py:146-147 | the typed failures are a sub-multiset of all failures |
| IndividualLog.NoneStaysNone | llamea/utils.py:146-147 | once the KeyError is raised on a prefix, it is raised for the whole map |
| IndividualLog.RekeySpec | llamea/utils.py:246-250 | with distinct keys, the old key's value moves to the new key, the old key is gone and every other entry stays; metadata without the old key is untouched |
| IndividualLog.RekeySameKeyDeletes | llamea/utils.py:246-250 | renaming a key to itself deletes it |
| IndividualLog.AppendNew | llamea/utils.py:238 | `dict.update` adds to the key order exactly the other map's new keys |
| IndividualLog.AppendNewDistinct | llamea/utils.py:238 | the key order stays free of duplicates |
| IndividualLog.MergedKeys | llamea/utils.py:237-240 | the merged map's keys are the union of all logs' keys |
| IndividualLog.MergedLastWins | llamea/utils.py:237-240 | a key maps to its entry in the last log that has it |
| IndividualLog.MergedOrderSpec | llamea/utils.py:237-240 | the merged key order lists each merged key exactly once |
| IndividualLog.IndividualLogger.constructor | llamea/utils.py:76-80 | a new logger is empty, with file name "individual_set" and directory "logs" |
| IndividualLog.IndividualLogger.SetFileName | llamea/utils.py:86-93 | None stays None; otherwise spaces are removed and ':' and '/' become '_' |
| IndividualLog.IndividualLogger.LogIndividual | llamea/utils.py:95-96 | stores the individual under its id, appending the id to the key order only when new; afterwards `get_individual` returns it |
| IndividualLog.IndividualLogger.GetIndividual | llamea/utils.py:98-99 | the stored entry, and None exactly for an unknown id |
| IndividualLog.IndividualLogger.LogExperiment | llamea/utils.py:101-108 | records the experiment under its id, and `get_experiment` returns it |
| IndividualLog.IndividualLogger.GetExperiment | llamea/utils.py:110-111 | the stored experiment, and None exactly for an unknown id |
| IndividualLog.IndividualLogger.GetSuccessfulIndividuals | llamea/utils.py:128-136 | the loop returns exactly the non-legacy, non-deprecated individuals without error, in map order |
| IndividualLog.IndividualLogger.GetFailedIndividuals | llamea/utils.py:138-148 | the loop returns the filter specified by `FailedWithType`, KeyError included |
| IndividualLog.IndividualLogger.ReplaceMetadataKey | llamea/utils.py:246-250 | every individual's metadata is renamed as `Rekey` states, in place; the key set and key order are kept |
| IndividualLog.IndividualLogger.MergeLogs | llamea/utils.py:237-240 | updating an empty logger with each log in turn gives the merged maps and key order |
| DynamicAccess.GetAttr | llamea/utils.py:486 | a present attribute is returned, and None exactly when the value is not an object holding that attribute |
| DynamicAccess.DynamicalAccess | llamea/utils.py:482-489 | the loop returns the value of following the path, leaving early on None |
| DynamicAccess.FollowFromNone | llamea/utils.py:486-488 | following any path from None gives None |
| DynamicAccess.FollowConcat | llamea/utils.py:485-489 | following `a` then `b` is following `a + b` |
| DynamicAccess.FollowPresent | llamea/utils.py:485-489 | the result is present exactly when every step finds its attribute |
| DynamicAccess.SplitConcat | llamea/utils.py:483 | splitting `a.b` splits `a` and `b` separately |
| DynamicAccess.AccessConcat | Experiments/plot_algo_res.py:28-35 | accessing `p.q` is accessing `q` on the result of accessing `p` |
| DynamicAccess.AccessSingle | Experiments/plot_algo_res.py:28-35 | a one-component path is a single `getattr` |
| PlotHelpers.LastPresent | Experiments/plot_algo_res.py:56-63 | the backward scan finds the last non-NaN index, or 0 when all are NaN |
| PlotHelpers.NearestLeft | Experiments/plot_algo_res.py:65-73 | the nearest non-NaN value left of a position, and None exactly when there is none |
| PlotHelpers.ScanLastValid | Experiments/plot_algo_res.py:56-63 | the backward scan returns the last non-NaN index, 0 when all are NaN |
| PlotHelpers.FillForward | Experiments/plot_algo_res.py:65-74 | the forward pass turns the copy into `FilledLeft` of its old contents |
| PlotHelpers.FillNanWithLeft | Experiments/plot_algo_res.py:54-75 | returns a new array of the same length, given by `FilledLeft`; the input is not modified |
| PlotHelpers.FilledLeftSpec | Experiments/plot_algo_res.py:54-75 | non-NaN entries are kept; NaNs from the last non-NaN entry on stay NaN, as do those before the first; every other NaN takes the nearest non-NaN value to its left; all-NaN input stays all NaN |
| PlotHelpers.FilledLeftIdempotent | Experiments/plot_algo_res.py:54-75 | filling twice is filling once |
| PlotHelpers.ShorthandAlgoName | Experiments/plot_algo_res.py:141-151 | the five keywords are checked in fixed priority order: EvolutionaryBO gives TREvol, then Optimistic gives TROptimistic, then Pareto gives TRPareto, then ARM gives ARM, then MaternVanilla gives VanillaBO; each applies only when no earlier keyword occurs |
| PlotHelpers.ShorthandRules | Experiments/plot_algo_res.py:141-159 | a name with no keyword, "BL" or "A_" is unchanged; the "BL" rule applies before the "A_" rule; each removal makes the name strictly shorter |
| PlotHelpers.DeleteShortens | Experiments/plot_algo_res.py:153-157 | removing a pattern never lengthens a string, and shortens it when the pattern occurs |
| PlotHelpers.ShorthandOnePass | Experiments/plot_algo_res.py:153-154 | removal is one left-to-right `replace` pass, so "BBLL" becomes "BL" |
| PlotHelpers.AlgoToName | Experiments/plot_algo_res.py:223-227 | returns (a, a) when "BL" is in a, else ("A_" + a, a) |
| PlotHelpers.ContainsAfterPrefix | Experiments/plot_algo_res.py:223-227 | the "A_" prefix neither creates nor hides a keyword or "BL" |
| PlotHelpers.LabelRoundTrip | Experiments/plot_algo_res.py:141-159 | shortening the label `_algo_to_name` gives a plain name returns that name |
| InjectedCritic.Average | llamea/evaluator/injected_critic.py:49-51 | the report average times the call count is the total, and it is 0 when there are no calls |
| InjectedCritic.AverageBounds | llamea/evaluator/injected_critic.py:49-51 | the average of non-negative durations lies between 0 and the largest duration |
| InjectedCritic.FunctionProfiler.constructor | llamea/evaluator/injected_critic.py:17-20 | a new profiler has no name and empty dictionaries |
| InjectedCritic.FunctionProfiler.Profile | llamea/evaluator/injected_critic.py:22-38 | hands back the wrapped call's outcome unchanged; when the call returns, appends exactly one duration (end minus start, never negative because the clock is monotonic) and increments the count by one; when the call raises, the exception propagates and the durations, counts and names are unchanged; keeps every count equal to its number of durations |
| InjectedCritic.FunctionProfiler.Record | llamea/evaluator/injected_critic.py:30-36 | registers a function on its first call, then records one non-negative duration and one call |
| InjectedCritic.RecordConsistent | llamea/evaluator/injected_critic.py:30-36 | recording one non-negative duration keeps the two dictionaries on the same keys, each count equal to the number of durations, and every duration non-negative |
| InjectedCritic.ConsistentNames | llamea/evaluator/injected_critic.py:46-51 | every function the report walks has a duration list and a count, and the count is the list's length |
| InjectedCritic.FunctionProfiler.Report | llamea/evaluator/injected_critic.py:46-57 | one line per function in insertion order, with call count, total time, and an average that is total/count, or 0 with no calls |
| InjectedCritic.ReportAverageBounds | llamea/evaluator/injected_critic.py:46-57 | every average the report prints is at least 0 and, for a function called at least once, at most its slowest recorded call |
| InjectedCritic.Nans | llamea/evaluator/injected_critic.py:273 | `[nan] * n` has max(n, 0) NaN entries |
| InjectedCritic.PaddedSpec | llamea/evaluator/injected_critic.py:267-275 | the old list stays a prefix and the value becomes the last entry; the length becomes max(n_evals, old length + 1); the entries in between are NaN |
| InjectedCritic.MeanOf | llamea/evaluator/injected_critic.py:202 | `np.mean` gives a number exactly when the list is non-empty and holds no NaN, and that number times the length is the sum |
| InjectedCritic.MeanOfConstant | llamea/evaluator/injected_critic.py:202 | the mean of equal values is that value |
| InjectedCritic.AlgorithmCritic.constructor | llamea/evaluator/injected_critic.py:132-154 | a new critic has four empty metric lists and four empty staging lists, with metrics not ignored |
| InjectedCritic.AlgorithmCritic.UpdateR2 | llamea/evaluator/injected_critic.py:267-275 | extends the target list in place by the padding rule |
| InjectedCritic.AlgorithmCritic.UpdateUncertainty | llamea/evaluator/injected_critic.py:310-317 | extends the target list in place by the same padding rule |
| InjectedCritic.AlgorithmCritic.UpdateAfterModelFitTemp | llamea/evaluator/injected_critic.py:186-197 | appends one value to each staging list, and changes nothing when metrics are ignored |
| InjectedCritic.AlgorithmCritic.UpdateAfterModelFitWithTemp | llamea/evaluator/injected_critic.py:199-216 | each metric list receives its staging list's mean by the padding rule and every staging list is emptied; nothing changes when metrics are ignored |
| InjectedCritic.AlgorithmCritic.UpdateAfterModelFit | llamea/evaluator/injected_critic.py:218-230 | each metric list receives its value by the padding rule, and nothing changes when metrics are ignored |
| InjectedCritic.GetInjectMaximize | llamea/evaluator/injected_critic.py:120-127 | False for no instance; otherwise the instance's own `_is_maximization()`, else `_inject_maximize`, else False |
| InjectedCritic.SetInjectMaximize | llamea/evaluator/injected_critic.py:112-118 | sets `_inject_maximize`, which the getter then returns unless the instance answers `_is_maximization()` itself; no instance means no change |
| Turbo.FailureTolerance | Experiments/test_cands/TuRBO.py:40-43 | `ceil(max(4/batch_size, dim/batch_size))`, which is at least 1 for a positive batch size |
| Turbo.Next | Experiments/test_cands/TuRBO.py:46-64 | after an update at most one counter is non-zero; the best value becomes max(old best, batch maximum), so it never decreases; the restart flag is set below the minimum length and never cleared |
| Turbo.NextSpec | Experiments/test_cands/TuRBO.py:47-59 | a success counts up and clears the failures, a failure the reverse; reaching the success tolerance doubles the length up to the maximum; otherwise reaching the failure tolerance halves it; never both in one update |
| Turbo.NextBounded | Experiments/test_cands/TuRBO.py:47-59 | counters below their tolerances stay below them, and a length in (0, max] stays there |
| Turbo.RunInvariant | Experiments/test_cands/TuRBO.py:46-64 | over any series of batches the counters and length stay bounded; the best value is at least the starting best and every batch maximum; a triggered restart stays triggered |
| Turbo.TurboState.constructor | Experiments/test_cands/TuRBO.py:26-43 | the dataclass defaults, with the failure tolerance from `__post_init__`; the new state is within bounds |
| Turbo.TurboState.UpdateState | Experiments/test_cands/TuRBO.py:46-64 | the fields change as `Next` states for the batch's maximum, and the limits stay |

## Left out

- **Sentence embeddings.** The description similarity (`_desc_similarity`,
  `SentenceTransformer`, cosine similarity) is a foreign model. Its matrix and
  mean vector are inputs of the pairing and diversity models.
- **The line diff.** `difflib.ndiff` is a library algorithm. Its count of
  changed lines is a parameter. The model assumes only that a body differs
  from itself in no line and that the count is at most the sum of the two
  lengths.
- **Clocks, randomness and I/O.** The following are parameters or are left
  out:
  - `time.time()`, `datetime` timestamps, `uuid4` and `perf_counter`
    readings;
  - every file, pickle and JSON operation: `save`, `load`, `merge_logs`'
    directory scan, `save_on_the_fly`;
  - plotting and logging.
- **Individual.** `Individual` is a value here, so aliasing is not modelled.
  In the source, `replace_metadata_key` mutates metadata dictionaries that
  other references may share.
- **Set iteration order.** The order in which a Python set iterates is not
  modelled:
  - `Enumerate` lists members in an unspecified order;
  - the pairing lists groups in insertion order and a group's indices in
    ascending order.
- **Argsort.** `numpy.argsort` is modelled as a stable ascending sort. Numpy's
  default sort is not stable, so the order of ties may differ.
- **Comparator sort.** `sorted` with `cmp_to_key` is modelled as a stable
  insertion sort. For a non-transitive comparator, CPython's TimSort may order
  differently. The model proves only what holds for any such sort: a
  permutation, and each element at least as high as the next.
- **Floating point.** Reals are exact. NaN appears only as a missing value
  (`None`); infinities, rounding and NaN comparisons are not modelled.
- CodeSimilarity.CodeDiffSimilarity: a single code gives a NaN mean (an
  `np.mean` of an empty slice), shown as None. Nothing else of that case is
  modelled.
- Turbo.TurboState.UpdateState: requires a non-empty batch. On an empty
  batch, `max(Y_next)` raises ValueError (`Experiments/test_cands/TuRBO.py:47`);
  that error path is not modelled.
- ParentPairing.MaxDiverseGetParents: requires `n_parent >= 1`. With
  `n_parent = 0`, `itertools.combinations(others, -1)` raises ValueError
  (`llamea/population/population.py:376`); that error path is not modelled.
- FamilyCompetition.FamilyCompetitionSelection: requires every individual of
  the generation and the population to have a fitness. The source fails only
  when `sorted` compares a None fitness with another value (TypeError); a pool
  where no such comparison happens would not fail there. That case is not
  modelled.
- DiversitySelection.DiversitySelection: requires every candidate to have a
  handler with a score whenever the candidates must be trimmed. Otherwise
  `get_score` raises (`llamea/population/population.py:332-333`); that error
  path is not modelled.
- DiversitySelection.DiversityAwarenessSelection: the same requirement and
  the same unmodelled error path as `DiversitySelection`.
- Turbo.TurboState.constructor: the default best value of minus infinity is
  not modelled, because reals have no infinity. The caller supplies a finite
  best. The constructor also requires a positive batch size, since the source
  divides by it.
- InjectedCritic.AlgorithmCritic.UpdateAfterModelFitTemp: the r² and
  uncertainty numbers come from sklearn/gpytorch models. They are parameters,
  and `_get_model_r2` and `_get_model_uncertainty` are not modelled.
- **`update_after_eval`.** It only feeds the search-result object
  (`EvaluatorSearchResult`), which is not part of this model.
- **`critic_wrapper` and `FunctionProfiler.wrap_class`.** These are reflection
  and monkey-patching. `Profile` models one call through the wrapper.
- InjectedCritic.FunctionProfiler.Profile: the two `perf_counter` readings
  are parameters; since that clock is monotonic, the start is required to be
  no later than the end. A raised exception is carried as `Raised` with a
  message; its Python type (for example `BOOverBudgetException`) is not
  modelled.
- **`print_report`.** The printing is left out; `Report` gives the figures it
  prints.
- DynamicAccess.GetAttr: real `getattr` semantics (methods, properties,
  inherited attributes) are not modelled. An object is a map from attribute
  names to values.
- Population.SaveDirSuffix: the population name is a string. `Population.name`
  starts as None, and `_safe_file_name` then raises on it
  (`llamea/population/population.py:108`); that error path is not modelled.
- Population.SaveFilePath: the same; with no file name and a None population
  name, `_safe_file_name` raises (`llamea/population/population.py:159`).
- Population.NewQueryItem: the parent list is a list. `PopulationQueryItem`
  also accepts `parent=None`, which is not modelled.
- IndividualLog.IndividualLogger.ReplaceMetadataKey: requires every stored
  entry to be a current-format individual. A legacy dictionary entry has no
  `metadata` attribute, and the source would raise on it.
- **Experiment drivers.** The drivers in `Experiments/` (`ea_bo_exp.py`,
  `bo_exp.py`) and the abstract evaluator interface are not part of this model.
- **Other numerics.** The smoothing filters, `mean_std_agg` and the score-to-
  probability curves are floating-point numerics, and are not part of this
  model.
- **TuRBO's optimiser.** `generate_batch` and the TuRBO optimiser loop
  (GP fitting with torch/botorch) are not part of this model.
