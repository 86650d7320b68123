# Reasoning and planning agents: verified model of the text, similarity and plan-mutation utilities

This project models in Dafny the text, similarity and plan-mutation utilities in the
studied parts of projects 01, 02, 04 and 05 of the Reasoning-Planning-Agents repository,
and proves what they guarantee:

- **Failure-aware planner** (project 05). `classify_failure` maps an action name to one of
  four failure causes by keyword, and the first match wins. `generate_plan` returns the
  fixed four-step base plan. `mutate_plan` replaces every action the failure memory reports
  as failed by `review_<action>` and appends `avoid:<action>` to a copy of the constraints.
  The planner is a class that holds its failure memory. `MutatePlan` is a method with a
  `for` loop, like the source.
- **Step normalisation** (projects 01, 02 and 04). Each copy strips, lower-cases and
  collapses whitespace runs with `" ".join(s.split())`. The Python built-ins are modelled
  over ASCII text in module `Text`.
- **Jaccard similarity** (projects 01, 02 and 04). The result is modelled as the exact
  rational `|A ∩ B| / |A ∪ B|` over the element sets. Project 01 returns 1.0 for two empty
  lists. Projects 02 and 04 return 0.0 when either list is empty.
- **`stable_hash`** (project 04). The identifier is the first 16 characters of a SHA-256
  hex digest. The digest is an input.

Modules: `Text` (text.dfy), `Similarity` (similarity.dfy), `MemoryPlanner` (project 01),
`ReasoningLoop` (project 02), `StrategySelection` (project 04),
`FailureAwarePlanning` (project 05) and `CrossProject`. `CrossProject` holds the lemmas that
relate the copies to each other.

Whitespace is Python's `str.isspace()` restricted to ASCII. That is characters 9 to 13
(tab, line feed, vertical tab, form feed, carriage return), 28 to 31 (the information
separators) and 32 (space). Lower-casing maps `A`–`Z` to `a`–`z` and leaves every other
character alone.

## Model

| member | source | states |
|---|---|---|
| FailureAwarePlanning.ClassifyFailure | project_05_failure_aware_planner/project_05_failure_aware_planner.py:35-42 | the cause is one of the four labels, and the first keyword that matches decides it: `missing_credentials` exactly when the action contains `auth`; `environment_mismatch` exactly when it contains `deploy` but not `auth`; `incomplete_coverage` exactly when it contains `test` but neither `auth` nor `deploy`; `unknown_failure` exactly when it contains none of the three |
| FailureAwarePlanning.FailureAwarePlanner.constructor | project_05_failure_aware_planner/project_05_failure_aware_planner.py:50-51 | the planner keeps the failure memory it is given |
| FailureAwarePlanning.FailureAwarePlanner.GeneratePlan | project_05_failure_aware_planner/project_05_failure_aware_planner.py:53-61 | the plan echoes the goal, has the actions `check_logs`, `fix_auth_issue`, `deploy_fix`, `run_tests` in that order, and has no constraints (the dataclass default) |
| FailureAwarePlanning.FailureAwarePlanner.MutatePlan | project_05_failure_aware_planner/project_05_failure_aware_planner.py:63-79 | goal and action count are kept; action i becomes `review_` + action i when the memory reports it failed, and is kept otherwise; the memory is asked about each action (`has_failed`, line 68); the new actions are `Replacements` of the old ones; the new constraints are the old ones followed by `avoid:` + a for each failed action in action order, so exactly one per failed action is appended; with no failed action the plan is returned unchanged |
| FailureAwarePlanning.Replacements | project_05_failure_aware_planner/project_05_failure_aware_planner.py:67-73 | the mutated action list has one entry per action: `review_` + the action when the memory reports it failed, the action itself otherwise |
| FailureAwarePlanning.ReplacementsStep | project_05_failure_aware_planner/project_05_failure_aware_planner.py:67-73 | one loop iteration appends the replacement of the current action |
| FailureAwarePlanning.ReplacementsOfNoFailure | project_05_failure_aware_planner/project_05_failure_aware_planner.py:67-73 | when no action has failed, the mutated action list is the original one |
| FailureAwarePlanning.FailedActions | project_05_failure_aware_planner/project_05_failure_aware_planner.py:66-69 | the failed actions of a list, in order, are never more than the list |
| FailureAwarePlanning.FailedActionsMembers | project_05_failure_aware_planner/project_05_failure_aware_planner.py:67-69 | an action gets an `avoid:` entry exactly when it is in the plan and the memory reports it failed |
| FailureAwarePlanning.FailedActionsCount | project_05_failure_aware_planner/project_05_failure_aware_planner.py:66-69 | a failed action gets one `avoid:` entry per occurrence in the plan, and an action that has not failed gets none |
| FailureAwarePlanning.FailedActionsNone | project_05_failure_aware_planner/project_05_failure_aware_planner.py:65-69 | when no action has failed, no constraint is added |
| FailureAwarePlanning.FailedActionsStep | project_05_failure_aware_planner/project_05_failure_aware_planner.py:66-69 | one loop iteration appends the current action to the failed ones exactly when it has failed |
| FailureAwarePlanning.BasePlanCauses | project_05_failure_aware_planner/project_05_failure_aware_planner.py:35-61 | the four steps of the base plan classify, in order, as `unknown_failure`, `missing_credentials`, `environment_mismatch` and `incomplete_coverage`, so each cause occurs once |
| Text.Contains | project_05_failure_aware_planner/project_05_failure_aware_planner.py:36-41 | `sub in s`: the empty string occurs in every text, and a substring is never longer than the text |
| Text.ContainsIffOccurs | project_05_failure_aware_planner/project_05_failure_aware_planner.py:36 | the substring test `sub in s` holds exactly when `sub` is a prefix of some suffix of `s` |
| Text.MissesAbsentFirstChar | project_05_failure_aware_planner/project_05_failure_aware_planner.py:36 | a non-empty `sub` whose first character does not occur in `s` is not a substring of `s` |
| Text.IsSpaceCharacters | project_01_memory_planner/memory_conditioned_planner.py:44-46 | the characters `strip()` and `split()` treat as whitespace are exactly tab, line feed, vertical tab, form feed, carriage return, the four information separators and space |
| Text.LowerChar | project_01_memory_planner/memory_conditioned_planner.py:44 | `lower()` on one character maps `A`–`Z` to `a`–`z` (code + 32), leaves every other character alone, never gives an upper-case letter and keeps whitespace whitespace |
| Text.Lower | project_01_memory_planner/memory_conditioned_planner.py:44 | `lower()` keeps the length, lower-cases each character and leaves no upper-case letter |
| Text.TrimStart | project_01_memory_planner/memory_conditioned_planner.py:44 | the result is the suffix left after removing the whole leading whitespace run, and it does not start with whitespace |
| Text.TrimEnd | project_01_memory_planner/memory_conditioned_planner.py:44 | the result is the prefix left after removing the whole trailing whitespace run, and it does not end with whitespace |
| Text.Strip | project_01_memory_planner/memory_conditioned_planner.py:44 | `strip()` gives a contiguous middle part of the text with only whitespace cut off before and after it, leaves no whitespace at either end, and gives `""` exactly when the text is all whitespace |
| Text.Split | project_01_memory_planner/memory_conditioned_planner.py:46 | every element of `split()` is a non-empty run without whitespace |
| Text.Join | project_01_memory_planner/memory_conditioned_planner.py:46 | `" ".join(ws)` starts with the first word |
| Text.JoinLength | project_01_memory_planner/memory_conditioned_planner.py:46 | `" ".join(ws)` is as long as the words together plus one space between each pair of neighbours |
| Text.JoinCons | project_01_memory_planner/memory_conditioned_planner.py:46 | joining a word in front of other words puts exactly one space after it |
| Text.SplitWordSpace | project_01_memory_planner/memory_conditioned_planner.py:46 | a word followed by any whitespace character (not only a plain space) splits into that word and the words of the rest, so `split()` cuts at every whitespace run |
| Text.SplitEmptyIffAllSpace | project_01_memory_planner/memory_conditioned_planner.py:46 | `split()` is empty exactly when the text is all whitespace |
| Text.SplitJoin | project_01_memory_planner/memory_conditioned_planner.py:46 | splitting undoes joining words with single spaces |
| Text.JoinSplit | project_01_memory_planner/memory_conditioned_planner.py:46 | joining undoes splitting on a collapsed text |
| Text.JoinCollapsed | project_01_memory_planner/memory_conditioned_planner.py:46 | `" ".join` of words is collapsed, and is empty exactly when there are no words |
| Text.SplitStrip | project_01_memory_planner/memory_conditioned_planner.py:44-46 | stripping before splitting does not change the words |
| Text.StripLower | project_02_reasoning_loop/reasoning_loop_agent.py:26 | lower-casing and stripping commute |
| Text.AllSpaceLower | project_02_reasoning_loop/reasoning_loop_agent.py:26 | lower-casing neither creates nor removes whitespace |
| Text.LowerOfNoUpper | project_02_reasoning_loop/reasoning_loop_agent.py:26 | lower-casing text without upper-case letters changes nothing |
| Text.SplitNoUpper | project_01_memory_planner/memory_conditioned_planner.py:46 | words of a text without upper-case letters have none |
| Text.JoinNoUpper | project_01_memory_planner/memory_conditioned_planner.py:46 | joining words without upper-case letters gives a text without them |
| Text.CollapseWhitespace | project_01_memory_planner/memory_conditioned_planner.py:46 | `" ".join(s.split())` is collapsed, has the same words as `s`, is empty exactly when `s` is all whitespace, and keeps `s` free of upper-case letters |
| Text.StripAllSpace | project_01_memory_planner/memory_conditioned_planner.py:44 | a text is all whitespace exactly when its stripped form is |
| Text.NoUpperStrip | project_01_memory_planner/memory_conditioned_planner.py:44 | stripping keeps a text free of upper-case letters |
| Text.StripCollapse | project_02_reasoning_loop/reasoning_loop_agent.py:26 | `" ".join(s.strip().split())` has no leading, trailing or doubled whitespace, has the words of `s`, is empty exactly when `s` is all whitespace, and has no upper-case letter when `s` has none |
| MemoryPlanner.NormalizeStep | project_01_memory_planner/memory_conditioned_planner.py:42-47 | the result has no leading, trailing or doubled whitespace, every whitespace character in it is a plain space, it has no upper-case letter, its words are those of the lower-cased step in order, and it is `""` exactly when the step is all whitespace |
| MemoryPlanner.NormalizeStepIdempotent | project_01_memory_planner/memory_conditioned_planner.py:42-47 | normalising twice equals normalising once |
| MemoryPlanner.JaccardSimilarity | project_01_memory_planner/memory_conditioned_planner.py:49-55 | the value is in [0, 1]; 1.0 for two empty lists and 0.0 when exactly one is empty; 1 exactly when both lists have the same elements; 0 exactly when they share none and are not both empty |
| MemoryPlanner.JaccardSimilaritySymmetric | project_01_memory_planner/memory_conditioned_planner.py:49-55 | swapping the arguments does not change the value |
| MemoryPlanner.JaccardSimilarityOfSameMembers | project_01_memory_planner/memory_conditioned_planner.py:50 | order and duplicates do not matter, only the element sets |
| Similarity.Elements | project_01_memory_planner/memory_conditioned_planner.py:50 | `set(a)` holds exactly the members of `a`, and is empty exactly when `a` is |
| Similarity.IntersectionUnionCard | project_01_memory_planner/memory_conditioned_planner.py:55 | the intersection is never larger than the union, and is as large exactly when the sets are equal |
| Similarity.QuotientBounds | project_01_memory_planner/memory_conditioned_planner.py:55 | the quotient of a count by a larger positive count is in [0, 1], 1 only for equal counts and 0 only for a zero numerator |
| Similarity.Ratio | project_01_memory_planner/memory_conditioned_planner.py:55 | the intersection size over the union size is in [0, 1], is 1 exactly when the sets are equal and 0 exactly when they are disjoint |
| Similarity.RatioSymmetric | project_02_reasoning_loop/reasoning_loop_agent.py:32 | the ratio is symmetric |
| ReasoningLoop.Normalize | project_02_reasoning_loop/reasoning_loop_agent.py:25-26 | the result has no leading, trailing or doubled whitespace, every whitespace character in it is a plain space, it has no upper-case letter, its words are those of the lower-cased text in order, and it is `""` exactly when the text is all whitespace |
| ReasoningLoop.NormalizeIdempotent | project_02_reasoning_loop/reasoning_loop_agent.py:25-26 | normalising twice equals normalising once |
| ReasoningLoop.Jaccard | project_02_reasoning_loop/reasoning_loop_agent.py:28-32 | the value is in [0, 1]; 0.0 when either list is empty, both empty included; 1 exactly when the lists are non-empty with the same elements; 0 exactly when one is empty or they are disjoint |
| ReasoningLoop.JaccardSymmetric | project_02_reasoning_loop/reasoning_loop_agent.py:28-32 | swapping the arguments does not change the value |
| ReasoningLoop.JaccardOfSameMembers | project_02_reasoning_loop/reasoning_loop_agent.py:29 | order and duplicates do not matter, only the element sets |
| StrategySelection.StableHash | project_04_strategy_selection/project_04_strategy_selection.py:21-22 | the identifier is a prefix of the digest, 16 characters long when the digest has at least 16, and made of lower-case hex digits when the digest is |
| StrategySelection.StableHashAgreement | project_04_strategy_selection/project_04_strategy_selection.py:21-22 | two 64-character digests give the same identifier exactly when their first 16 characters agree |
| StrategySelection.Normalize | project_04_strategy_selection/project_04_strategy_selection.py:24-25 | trims, lower-cases and collapses whitespace: the same guarantees as `ReasoningLoop.Normalize` |
| StrategySelection.NormalizeIdempotent | project_04_strategy_selection/project_04_strategy_selection.py:24-25 | normalising twice equals normalising once |
| StrategySelection.Jaccard | project_04_strategy_selection/project_04_strategy_selection.py:27-31 | the value is in [0, 1]; 0.0 when either list is empty; 1 exactly when the lists are non-empty with the same elements; 0 exactly when one is empty or they are disjoint |
| StrategySelection.JaccardSymmetric | project_04_strategy_selection/project_04_strategy_selection.py:27-31 | swapping the arguments does not change the value |
| StrategySelection.JaccardOfSameMembers | project_04_strategy_selection/project_04_strategy_selection.py:28 | order and duplicates do not matter, only the element sets |
| CrossProject.NormalizersAgree | project_01_memory_planner/memory_conditioned_planner.py:44-46 | project 01's strip-then-lower normalisation equals project 02's lower-then-strip one, and project 04's equals project 02's, on every input |
| CrossProject.JaccardPolicies | project_02_reasoning_loop/reasoning_loop_agent.py:30-31 | the copies differ only on two empty lists, where project 01 gives 1.0 and project 02 gives 0.0; projects 02 and 04 always agree |

## Left out

- SHA-256: `hashlib.sha256(...).hexdigest()` is a library call. `StrategySelection.StableHash` takes the hex digest as its argument and models only the `[:16]` slice.
- The `stable_hash` copies in project 01 (memory_conditioned_planner.py:39-40) and project 02 (reasoning_loop_agent.py:22-23) are the same slice of the same digest. `StrategySelection.StableHash` stands for all three.
- `now_ts` and `ensure_dir` (project 01 and 02) and `now_ts` (project 04) read the clock or create directories. They are not modelled. The same goes for the JSONL files named in the project 01 docstring.
- Floating point: the Jaccard functions return exact reals. Rounding of the Python float division is not modelled.
- Unicode: only ASCII whitespace and ASCII case are modelled. Python's `lower()` and `split()` also act on non-ASCII letters and spaces.
- `FailureMemory` is referenced by the planner but defined in no source file. It is modelled as the set of actions it reports as failed, and `has_failed` as membership in that set.
- The records with no behaviour are left out: the project 02 dataclasses, the project 06 dataclasses and `FailureRecord` (project_05 file, lines 17-21), which nothing in the modelled code reads or writes. `Plan` appears as a plain datatype.
- Aliasing: `mutate_plan` copies the constraint list before appending to it. In the model, plans are values, so the input plan cannot change.
- The project 01 docstring (memory_conditioned_planner.py:5-11) describes candidate plan generation, scoring against episodic memory, epsilon-greedy selection, simulated execution, trace logging and memory updates. The code for these is not part of this model; only the helpers at lines 33-55 are. Likewise the sections that follow the modelled code in project 02 ("Evidence Store", reasoning_loop_agent.py:62), project 04 ("Data Models", lines 34-36) and project 05 ("Execution Simulator", lines 82-84) are not part of this model.
- The unused `random` imports.
