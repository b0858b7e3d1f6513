# Student-to-project allocator, modelled in Dafny

The repository allocates the students of a course to final-project groups
from a preference survey. Each student ranks five projects. Three scripts
do the allocation:

- `allocator.py` runs one plain greedy pass. Groups hold raw emails and
  admit while they have at most 20 members.
- `allocator1.py` and `allocator2.py` are quant-aware. Each survey answer
  to "Would you be willing to do a quant project?" is classified as STRICT,
  CAN_DO or NEVER. A STRICT-only pre-pass fills the two quant projects.
  A greedy fill follows; it never puts a NEVER student into a quant
  project. Groups hold display names from the roster. Every project seats
  10 in `allocator1.py`. In `allocator2.py` the quant projects seat 14 and
  the rest seat 10.
- Both quant-aware scripts export one padded, sorted column per canonical
  project. A student placed in a project outside the eight canonical ones
  stays in the group map but is not written to the sheet. `allocator1.py` reaches its export only when every quant answer
  is text (see "Left out").

The model has seven modules:

- `Lists` holds sequence helpers. `RemoveFirst` is Python's `list.remove`.
- `Strings` covers the substring test of `in`, the order `sorted` puts
  strings in, and `Sorted` on a set of names.
- `Quant` is the classifier `quant_bucket`. A survey cell is `Text` or
  `NotText`; a blank cell arrives as a float NaN.
- `Preferences` is the survey and the index `master_map`. A Python dict
  iterates in insertion order, so each rank's dict is a sequence of
  `Entry(project, people)` in first-seen order. `Schedule` is the walk
  "ranks 1..5, then projects, then people" written out as one sequence
  of `Visit`s.
- `Allocation` is the engine shared by the three scripts. A pass is a fold
  (`Run`) of `Step` over the visits. `Pass` selects the admission rule:
  `Plain`, `PrePass` or `Greedy`. The state is the group map
  (`constrained_output_map` / `output_map`) and the `unmatched` list. It
  also keeps `placed`, the project each placed student went to. The
  scripts do not keep `placed`; it lets placements be stated per student
  even when two students share a display name. Its invariant is
  `Invariant`: groups within capacity, groups holding exactly the labels of
  the placed students, every placement admissible, and `unmatched` being
  exactly the unplaced emails in row order.
- `Allocators` holds the three scripts' policies and pipelines:
  `PlainAllocate`, `AfterPrePass` and `AfterGreedy`. It also holds the
  theorems about their results.
- `Export` is the canonical-column fill, the sorting and the padding.

A few helpers carry no contract of their own. The rows of the members
that use them state their meaning:

- `Allocation.Label`, the name a pass stores, through `Invariant`'s
  accounting clause and `DisplayName`.
- `Allocation.BucketOf` through `Admissible`.
- `Preferences.Visits` through `VisitsMembers` and `VisitsInIndexOrder`.

The three scripts build `master_map` with the same loop:
`allocator.py:16-27`, `allocator1.py:27-39` and `allocator2.py:27-36`.
The two quant-aware scripts share the classifier, the passes and the export.
Each table row below cites one occurrence.

The group map is seeded only from the first-choice column (`projs`), not
from every project ranked anywhere; the model follows the code.
`ValidRows` therefore requires every ranked project to be a first choice.
Otherwise the lookup `constrained_output_map[proj]` (`output_map[proj]` in
`allocator.py`) can raise `KeyError` partway through a pass. It does so when
a still-unmatched student that the pass's rule lets through is visited for
such a project.

## Model

| member | source | states |
|---|---|---|
| Quant.QuantBucket | allocator2.py:78-86 | STRICT exactly when the cell is text containing "strictly prefer"; CAN_DO exactly when it is text containing "unavoidable" but not "strictly prefer"; NEVER exactly when it is not text or contains neither, so the classifier is total |
| Quant.StrictWinsOverlap | allocator1.py:67-75 | a text carrying both signals is STRICT: the ordered tests give "strictly prefer" precedence |
| Quant.StrictAnswerClassified | allocator2.py:79-81 | the offered answer "Yes, I would strictly prefer it" is STRICT |
| Quant.CanDoAnswerClassified | allocator2.py:82-84 | the offered answer "I can do it if unavoidable" is CAN_DO |
| Quant.NeverAnswersClassified | allocator2.py:85-86 | "Never, please.", the empty text and a non-text cell are NEVER |
| Strings.Contains | allocator2.py:80 | Python's `sub in s` on strings: true exactly when `sub` occurs at some position of `s` |
| Strings.LexLeq | allocator2.py:175 | Python's string `<=`: `a` is a prefix of `b`, or at the first position where they differ `a` has the smaller code point |
| Strings.Sorted | allocator2.py:174-177 | `sorted(list(names))`: an ascending sequence with exactly the members of the set, each once |
| Lists.RemoveFirst | allocator2.py:119 | `list.remove(x)` of a present element: one element shorter, nothing new, every other element kept, and on a duplicate-free list `x` is gone |
| Lists.RemoveFirstCons | allocator2.py:119 | `list.remove(x)` deletes the first occurrence: a list headed by `x` loses its head, any other list keeps its head and loses `x` from the rest |
| Preferences.Emails | allocator2.py:17 | the email column in row order; duplicate-free when the rows have distinct emails |
| Preferences.FirstSeen | allocator2.py:33-34 | the key order of a dict filled from a column: each value of the column once, nothing else, and of two keys the one whose value first appears earlier in the column comes first |
| Preferences.Voters | allocator2.py:33-36 | the list under a key holds exactly the emails whose row ranked that project n-th, each once when emails are distinct |
| Preferences.VotersInRowOrder | allocator1.py:29-39 | two rows that ranked a project n-th appear in its list in row order |
| Preferences.Add | allocator2.py:33-36 | one loop step: an existing key keeps its position and gains the email at the end; a new key goes at the end of the dict with a one-email list; keys stay distinct |
| Preferences.IndexRank | allocator2.py:28-36 | `master_map[n]` after all rows has no key twice |
| Preferences.IndexRankGroups | allocator2.py:27-36 | `master_map[n]` groups the rows by their rank-n project: its keys are the rank-n projects in first-seen order, and each list is exactly that project's rank-n voters in row order |
| Preferences.EachRowIndexedOnce | allocator1.py:27-39 | each row's email is in `master_map[n]` under its own rank-n project and in no other list, and no list repeats an email |
| Preferences.BuildRank | allocator.py:18-27 | the row loop for one rank computes `IndexRank` |
| Preferences.BuildMasterMap | allocator.py:16-27 | the build loop creates the keys 1..5 exactly when there is at least one row, each holding that rank's index |
| Preferences.EntryVisits | allocator2.py:111 | `for person in people` visits the entry's people in list order, one visit each, all for the entry's project |
| Preferences.VisitsMembers | allocator2.py:126-127 | one round visits exactly the (project, person) pairs listed in the rank's dict |
| Preferences.VisitsInIndexOrder | allocator2.py:126-127 | a round walks the dict's keys in insertion order and each list in list order: person `a` of entry `j` is visited before person `b` of entry `k` when `j < k`, or when `j == k` and `a < b` |
| Preferences.RoundVisitsInRowOrder | allocator2.py:28-36 | two rows that ranked the same project n-th are visited in round n in row order |
| Preferences.RoundVisitsInKeyOrder | allocator2.py:33-34 | in round n a student whose rank-n project first appears earlier in the rank-n column is visited before one whose rank-n project first appears later |
| Preferences.IndexRankSize | allocator2.py:28-36 | a round has exactly as many visits as the survey has rows |
| Preferences.RoundVisitsChoices | allocator2.py:124-127 | round n visits (p, e) exactly when the row of `e` ranked `p` n-th |
| Preferences.Schedule | allocator2.py:124-127 | the walk of rounds n..5 has one visit per row per round, so (6 - n) times as many visits as rows |
| Preferences.RoundsInRankOrder | allocator2.py:124 | every visit of round n comes before every visit of a later round |
| Preferences.ScheduleVisitsChoices | allocator2.py:106-111 | rounds n..5 visit (p, e) exactly when the row of `e` ranked `p` at one of those ranks |
| Allocation.Limit | allocator2.py:115 | `capacity_map.get(proj, DEFAULT_CAPACITY)`: the listed capacity of the project, else the default |
| Allocation.HasRoom | allocator2.py:140-141 | the capacity test (`len < limit` in the quant-aware scripts, `len <= 20` in allocator.py) admits one more exactly when that keeps the group within the size the pass allows: its capacity, or 21 for the plain pass |
| Allocation.Admissible | allocator2.py:109-114 | the pass's rule read off the survey answer: the pre-pass admits only to a quant project and only an answer that is text containing "strictly prefer"; the greedy fill admits anyone to a non-quant project, and to a quant project exactly when the answer is text containing "strictly prefer" or "unavoidable"; the plain pass admits everyone |
| Allocation.DisplayName | allocator2.py:117 | `email_map.get(person, person)`: the roster name, or the email itself when the roster lacks it |
| Allocation.Step | allocator2.py:127-144 | one visit changes at most the visited project's group, and only by adding; it removes at most the visited person from `unmatched`, and only by placing them there; a person not in `unmatched` changes nothing |
| Allocation.Run | allocator2.py:124-144 | a pass never removes a group member, never adds to `unmatched`, never moves or drops an earlier placement, and only places students that were unmatched |
| Allocation.Unplaced | allocator2.py:100 | the respondents not yet placed, in row order: exactly the emails outside the placed set |
| Allocation.RemoveUnplaced | allocator2.py:119 | removing a newly placed student from the unplaced list gives the unplaced list of the enlarged placed set |
| Allocation.StepKeepsInvariant | allocator2.py:139-144 | every single addition keeps the groups within capacity, the groups equal to the placed students' labels, every placement admissible and `unmatched` equal to the unplaced emails |
| Allocation.RunKeepsInvariant | allocator2.py:124-144 | a whole pass keeps that invariant |
| Allocation.FullGroupFrozen | allocator2.py:139-141 | a full group stays as it is for the rest of the pass |
| Allocation.FirstVisitedWins | allocator2.py:124-144 | the walk order decides contested seats: when an admissible visit leaves its student still unmatched at the end of the pass, the visited project's group is already final at that visit, so nobody visited later joins it |
| Allocation.RunLeavesNoRoom | allocator2.py:124-144 | a person still unmatched after a pass finds full every project the pass visited them for and would admit them to; a full group stays full |
| Allocators.Allocator2Policy | allocator2.py:57-68 | quant projects are "Fama French Regressions" and "PCA (ML in Finance)"; `capacity_map.get(p, DEFAULT_CAPACITY)` is 14 for them and 10 for every other project |
| Allocators.Allocator1Policy | allocator1.py:47-57 | the same quant projects; every project's capacity is 10 |
| Allocators.FirstChoices | allocator2.py:43 | `projs` contains every row's first choice |
| Allocators.FirstChoicesRanked | allocator1.py:42 | a project is in `projs` exactly when some row ranked it first |
| Allocators.Start | allocator2.py:93-100 | an empty group for every first-choice project, everyone unmatched in row order, nobody placed |
| Allocators.StartInvariant | allocator2.py:93-100 | the starting state satisfies every pass's invariant |
| Allocators.AfterPrePass | allocator2.py:106-119 | the pre-pass keeps the group map keyed by the first-choice projects |
| Allocators.AfterGreedy | allocator2.py:124-144 | the greedy fill keeps the group map keyed by the first-choice projects |
| Allocators.PlainAllocate | allocator.py:41-50 | the plain pass keeps the group map keyed by the first-choice projects |
| Allocators.PrePassInvariant | allocator2.py:106-119 | the pre-pass ends in a state satisfying its invariant |
| Allocators.GreedyInvariant | allocator2.py:124-144 | the greedy fill, started from the pre-pass result, ends in a state satisfying its invariant |
| Allocators.PrePassPlacesOnlyStrictIntoQuant | allocator2.py:106-119 | every student placed by the pre-pass is STRICT and sits in a quant project |
| Allocators.NeverStudentsStayOutOfQuant | allocator2.py:133-137 | after either phase no NEVER student is placed into a quant project |
| Allocators.GroupsWithinCapacity | allocator1.py:92-131 | after either phase every group is within `capacity_map.get(p, DEFAULT_CAP)` |
| Allocators.Allocator2GroupSizes | allocator2.py:106-144 | with allocator2's policy a quant group holds at most 14 names and any other group at most 10 |
| Allocators.Allocator1GroupSizes | allocator1.py:92-131 | with allocator1's policy every group holds at most 10 names |
| Allocators.GroupsAccountForPlacements | allocator2.py:142-144 | after the greedy fill each placed student's display name is in their project's group, each group member is the display name of a student placed there, and `unmatched` is exactly the unplaced emails |
| Allocators.UnmatchedOnlyShrinks | allocator2.py:99-144 | `unmatched` only shrinks across the two phases; a respondent is unmatched exactly when not placed; pre-pass placements survive the greedy fill |
| Allocators.PrePassIsExhaustive | allocator2.py:106-119 | after the pre-pass, every unmatched STRICT student finds each quant project they ranked full |
| Allocators.GreedyIsExhaustive | allocator2.py:124-144 | after the greedy fill, every unmatched student finds each project they ranked full, unless it is a quant project and they are NEVER |
| Allocators.PlainInvariant | allocator.py:41-50 | the plain pass ends in a state satisfying its invariant |
| Allocators.PlainGroupsAtMost21 | allocator.py:48-49 | the admission test `len <= 20` lets a group reach 21 members and no more |
| Allocators.PlainGroupsHoldPlacedEmails | allocator.py:32-50 | groups are keyed by the first-choice projects and hold raw emails; an email is in a group exactly when its student was placed there, so nobody is in two groups; a student leaves `unmatched` exactly when placed |
| Allocators.PlainIsExhaustive | allocator.py:41-50 | after round 5 every unmatched student finds each of their five ranked projects at 21 members |
| Allocators.PrePassScript | allocator2.py:99-119 | the pre-pass keeps the first-choice keys, puts only STRICT students into quant projects, and leaves no STRICT student out while a quant project they ranked has room |
| Allocators.QuantPhases | allocator2.py:99-144 | across the two phases, the greedy fill keeps every pre-pass placement and only shrinks the unmatched pool |
| Allocators.QuantAllocate | allocator2.py:99-144 | end to end: every group stays within its capacity; no NEVER student is in a quant project; groups hold exactly the placed students' display names; `unmatched` is exactly the unplaced emails; nobody is left out while a project they may join has room |
| Allocators.Allocator2Script | allocator2.py:57-144 | with allocator2's constants, quant groups end with at most 14 names and every other group with at most 10, and no NEVER student is in a quant project |
| Allocators.Allocator1Script | allocator1.py:47-131 | with allocator1's constants every group ends with at most 10 names, and no NEVER student is in a quant project |
| Allocators.PlainScript | allocator.py:32-50 | end to end: groups are keyed by the first-choice projects and hold at most 21 raw emails each; an email is in a group exactly when placed there; a respondent is unmatched exactly when not placed; nobody is left out while one of their five ranked projects has room |
| Export.AllProjectsDistinct | allocator2.py:158-167 | the canonical column list has eight distinct names |
| Export.WithCanonical | allocator2.py:170-171 | `setdefault` adds every canonical project missing from the map with an empty set and leaves every existing entry unchanged |
| Export.CanonicalGroups | allocator1.py:239-240 | after `setdefault` each canonical project's entry is its group, or empty if it had none |
| Export.Longest | allocator2.py:180 | `max_len` bounds every column's group size and is attained by one of them; it is 0 for no columns |
| Export.Pad | allocator2.py:183-187 | padding keeps the list as a prefix and fills up to the width with "" |
| Export.Export | allocator2.py:174-177 | the exported sheet has one column per canonical project, in the canonical order |
| Export.Sheet | allocator2.py:174-177 | one column per project of the column order, in that order |
| Export.SheetIsRectangular | allocator2.py:179-187 | every column has length `max_len`, which is the size of the largest group among the columns |
| Export.SheetColumnContents | allocator1.py:243-256 | each column is its group's names in ascending order followed only by "" padding; a project that no group map entry had gives an all-blank column |
| Export.SheetRecoversGroups | allocator2.py:174-187 | every member of a group appears in its column, and every non-blank cell is a member |
| Export.ExportHasEveryProject | allocator2.py:158-187 | the export has the eight canonical columns in order, whether or not anyone was placed in them, and each lists exactly its group apart from blanks |
| Export.ExportListsPlacements | allocator2.py:142-190 | after both phases, every student placed in one of the eight canonical projects has their display name in that project's exported column |
| Export.ExportSheet | allocator2.py:158-190 | the exported sheet has the eight canonical columns in order, all of one length, and each column lists exactly its project's group apart from the blank padding |
| Export.QuantExport | allocator2.py:99-190 | in the sheet written after both phases, the eight columns are in canonical order and every student placed in one of the eight canonical projects has their display name in that project's column |
| Export.NonCanonicalNotExported | allocator2.py:174-177 | a non-blank name held only by groups of projects outside the eight canonical ones appears in no exported column |

## Left out

- Reading the survey and the roster with pandas, and building `email_map` and `quant_pref_map` from data frames. The model takes the results as a `Survey`.
- Placements into projects outside `all_projects`: the group map keeps them, but the export builds columns only for the eight canonical projects, so those students are allocated and not written. The model states this (`Export.NonCanonicalNotExported`) and promises nothing more for them.
- The Excel writes (`to_excel`). `Export` yields the columns the data frame is built from.
- The `print` progress lines and the read-only reports in the quant-aware scripts. Those reports derive statistics from the final groups by mapping names back to emails. One of them, at allocator2.py:205, applies `in` to a possibly non-text cell without the classifier's `isinstance` guard.
- email_misses.py is a roster-minus-responses set difference wrapped in CSV reads and printing. It has no algorithmic content.
- allocator1.py exports only when every quant answer is text. Its report loop at allocator1.py:147-149 applies `in` to `quant_pref_map[email]` without an `isinstance` guard. That loop runs before the export at allocator1.py:238-262, so a non-text answer raises `TypeError` and no sheet is written. The model's `Export` does not carry this condition.
- Blank ranked-choice cells (NaN projects) and NaN emails. Rows carry five string choices (`WellShaped`).
- Allocators.ValidRows: the scripts raise `KeyError` at `master_map[1]` on an empty survey, because no rank key is ever created (`BuildMasterMap` shows this). The allocation theorems admit the empty survey, where they hold with empty groups.
- Allocators.ValidRows: requires every ranked project to be a first choice. This also excludes some surveys on which the scripts run to completion: a project outside the first choices that is visited only for students already placed, or only for students the pass's rule turns away, is never looked up.
- Allocators.ValidRows: requires distinct emails. `unmatched.remove` deletes only the first occurrence, so a repeated email would stay in the pool after being placed.
- Allocators.Allocator2GroupSizes: bounds the number of distinct display names, as the scripts do. Two students with the same roster name count once, so a group may seat more students than its capacity.
- The exhaustiveness theorems (`NoRoomLeft`) speak about students still unmatched. They say nothing about whether a placed student could have had a better-ranked project.
- The comment at the top of allocator.py speaks of groups of 10. The code admits up to 21, and the model follows the code.
