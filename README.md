# GitAnalyzer process metrics, modelled in Dafny

GitAnalyzer mines a git repository's history and reports process metrics per
file. This project models the core of that work:

- the metrics themselves:
  - commits per file;
  - files per commit;
  - change blocks (hunks) per file;
  - code churn;
  - line statistics;
  - contributors per file and minor contributors;
  - the history complexity period factor;
  - the share of the top contributor.
- the base metric, which chooses the part of the history to walk;
- the configuration manager, which validates and normalises the range
  filters, turns them into a `git rev-list` revision and options, and decides
  which commits to leave out;
- the mailmap-aware author factory.

Every per-file metric repeats the same rename-aware walk over the traversal's
modified files. The walk resolves each file's new path through a rename table
(`file_path_mapping`). When the file is renamed, the walk points the old path
at the resolved one. It then files the change under the resolved,
"canonical" path. The module `ChangeStream` states that walk once:

- `Touches` flattens the commits into a stream of modified-file records;
- `TableAfter` is the rename table after a prefix of the stream;
- `Project` files every record under its canonical path;
- `Paths` and `Bucket` group the filed records by path.

Each metric's dictionary is then specified in closed form: one entry per path,
computed from that path's bucket. Each metric's loop is a `method` over maps.
That method is proved to build exactly that dictionary, through a
left-recursive fold function and a per-path lemma that connects the fold to
the buckets. The property lemmas are stated about the closed form: totals,
bounds, maxima, means and shares.

Objects whose fields the source updates are classes. The metric analysers
`ChangeVolume`, `FileLineMetrics`, `FileContributorMetrics` and
`CommitFileSetAnalyzer` fill their dictionaries once, in their constructor,
and their query functions read the stored dictionaries.
`ConfigurationManager` changes its settings after construction: an update sets
one key, and validation orders, normalises and merges them in place.
`GitMailMapAuthorFactory` fills its cache of canonical authors as authors
are created. Code that only computes a value is a function.

Inputs from outside the core are parameters:

- the history is a `seq<Commit>`, newest first as the traversal gives it;
- the repository's lookups of reference names and tags are a `Repo` value;
- the reply of `git check-mailmap` is a function the factory is given;
- the normalised entropy of the history complexity metric is a `real`
  parameter.

## Model

| member | source | states |
|---|---|---|
| ChangeStream.TouchesFrom | gitanalyzer/metrics/process/commits_count.py:33-34 | every record of the walk is a modified file of one of the traversed commits |
| ChangeStream.ProjectAt | gitanalyzer/metrics/process/commits_count.py:36-43 | the walk files one record per modified file, in stream order, under the new path looked up in the rename table built by the records before it |
| ChangeStream.TableKeys | gitanalyzer/metrics/process/commits_count.py:41-43 | the rename table's keys are exactly the old paths of the renames seen so far |
| ChangeStream.TableGrows | gitanalyzer/metrics/process/commits_count.py:41-43 | the rename table is never shrunk: later tables keep every earlier key |
| ChangeStream.Unaffected | gitanalyzer/metrics/process/commits_count.py:41-43 | records that rename none of a set of paths leave how each of those paths resolves unchanged |
| ChangeStream.NeverRenamed | gitanalyzer/metrics/process/commits_count.py:36-39 | a path no earlier record renamed is filed under itself |
| ChangeStream.LastRenameWins | gitanalyzer/metrics/process/commits_count.py:41-43 | after the latest rename of a path, the table maps it to that rename's canonical path |
| ChangeStream.RenameStep | gitanalyzer/metrics/process/commits_count.py:41-43 | one rename points its old path at the canonical path of its record and leaves every other path's resolution alone |
| ChangeStream.ChainCollapses | gitanalyzer/metrics/process/commits_count.py:36-43 | on a newest-first stream a chain of renames `a -> b -> c` files every later record of `a`, `b` or `c` under the newest name `c` |
| ChangeStream.CycleCollapses | gitanalyzer/metrics/process/commits_count.py:36-43 | a rename cycle `a -> b -> a` files every older record of either name under `a` |
| ChangeStream.RenamedFileKeepsOneBucket | gitanalyzer/metrics/process/commits_count.py:36-46 | in a history where a file is added and then renamed, both records land under the new name, which is the only path |
| ChangeStream.PathsMembers | gitanalyzer/metrics/process/commits_count.py:46 | the dictionary's paths are exactly the canonical paths some record was filed under |
| ChangeStream.BucketMembers | gitanalyzer/metrics/process/commits_count.py:46 | a path's bucket holds every record filed under that path and no other record |
| ChangeStream.BucketNonEmpty | gitanalyzer/metrics/process/commits_count.py:46 | a path has records exactly when it is one of the dictionary's paths |
| ChangeStream.GroupSnoc | gitanalyzer/metrics/process/commits_count.py:46 | one more record adds its path and extends that path's bucket only |
| ChangeStream.PerPathSnoc | gitanalyzer/metrics/process/commits_count.py:46 | one more record changes the per-path result of its own path only |
| CommitsCount.Count | gitanalyzer/metrics/process/commits_count.py:18-48 | the counter's dictionary is the closed-form count: for each canonical path, the number of records filed under it |
| CommitsCount.CountCommit | gitanalyzer/metrics/process/commits_count.py:34-46 | the walk over one commit's files extends the rename table and the counts by exactly that commit's records |
| CommitsCount.AddOne | gitanalyzer/metrics/process/commits_count.py:46 | `counts.get(path, 0) + 1` is the fold of the records with one more record appended |
| CommitsCount.TallyCounts | gitanalyzer/metrics/process/commits_count.py:46 | the fold of increments equals the per-path number of records |
| CommitsCount.CountStep | gitanalyzer/metrics/process/commits_count.py:46 | one more record adds one to its own path's count, starting at zero |
| CommitsCount.CountsTotal | gitanalyzer/metrics/process/commits_count.py:46 | the counts add up to the number of records |
| CommitsCount.CountsPositive | gitanalyzer/metrics/process/commits_count.py:46 | the counted paths are exactly the filed paths, and each has a count of at least one |
| CommitsCount.CountsCoverTraversal | gitanalyzer/metrics/process/commits_count.py:18-48 | over a whole traversal the counts add up to the number of modified-file entries |
| CommitsCount.RenamedFileCountedTwice | gitanalyzer/metrics/process/commits_count.py:36-46 | a file added and then renamed is counted twice under its new name, and nothing else is counted |
| ChangeSet.FileCounts | gitanalyzer/metrics/process/change_set.py:42-44 | one entry per commit, in order, each the number of files that commit modified |
| ChangeSet.CommitFileSetAnalyzer.constructor | gitanalyzer/metrics/process/change_set.py:20-35 | the analyser holds the file counts of the traversal |
| ChangeSet.CommitFileSetAnalyzer.CollectCommitData | gitanalyzer/metrics/process/change_set.py:37-44 | the list grows by the file count of every commit, in order |
| ChangeSet.CommitFileSetAnalyzer.GetMaximum | gitanalyzer/metrics/process/change_set.py:46-53 | 0 for no commit, otherwise an entry that no entry exceeds |
| ChangeSet.CommitFileSetAnalyzer.GetAverage | gitanalyzer/metrics/process/change_set.py:55-66 | 0 for no commit, otherwise within half a step of the exact mean and even on a tie, between the smallest and the largest entry |
| ChangeSet.MaximumNonNegative | gitanalyzer/metrics/process/change_set.py:46-53 | no file count is negative, so neither is the maximum |
| HunksCount.CountBlocks | gitanalyzer/metrics/process/hunks_count.py:39-49 | the scan of one diff fails exactly when a line of it is empty; otherwise it counts the maximal runs of `+`/`-` lines |
| HunksCount.RunCountIsStarts | gitanalyzer/metrics/process/hunks_count.py:43-49 | the block count is the number of change lines that do not follow a change line |
| HunksCount.NoChangeNoBlock | gitanalyzer/metrics/process/hunks_count.py:43-49 | a diff has no block exactly when none of its lines adds or removes text |
| HunksCount.BlocksAreSeparated | gitanalyzer/metrics/process/hunks_count.py:43-49 | blocks are separated by non-change lines, so twice the count is at most the number of lines plus one |
| HunksCount.CalculateBlocks | gitanalyzer/metrics/process/hunks_count.py:20-62 | fails exactly when some diff of the traversal has an empty line; otherwise, per canonical path, the median of the block counts of its records |
| HunksCount.CollectCommit | gitanalyzer/metrics/process/hunks_count.py:30-54 | one commit's walk succeeds exactly when every diff of the commit can be scanned, and then extends the table and the lists by its records |
| HunksCount.CollectChange | gitanalyzer/metrics/process/hunks_count.py:31-54 | one file's step succeeds exactly when its diff can be scanned, and then appends its block count under its canonical path |
| HunksCount.AppendCount | gitanalyzer/metrics/process/hunks_count.py:51-54 | appending to the path's list, or starting it, is the fold with one more record |
| HunksCount.AllScannableIff | gitanalyzer/metrics/process/hunks_count.py:43-44 | a commit can be scanned exactly when each of its diffs can |
| HunksCount.CleanPrefix | gitanalyzer/metrics/process/hunks_count.py:29-44 | a traversal stays well formed one commit further when that commit's diffs can all be scanned |
| HunksCount.Medians | gitanalyzer/metrics/process/hunks_count.py:57-60 | one median per path of the block lists |
| HunksCount.MediansBetween | gitanalyzer/metrics/process/hunks_count.py:57-60 | each median lies between the path's fewest and most blocks |
| CodeChurn.Kept | gitanalyzer/metrics/process/code_churn.py:76-77 | the kept records are never more than the records |
| CodeChurn.KeptRecords | gitanalyzer/metrics/process/code_churn.py:76-77 | when new files are skipped no kept record adds a file, every other record is kept, and nothing else is |
| CodeChurn.LinesFoldAt | gitanalyzer/metrics/process/code_churn.py:80-82 | the walk's line pairs hold, per path, the added and deleted lines of its last kept record |
| CodeChurn.LinesByPathFold | gitanalyzer/metrics/process/code_churn.py:80-82 | the walk's line pairs are the closed-form pairs |
| CodeChurn.ChangeVolume.constructor | gitanalyzer/metrics/process/code_churn.py:26-56 | the analyser stores its two flags and walks the traversal |
| CodeChurn.ChangeVolume.CollectChanges | gitanalyzer/metrics/process/code_churn.py:58-93 | the volume lists are the per-path columns of the kept records' volumes, and the line pairs those of each path's last kept record |
| CodeChurn.ChangeVolume.CollectCommit | gitanalyzer/metrics/process/code_churn.py:65-93 | one commit's walk extends the table, the kept records and both dictionaries by that commit's records |
| CodeChurn.ChangeVolume.Store | gitanalyzer/metrics/process/code_churn.py:80-93 | storing a kept record overwrites its line pair and appends its volume to its path's list |
| CodeChurn.ChangeVolume.LineModifications | gitanalyzer/metrics/process/code_churn.py:95-102 | the stored pairs: per path, the line counts of its last kept record |
| CodeChurn.ChangeVolume.TotalChanges | gitanalyzer/metrics/process/code_churn.py:104-114 | per path, the sum of the volumes of its kept records |
| CodeChurn.ChangeVolume.PeakChange | gitanalyzer/metrics/process/code_churn.py:116-126 | per path, a volume of the path's list that no volume of the list exceeds |
| CodeChurn.ChangeVolume.AverageChange | gitanalyzer/metrics/process/code_churn.py:128-138 | one rounded mean per path |
| CodeChurn.ChurnStep | gitanalyzer/metrics/process/code_churn.py:68-77 | one record takes the table one step and is kept unless it adds a file that is to be skipped |
| CodeChurn.PeakAtMostTotal | gitanalyzer/metrics/process/code_churn.py:104-126 | with total volumes, no path's peak exceeds its total |
| CodeChurn.AverageWithinVolumes | gitanalyzer/metrics/process/code_churn.py:116-138 | each path's rounded mean lies between its smallest volume and its peak |
| CodeChurn.OneVolumePerRecord | gitanalyzer/metrics/process/code_churn.py:91-93 | a path's list holds one volume per kept record of the path, so it is never empty |
| Columns.Column | gitanalyzer/metrics/process/lines_count.py:68-69 | one value per record, in order |
| Columns.ColumnsByPath | gitanalyzer/metrics/process/lines_count.py:63-69 | the per-path lists hold exactly the filed paths |
| Columns.AppendFoldAt | gitanalyzer/metrics/process/lines_count.py:63-69 | the append walk's list of a path holds its records' values in stream order |
| Columns.AppendFoldByPath | gitanalyzer/metrics/process/lines_count.py:63-69 | the append walk's dictionary is the closed-form per-path dictionary |
| Columns.ColumnLengths | gitanalyzer/metrics/process/lines_count.py:63-69 | every list has one value per record of its path and is never empty |
| LinesCount.CollectLineStatistics | gitanalyzer/metrics/process/lines_count.py:43-71 | the two dictionaries hold, per canonical path, the added and the deleted line counts of its records in stream order |
| LinesCount.CollectCommit | gitanalyzer/metrics/process/lines_count.py:52-69 | one commit's walk extends the table and both dictionaries by that commit's records |
| LinesCount.AppendCounts | gitanalyzer/metrics/process/lines_count.py:63-69 | creating the lists on first sight and appending both counts is the fold with one more record |
| LinesCount.StartList | gitanalyzer/metrics/process/lines_count.py:63-66 | a path gets an empty list unless it has one; other paths are untouched |
| LinesCount.ListsInStep | gitanalyzer/metrics/process/lines_count.py:63-69 | both dictionaries have the same paths, with lists of equal length |
| LinesCount.ChangedIsAddedPlusDeleted | gitanalyzer/metrics/process/lines_count.py:73-84 | a path's changed lines are its added plus its deleted lines |
| LinesCount.SumBoth | gitanalyzer/metrics/process/lines_count.py:77-82 | the loop visits every path of either dictionary and sums its two lists, a missing list counting as `[0]` |
| LinesCount.TotalIsLinesChanged | gitanalyzer/metrics/process/lines_count.py:80-82 | on the walk's dictionaries one path's total is the lines its records changed |
| LinesCount.TotalsAreLinesChanged | gitanalyzer/metrics/process/lines_count.py:73-84 | on the walk's dictionaries, the totals cover the filed paths, each the lines its records changed |
| LinesCount.CountsNonNegative | gitanalyzer/metrics/process/lines_count.py:68-69 | no line count is negative |
| LinesCount.FileLineMetrics.constructor | gitanalyzer/metrics/process/lines_count.py:27-41 | the analyser's dictionaries are those of the traversal |
| LinesCount.FileLineMetrics.GetTotalChanges | gitanalyzer/metrics/process/lines_count.py:73-84 | per filed path, its added plus deleted lines, the lines its records changed |
| LinesCount.FileLineMetrics.TotalAdditions | gitanalyzer/metrics/process/lines_count.py:86-93 | per path, the lines its records added |
| LinesCount.FileLineMetrics.MaxAdditions | gitanalyzer/metrics/process/lines_count.py:95-102 | per path, an added count of the path that no other exceeds |
| LinesCount.FileLineMetrics.AverageAdditions | gitanalyzer/metrics/process/lines_count.py:104-111 | one rounded mean per path |
| LinesCount.FileLineMetrics.TotalDeletions | gitanalyzer/metrics/process/lines_count.py:113-120 | per path, the lines its records deleted |
| LinesCount.FileLineMetrics.MaxDeletions | gitanalyzer/metrics/process/lines_count.py:122-129 | per path, a deleted count of the path that no other exceeds |
| LinesCount.FileLineMetrics.AverageDeletions | gitanalyzer/metrics/process/lines_count.py:131-138 | one rounded mean per path |
| LinesCount.MaxAtMostTotal | gitanalyzer/metrics/process/lines_count.py:86-129 | no single record adds or deletes more lines than the path's total |
| LinesCount.AveragesWithinCounts | gitanalyzer/metrics/process/lines_count.py:95-138 | the rounded means lie between the smallest and the largest count |
| Authorship.Contributions | gitanalyzer/metrics/process/contributors_count.py:67-74 | one counter per author of the path's records |
| Authorship.ContributionsByPath | gitanalyzer/metrics/process/contributors_count.py:67-74 | one dictionary per filed path |
| Authorship.AccumulateFoldAt | gitanalyzer/metrics/process/contributors_count.py:67-74 | the walk's dictionary of a path credits each author with the lines of their records |
| Authorship.AccumulateFoldByPath | gitanalyzer/metrics/process/contributors_count.py:67-74 | the walk's nested dictionaries are the closed-form per-path, per-author contributions |
| Authorship.ContributionsSnoc | gitanalyzer/metrics/process/contributors_count.py:72-74 | one more record credits its lines to its author only |
| Authorship.ContributionsTotal | gitanalyzer/metrics/process/contributors_count.py:82 | a path's contributions add up to the lines its records changed |
| Authorship.ContributionsNonNegative | gitanalyzer/metrics/process/contributors_count.py:72-74 | no contribution is negative |
| Authorship.AuthorsNonEmpty | gitanalyzer/metrics/process/contributors_count.py:67-74 | a path with records has at least one contributor |
| ContributorsCount.ActivePaths | gitanalyzer/metrics/process/contributors_count.py:85-87 | the kept paths are among the filed paths |
| ContributorsCount.MinorAuthors | gitanalyzer/metrics/process/contributors_count.py:93-96 | the minor authors are among the path's authors |
| ContributorsCount.CountMinor | gitanalyzer/metrics/process/contributors_count.py:93-96 | the count is the number of authors with less than 5% of the path's lines |
| ContributorsCount.Accumulate | gitanalyzer/metrics/process/contributors_count.py:67-74 | crediting one record is the fold with one more record |
| ContributorsCount.SummaryByPath | gitanalyzer/metrics/process/contributors_count.py:79-97 | the summarised dictionaries are those of the filed records |
| ContributorsCount.Summarise | gitanalyzer/metrics/process/contributors_count.py:79-97 | paths with no changed line are dropped; each kept path gets its number of authors and of minor authors |
| ContributorsCount.FileContributorMetrics.constructor | gitanalyzer/metrics/process/contributors_count.py:22-35 | the analyser is summarised over the traversal's records |
| ContributorsCount.FileContributorMetrics.ComputeMetrics | gitanalyzer/metrics/process/contributors_count.py:37-77 | after the walk and the summary the three dictionaries describe the traversal |
| ContributorsCount.FileContributorMetrics.AnalyseCommit | gitanalyzer/metrics/process/contributors_count.py:49-74 | one commit's walk extends the table and the nested dictionaries by its records and leaves the results alone |
| ContributorsCount.FileContributorMetrics.CalculateContributorCounts | gitanalyzer/metrics/process/contributors_count.py:79-97 | summarising the accumulated dictionaries establishes the analyser's invariant |
| ContributorsCount.FileContributorMetrics.TotalContributors | gitanalyzer/metrics/process/contributors_count.py:99-103 | per path that changed a line, its number of distinct authors |
| ContributorsCount.FileContributorMetrics.MinimalContributors | gitanalyzer/metrics/process/contributors_count.py:105-110 | per path that changed a line, its number of authors with less than 5% of its lines |
| ContributorsCount.CountsBounded | gitanalyzer/metrics/process/contributors_count.py:79-110 | a kept path has at least one author and no more minor authors than authors |
| ContributorsCount.SomeAuthorNotMinor | gitanalyzer/metrics/process/contributors_count.py:93-96 | with at most twenty authors, the largest one is never minor |
| ContributorsExperience.ChangedPaths | gitanalyzer/metrics/process/contributors_experience.py:52-54 | the reported files are among the filed paths |
| ContributorsExperience.CalculateDistribution | gitanalyzer/metrics/process/contributors_experience.py:15-58 | per path with a changed line, the top author's share of the path's lines, in percent |
| ContributorsExperience.CollectAuthorship | gitanalyzer/metrics/process/contributors_experience.py:28-48 | the nested dictionaries are the per-path, per-author contributions |
| ContributorsExperience.CollectCommit | gitanalyzer/metrics/process/contributors_experience.py:29-48 | one commit's walk extends the table and the dictionaries by its records |
| ContributorsExperience.AddContribution | gitanalyzer/metrics/process/contributors_experience.py:41-48 | setdefault then add credits the record's lines to its author under its path |
| ContributorsExperience.DefaultThenAdd | gitanalyzer/metrics/process/contributors_experience.py:45-48 | creating a missing counter at zero and then adding is crediting |
| ContributorsExperience.TopShares | gitanalyzer/metrics/process/contributors_experience.py:51-56 | exactly the paths with a positive total, each with its top share |
| ContributorsExperience.TopBetween | gitanalyzer/metrics/process/contributors_experience.py:55 | the top count is positive, at most the total, and at least the total over the number of authors |
| ContributorsExperience.ShareBounds | gitanalyzer/metrics/process/contributors_experience.py:56 | the top share lies in (0, 100] |
| ContributorsExperience.ShareIsFull | gitanalyzer/metrics/process/contributors_experience.py:56 | the share is 100 exactly when one author wrote every line |
| ContributorsExperience.OthersZero | gitanalyzer/metrics/process/contributors_experience.py:56 | an author holding the whole total leaves zero to everyone else |
| ContributorsExperience.OnlyOneCounts | gitanalyzer/metrics/process/contributors_experience.py:55-56 | when every other count is zero, the one author's count is both the total and the top count |
| ContributorsExperience.ShareAtLeastEven | gitanalyzer/metrics/process/contributors_experience.py:55-56 | the top share is at least an even split among the authors |
| ContributorsExperience.DistributionBounds | gitanalyzer/metrics/process/contributors_experience.py:51-56 | for every reported file, the share lies in (0, 100] and is at least an even split |
| HistoryComplexity.ChangedFiles | gitanalyzer/metrics/process/history_complexity.py:58-61 | the counted files are among the filed paths |
| HistoryComplexity.Volumes | gitanalyzer/metrics/process/history_complexity.py:47-61 | one volume per file with a change of positive size |
| HistoryComplexity.SizeFoldAt | gitanalyzer/metrics/process/history_complexity.py:58-61 | the walk holds a path exactly when a change to it had positive size, with the sum of those sizes |
| HistoryComplexity.SizeFoldByPath | gitanalyzer/metrics/process/history_complexity.py:47-61 | the walk's volumes are the closed-form volumes |
| HistoryComplexity.VolumeNonNegative | gitanalyzer/metrics/process/history_complexity.py:58-61 | no volume is negative |
| HistoryComplexity.Calculate | gitanalyzer/metrics/process/history_complexity.py:32-84 | per changed file, its share of the total volume times the entropy, in percent; all zero when fewer than two files changed; between 0 and 100 for an entropy in [0, 1] |
| HistoryComplexity.CollectSizes | gitanalyzer/metrics/process/history_complexity.py:47-61 | the accumulation loop builds the per-file volumes |
| HistoryComplexity.CollectCommit | gitanalyzer/metrics/process/history_complexity.py:48-61 | one commit's walk extends the table and the volumes by its records |
| HistoryComplexity.AddSize | gitanalyzer/metrics/process/history_complexity.py:58-61 | a positive size is added to its path's volume, which starts at zero; any other size changes nothing |
| HistoryComplexity.PositiveTotal | gitanalyzer/metrics/process/history_complexity.py:63-64 | every volume is positive, and so is the total when some file changed |
| HistoryComplexity.Normalise | gitanalyzer/metrics/process/history_complexity.py:67-68 | every volume divided by the total |
| HistoryComplexity.Scores | gitanalyzer/metrics/process/history_complexity.py:79-82 | every share times the entropy, in percent |
| HistoryComplexity.ShareBounds | gitanalyzer/metrics/process/history_complexity.py:67-68 | every changed file's share lies in (0, 1] |
| HistoryComplexity.ScoreWithinPercent | gitanalyzer/metrics/process/history_complexity.py:37-42 | with an entropy in [0, 1], every changed file scores between 0 and 100 |
| HistoryComplexity.ScoreWithin | gitanalyzer/metrics/process/history_complexity.py:79-82 | a share and an entropy in [0, 1] give a score between 0 and 100 |
| HistoryComplexity.WholeShare | gitanalyzer/metrics/process/history_complexity.py:67-68 | a share is the whole exactly when its file is the only changed file |
| HistoryComplexity.OnlyFile | gitanalyzer/metrics/process/history_complexity.py:63-68 | with positive volumes, one equal to the total is the only one |
| HistoryComplexity.NoLinesNoFiles | gitanalyzer/metrics/process/history_complexity.py:47-61 | a history that touches no line has no changed file and an empty result |
| Aggregates.Max | gitanalyzer/metrics/process/change_set.py:53 | `max` is an entry that no entry exceeds |
| Aggregates.Min | gitanalyzer/metrics/process/change_set.py:66 | `min` is an entry that exceeds no entry |
| Aggregates.SumBounds | gitanalyzer/metrics/process/change_set.py:66 | a list's sum lies between its length times its minimum and its length times its maximum |
| Aggregates.MaxAtMostSum | gitanalyzer/metrics/process/lines_count.py:91-100 | over non-negative entries the maximum lies between zero and the sum |
| Aggregates.RoundHalfEven | gitanalyzer/metrics/process/change_set.py:66 | `round` of a quotient is within half a step of it, and even on a tie |
| Aggregates.RoundedMean | gitanalyzer/metrics/process/change_set.py:66 | `round(mean(xs))` is within half a step of the exact mean, and even on a tie |
| Aggregates.RoundedMeanBetween | gitanalyzer/metrics/process/change_set.py:66 | `round(mean(xs))` lies between the smallest and the largest entry |
| Aggregates.Sort | gitanalyzer/metrics/process/hunks_count.py:58 | sorting gives a sorted permutation |
| Aggregates.Median | gitanalyzer/metrics/process/hunks_count.py:58 | of an odd number of entries the median is one of them; of an even number, the mean of the entries at two different positions |
| Aggregates.MedianIsMiddle | gitanalyzer/metrics/process/hunks_count.py:58 | the median is the middle entry of any sorted arrangement of the entries, or the mean of its two middle entries |
| Aggregates.SortedUnique | gitanalyzer/metrics/process/hunks_count.py:58 | two sorted arrangements of the same entries are equal |
| Aggregates.SameHead | gitanalyzer/metrics/process/hunks_count.py:58 | two sorted arrangements of the same entries start with the same entry, and their rests hold the same entries |
| Aggregates.MedianBetween | gitanalyzer/metrics/process/hunks_count.py:58 | `median` lies between the smallest and the largest entry |
| Aggregates.MedianOfOne | gitanalyzer/metrics/process/hunks_count.py:58 | a file changed once has its one block count as median |
| Aggregates.MapSumRemove | gitanalyzer/metrics/process/contributors_count.py:82 | `sum(d.values())` does not depend on the order the keys are visited in |
| Aggregates.MapSumUpdate | gitanalyzer/metrics/process/contributors_count.py:72-74 | storing a value changes the total by the difference |
| Aggregates.MapSumDominates | gitanalyzer/metrics/process/contributors_count.py:82-87 | over non-negative values each value is at most the total, which is zero only when every value is |
| Aggregates.MapSumAtMostCountTimes | gitanalyzer/metrics/process/contributors_experience.py:53-55 | a total of values none above `x` is at most their number times `x` |
| Aggregates.SumValues | gitanalyzer/metrics/process/contributors_count.py:82 | the loop's total is the order-free sum of the values |
| Aggregates.MapMax | gitanalyzer/metrics/process/contributors_experience.py:55 | `max(d.values())` is a value that no value exceeds |
| Aggregates.MapMaxUnique | gitanalyzer/metrics/process/contributors_experience.py:55 | any value that no value exceeds is that maximum |
| Aggregates.MaxValue | gitanalyzer/metrics/process/contributors_experience.py:55 | the loop's result is that maximum |
| Aggregates.FractionBounds | gitanalyzer/metrics/process/history_complexity.py:67-68 | a positive part of a whole is a fraction in (0, 1], 1 only for the whole |
| Aggregates.PercentBounds | gitanalyzer/metrics/process/contributors_experience.py:56 | a positive part of a whole is a percentage in (0, 100], 100 only for the whole |
| Aggregates.PercentAtLeastShare | gitanalyzer/metrics/process/contributors_experience.py:56 | a part that `n` copies of would cover the whole is at least `100 / n` percent |
| Mailmap.AuthorEquals | gitanalyzer/utils/mailmap.py:12-15 | equal exactly to an author with the same name and e-mail address |
| Mailmap.HashConsistent | gitanalyzer/utils/mailmap.py:12-18 | authors are equal exactly when their hash keys are |
| Mailmap.SimpleCreateAuthor | gitanalyzer/utils/mailmap.py:31-32 | the author as given |
| Mailmap.ParseOutput | gitanalyzer/utils/mailmap.py:69-76 | a reply fails to parse exactly when it neither starts with `<` nor contains `" <"` |
| Mailmap.CanonicalIdentity | gitanalyzer/utils/mailmap.py:42-83 | a raised command or an empty reply gives back `str(name)` and `str(email)` |
| Mailmap.GitReplyIdentity | gitanalyzer/utils/mailmap.py:58-76 | git's printed line `name <email>` with its line break gives that name and address as the canonical identity |
| Mailmap.ParseReply | gitanalyzer/utils/mailmap.py:65-76 | git's own reply `name <email>` parses back to that name and address, an empty name included |
| Mailmap.SplitName | gitanalyzer/utils/mailmap.py:73-75 | `name <email>` splits at the `" <"` after the name |
| Mailmap.UnparsableReply | gitanalyzer/utils/mailmap.py:73-83 | a reply with neither `<` first nor `" <"` keeps the given name and address |
| Mailmap.GitMailMapAuthorFactory.constructor | gitanalyzer/utils/mailmap.py:38-40 | an empty cache and the repository path |
| Mailmap.GitMailMapAuthorFactory.CreateAuthor | gitanalyzer/utils/mailmap.py:85-114 | a cached author comes back without a query; otherwise the parsed reply becomes the author and is cached; cached entries never change |
| PyText.TrimLeftSpec | gitanalyzer/utils/mailmap.py:66 | `lstrip` removes a leading run of whitespace, and no more |
| PyText.TrimRightSpec | gitanalyzer/utils/mailmap.py:66 | `rstrip` removes a trailing run of whitespace, and no more |
| PyText.StripSpec | gitanalyzer/utils/mailmap.py:66 | `strip` keeps the middle of the text with no whitespace at either end |
| PyText.StripIdempotent | gitanalyzer/utils/mailmap.py:66 | stripping twice is stripping once |
| PyText.SliceBound | gitanalyzer/utils/mailmap.py:70 | a slice bound is clamped to the text, negative bounds counting from the end |
| PyText.SliceInside | gitanalyzer/utils/mailmap.py:70 | `s[1:-1]` is the text without its first and last character, empty when that leaves nothing |
| PyText.FindFrom | gitanalyzer/utils/mailmap.py:73 | the first occurrence of the separator at or after a position, or none |
| PyText.Split | gitanalyzer/utils/mailmap.py:73 | `split` gives one piece exactly when the separator does not occur |
| PyText.SplitJoin | gitanalyzer/utils/mailmap.py:73 | joining the pieces of a split with the separator gives the text back |
| PyText.SplitPiecesFree | gitanalyzer/utils/mailmap.py:73-75 | no piece of a split contains the separator |
| PyText.LineEnd | gitanalyzer/metrics/process/hunks_count.py:43 | the first line ends at the first line boundary |
| PyText.SplitLinesSpec | gitanalyzer/metrics/process/hunks_count.py:43 | `splitlines` gives lines with no boundary in them, no more lines than characters, none for the empty text |
| ProcessMetric.Configure | gitanalyzer/metrics/process/process_metric.py:16-56 | a missing start is reported before a missing end; equal non-empty commits select one commit; anything else walks the range in reverse order with its bounds as given |
| ProcessMetric.Compute | gitanalyzer/metrics/process/process_metric.py:58-66 | the base metric computes 0 |
| Conf.Values | gitanalyzer/utils/conf.py:100-119 | one value per listed setting |
| Conf.GetCommit | gitanalyzer/utils/conf.py:180-199 | a lookup succeeds exactly for a name the repository knows |
| Conf.GetCommitFromTag | gitanalyzer/utils/conf.py:180-199 | a tag lookup succeeds exactly for a tag the repository knows |
| Conf.ActiveCount | gitanalyzer/utils/conf.py:167-178 | the count of values that are not `None` is at most their number |
| Conf.SomeActive | gitanalyzer/utils/conf.py:167-178 | the count is positive exactly when some value is given |
| Conf.HasSingleFilter | gitanalyzer/utils/conf.py:167-178 | the single-filter check passes exactly when no two of the values are given |
| Conf.TwoActive | gitanalyzer/utils/conf.py:167-178 | the count reaches two exactly when two values are given |
| Conf.FewerActive | gitanalyzer/utils/conf.py:167-178 | clearing values never raises the count |
| Conf.FromFiltersCheck | gitanalyzer/utils/conf.py:100-109 | a failure carries the start group's message |
| Conf.ToFiltersCheck | gitanalyzer/utils/conf.py:111-119 | a failure carries the end group's message |
| Conf.GroupChecks | gitanalyzer/utils/conf.py:100-119 | each group check fails exactly when two of its settings are given |
| Conf.Before | gitanalyzer/utils/conf.py:142-158 | different committer dates decide the order; equal ones leave it to the author dates |
| Conf.BeforeIsStrictOrder | gitanalyzer/utils/conf.py:142-158 | the date comparison is a strict order, total on the pairs of dates |
| Conf.Swap | gitanalyzer/utils/conf.py:160-165 | the two commit bounds trade places and no other setting changes |
| Conf.OrderFilters | gitanalyzer/utils/conf.py:132-165 | a lookup fails only with both commit bounds given; with both, the settings are swapped exactly when the start comes after the end, so afterwards the start is not after the end |
| Conf.EnsureTimezone | gitanalyzer/utils/conf.py:392-405 | a naive time gets UTC, a zoned time is kept, the wall time never changes |
| Conf.EnsureTimezoneIdempotent | gitanalyzer/utils/conf.py:392-405 | normalising twice is normalising once |
| Conf.Zoned | gitanalyzer/utils/conf.py:385-390 | a date setting is normalised, any other value is kept |
| Conf.WithTimezones | gitanalyzer/utils/conf.py:385-390 | only the three date filters change; each date keeps its wall-clock time, an aware date is unchanged and a naive one is read as UTC; a setting that is not a date is kept |
| Conf.NormaliseTimes | gitanalyzer/utils/conf.py:385-390 | the loop over the date filters gives the normalised settings |
| Conf.MergeDuplicateRange | gitanalyzer/utils/conf.py:121-130 | equal, truthy commit bounds become the single commit and clear both bounds; anything else is unchanged |
| Conf.MergeIdempotent | gitanalyzer/utils/conf.py:121-130 | afterwards no identical pair remains, so merging again changes nothing |
| Conf.Validation | gitanalyzer/utils/conf.py:90-98 | a failed validation leaves the settings as given or swapped, and a raised message is one of the two group messages |
| Conf.ValidatedSettings | gitanalyzer/utils/conf.py:90-98 | validated settings give at most one filter per end; each date is the given one normalised (same wall-clock time, naive read as UTC); no identical commit pair remains; with both commit bounds, they are two known commits with the start not after the end |
| Conf.OrderKeepsTimes | gitanalyzer/utils/conf.py:132-165 | ordering the commit bounds leaves the dates alone |
| Conf.LastStepsKeepGroups | gitanalyzer/utils/conf.py:94-98 | the last two steps never give a range filter that was not given |
| Conf.LastStepsOnlyClear | gitanalyzer/utils/conf.py:94-98 | apart from the single commit, the last two steps give no setting a value it did not have |
| Conf.LastStepsKeepTimes | gitanalyzer/utils/conf.py:94-98 | after the last two steps each date is the normalised date, and carries a time zone |
| Conf.RepositoryPaths | gitanalyzer/utils/conf.py:40-59 | a text path becomes a one-entry list, a list is kept, anything else raises |
| Conf.ConfigurationManager.constructor | gitanalyzer/utils/conf.py:29-31 | the settings are the parameters |
| Conf.ConfigurationManager.Create | gitanalyzer/utils/conf.py:29-38 | raises exactly for a bad repository path; otherwise the settings are the parameters with the path list added |
| Conf.ConfigurationManager.UpdateSetting | gitanalyzer/utils/conf.py:68-76 | one key is set, nothing else changes |
| Conf.ConfigurationManager.SwapCommitFilters | gitanalyzer/utils/conf.py:160-165 | the two commit bounds trade places |
| Conf.ConfigurationManager.ValidateFilterOrder | gitanalyzer/utils/conf.py:132-140 | the settings become the ordered ones, or stay as they were when a lookup fails |
| Conf.ConfigurationManager.ValidateTimezoneSettings | gitanalyzer/utils/conf.py:385-390 | the settings become the normalised ones |
| Conf.ConfigurationManager.HandleDuplicateCommitRange | gitanalyzer/utils/conf.py:121-130 | the settings become the merged ones |
| Conf.ConfigurationManager.ValidateFilters | gitanalyzer/utils/conf.py:90-98 | outcome and settings are those of the five steps in order |
| Conf.AncestryArgs | gitanalyzer/utils/conf.py:201-216 | the ancestry path of the commit, then no exclusion for a root commit, the commit's own parent for one parent, and each parent for a merge |
| Conf.ExcludedParents | gitanalyzer/utils/conf.py:201-216 | a merge's exclusions name exactly its parents, in order |
| Conf.BoundName | gitanalyzer/utils/conf.py:180-199 | a given tag is looked up and its commit's hash used; otherwise the commit setting is used |
| Conf.StartCommit | gitanalyzer/utils/conf.py:180-199 | a failed tag lookup is passed on; no name gives no start; a known name gives the ancestry arguments of its commit; an unknown one raises the message followed by the name |
| Conf.EndCommit | gitanalyzer/utils/conf.py:218-236 | a failed tag lookup is passed on; no name gives no end; a known name gives its commit's hash; an unknown one raises the message followed by the name |
| Conf.CommitRange | gitanalyzer/utils/conf.py:267-282 | a start gives its arguments then the end or `HEAD`; without a start, the end alone or nothing |
| Conf.RevisionFor | gitanalyzer/utils/conf.py:249-282 | a single commit is walked alone; otherwise a start that fails is the failure, then an end that fails; with a start or an end given, exactly the range they span; with neither, the branch or `HEAD` |
| Conf.DetermineRevision | gitanalyzer/utils/conf.py:249-265 | what it raises itself starts with the start or the end message of `get_start_commit` and `get_end_commit` |
| Conf.DetermineRevisionSpec | gitanalyzer/utils/conf.py:509-525 | what it raises itself starts with the start or the end message of `resolve_start_commit` and `resolve_end_commit` |
| Conf.RevisionCopiesAgree | gitanalyzer/utils/conf.py:509-525 | the two revision builders choose the same revision and fail on the same settings, differing only in the message text |
| Conf.BuildRevisionOptions | gitanalyzer/utils/conf.py:284-306 | every option is present exactly when the settings give it a value, with that value |
| Conf.OrderingOption | gitanalyzer/utils/conf.py:293-300 | the ordering sets only ordering options, as the settings give them |
| Conf.AddBooleanOptions | gitanalyzer/utils/conf.py:308-320 | each switch that is set adds its option, and nothing else changes |
| Conf.AddFilterOptions | gitanalyzer/utils/conf.py:322-339 | each filter that is not `None` is copied under its option name, and nothing else changes |
| Conf.AllCopied | gitanalyzer/utils/conf.py:330-339 | copying every pair of the mapping sets every filter option |
| Conf.OrderingOptions | gitanalyzer/utils/conf.py:293-300 | no order walks oldest first, `reverse` newest first, and at most one ordering option is set |
| Conf.FileTypeMismatch | gitanalyzer/utils/conf.py:366-383 | without a file-type filter no commit is dropped for its files; with one, a commit is kept exactly when one of its files ends with a listed suffix |
| Conf.FalsyFiltersAdmitNothing | gitanalyzer/utils/conf.py:341-364 | an empty commit filter admits no hash |
| Conf.ShouldFilterCommit | gitanalyzer/utils/conf.py:341-364 | a kept commit matches the file types and lies in every commit filter that is not `None`; a commit filter given but empty drops every commit |
| Conf.ShouldExcludeCommit | gitanalyzer/utils/conf.py:544-570 | a commit is excluded exactly when a file-type filter is given and no modified file ends with a listed suffix, or a truthy commit filter does not list its hash |
| Conf.FilterAndExcludeDiffer | gitanalyzer/utils/conf.py:341-364 | the two commit filters agree except on a commit filter that is given but empty |

## Left out

- Aggregates.Median: its own contract says only that the median is an entry, or the mean of two entries at different positions; that it is the middle of the sorted entries is stated by `Aggregates.MedianIsMiddle`.

- Floating point:
  - `round(x, 2)` of the shares and scores is not modelled; they are exact rationals;
  - `statistics.mean` followed by `round` is exact rounding half to even over the integers;
  - `statistics.median` is a `real`;
  - the 5% threshold `lines / total < 0.05` is `20 * lines < total`, which agrees with it for every positive total below 10^16; for larger totals the float quotient can round across 0.05.
- The normalised entropy of `history_complexity.py` (`log`, `1e-10`) is a `real` parameter of `HistoryComplexity.Calculate`, because logarithms are not modelled.
- Git plumbing:
  - the traversal is a newest-first `seq<Commit>`;
  - the repository's commit and tag lookups are the `Repo` value;
  - `git check-mailmap` is a function from repository and query to a reply;
  - running `git rev-list` with the built revision and options is not modelled.
- `build_revision_args` and `construct_revision_args` only pair a revision with the options; they have no member of their own, and their two parts are `Conf.RevisionFor` and `Conf.BuildRevisionOptions`.
- `get_setting` is the plain lookup `Conf.Get`, with no property of its own.
- The developer factory that `ConfigurationManager.__init__` installs (`_initialize_developer_factory`) is not modelled: its factory classes are not part of this model.
- `gitanalyzer/utils/check_git_version.py`, `setup.py` and the documentation are not part of this model.
- Settings values of a kind the code does not expect are not modelled: for example a number where a list is expected. Such a value reads as unset or empty.
- `Other(name)` stands for any further setting key. The model does not rule out an `Other` name that spells a known key.
- Conf.AddBooleanOptions: requires that no switch option is present yet, as the builder guarantees by calling it on the ordering options only.
- Conf.AddFilterOptions: requires that no filter option is present yet, as the builder guarantees by calling it before anything else sets one.
- LinesCount.FileLineMetrics.AverageAdditions, LinesCount.FileLineMetrics.AverageDeletions and CodeChurn.ChangeVolume.AverageChange: their own ensures give only the keys. Their bounds are stated in `LinesCount.AveragesWithinCounts` and `CodeChurn.AverageWithinVolumes`.
- `create_author` has an outer `except` that no call can reach, because `_get_canonical_identity` catches every exception itself. The model has no such path.
- Identity of objects:
  - `Author` is a value, because Python's `__eq__` and `__hash__` make it behave as one;
  - a cached author is returned as the same value, not the same object.
- The tests of the base metric pass keyword names that the constructor does not accept, so Python raises `TypeError` before any check. The model follows the constructor's own parameters and its `ValueError` messages.
- Integer widths: line counts and file counts are unbounded `nat`, as Python's `int` is.
