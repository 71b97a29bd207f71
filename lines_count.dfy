/** Line statistics per file: for every canonical path, the lines added and
    the lines deleted by each change to it, and their totals, maxima and
    rounded means. */
module LinesCount {
  import opened Wrappers
  import opened History
  import opened ChangeStream
  import opened Aggregates
  import opened Columns

  function Added(fc: FileChange): int {
    fc.added
  }

  function Deleted(fc: FileChange): int {
    fc.deleted
  }

  /** The statistics walk: resolve each record's path, record a rename, and
      append the record's added and deleted line counts to the path's two
      lists, creating them on first sight. */
  method CollectLineStatistics(commits: seq<Commit>)
    returns (additions: map<Path, seq<int>>, deletions: map<Path, seq<int>>)
    ensures additions == ColumnsByPath(Project(Touches(commits)), Added)
    ensures deletions == ColumnsByPath(Project(Touches(commits)), Deleted)
  {
    additions, deletions := map[], map[];
    var fileRenames: map<Path, Path> := map[];
    ghost var done: seq<Touch> := [];
    for i := 0 to |commits|
      invariant done == Touches(commits[..i])
      invariant fileRenames == TableAfter(done)
      invariant additions == AppendFold(Project(done), Added)
      invariant deletions == AppendFold(Project(done), Deleted)
    {
      fileRenames, additions, deletions := CollectCommit(commits[i], fileRenames, additions, deletions, done);
      done := done + TouchesOf(commits[i]);
      TouchesSnoc(commits, i);
    }
    assert commits[..|commits|] == commits;
    AppendFoldByPath(Project(Touches(commits)), Added);
    AppendFoldByPath(Project(Touches(commits)), Deleted);
  }

  /** The statistics walk over the modified files of one commit. */
  method CollectCommit(commit: Commit, fileRenames: map<Path, Path>,
                       additions: map<Path, seq<int>>, deletions: map<Path, seq<int>>,
                       ghost before: seq<Touch>)
    returns (renames: map<Path, Path>, added: map<Path, seq<int>>, deleted: map<Path, seq<int>>)
    requires fileRenames == TableAfter(before)
    requires additions == AppendFold(Project(before), Added)
    requires deletions == AppendFold(Project(before), Deleted)
    ensures renames == TableAfter(before + TouchesOf(commit))
    ensures added == AppendFold(Project(before + TouchesOf(commit)), Added)
    ensures deleted == AppendFold(Project(before + TouchesOf(commit)), Deleted)
  {
    renames, added, deleted := fileRenames, additions, deletions;
    ghost var done := before;
    for j := 0 to |commit.changes|
      invariant done == before + Tag(commit, commit.changes[..j])
      invariant renames == TableAfter(done)
      invariant added == AppendFold(Project(done), Added)
      invariant deleted == AppendFold(Project(done), Deleted)
    {
      var changedFile := commit.changes[j];
      var currentPath := Resolve(renames, changedFile.newPath);
      Snoc(done, Touch(commit, changedFile));
      if changedFile.kind == Rename {
        renames := renames[changedFile.oldPath := currentPath];
      }
      added, deleted := AppendCounts(added, deleted, currentPath, changedFile, Project(done), commit);
      TagSnoc(commit, j);
      AppendAssoc(before, Tag(commit, commit.changes[..j]), Touch(commit, changedFile));
      done := done + [Touch(commit, changedFile)];
    }
    assert commit.changes[..|commit.changes|] == commit.changes;
  }

  /** One record of the walk: its counts go at the end of its path's two
      lists, which are created empty if the path is new. */
  method AppendCounts(additions: map<Path, seq<int>>, deletions: map<Path, seq<int>>,
                      currentPath: Path, changedFile: FileChange,
                      ghost rs: seq<ChangeRecord>, ghost commit: Commit)
    returns (added: map<Path, seq<int>>, deleted: map<Path, seq<int>>)
    requires additions == AppendFold(rs, Added) && deletions == AppendFold(rs, Deleted)
    ensures added == AppendFold(rs + [ChangeRecord(currentPath, commit, changedFile)], Added)
    ensures deleted == AppendFold(rs + [ChangeRecord(currentPath, commit, changedFile)], Deleted)
  {
    ghost var record := ChangeRecord(currentPath, commit, changedFile);
    AppendSnoc(rs, record, Added);
    AppendSnoc(rs, record, Deleted);
    added := StartList(additions, currentPath);
    deleted := StartList(deletions, currentPath);
    added := added[currentPath := added[currentPath] + [changedFile.added]];
    deleted := deleted[currentPath := deleted[currentPath] + [changedFile.deleted]];
  }

  /** `m` with an empty list under `p` unless `p` already has one. */
  function StartList(m: map<Path, seq<int>>, p: Path): (r: map<Path, seq<int>>)
    ensures p in r && r[p] == (if p in m then m[p] else [])
    ensures forall q :: q != p ==> (q in r <==> q in m) && (q in m ==> r[q] == m[q])
  {
    if p !in m then m[p := []] else m
  }

  /** Both lists of a path have one entry per record of the path, so the
      two dictionaries have the same keys and equally long lists. */
  lemma ListsInStep(rs: seq<ChangeRecord>, p: Path)
    ensures ColumnsByPath(rs, Added).Keys == ColumnsByPath(rs, Deleted).Keys == Paths(rs)
    ensures p in Paths(rs) ==>
              |ColumnsByPath(rs, Added)[p]| == |ColumnsByPath(rs, Deleted)[p]| == |Bucket(rs, p)| > 0
  {
    BucketNonEmpty(rs, p);
  }

  /** The lines a path's records changed add up to its added lines plus its
      deleted lines. */
  lemma {:induction false} ChangedIsAddedPlusDeleted(b: seq<ChangeRecord>)
    ensures Sum(Column(b, LinesChanged)) == Sum(Column(b, Added)) + Sum(Column(b, Deleted))
  {
    if b != [] {
      var init := b[..|b| - 1];
      var last := b[|b| - 1];
      ChangedIsAddedPlusDeleted(init);
      assert Column(b, LinesChanged) == Column(init, LinesChanged) + [LinesChanged(last.change)];
      assert Column(b, Added) == Column(init, Added) + [Added(last.change)];
      assert Column(b, Deleted) == Column(init, Deleted) + [Deleted(last.change)];
      SumAppend(Column(init, LinesChanged), [LinesChanged(last.change)]);
      SumAppend(Column(init, Added), [Added(last.change)]);
      SumAppend(Column(init, Deleted), [Deleted(last.change)]);
    }
  }

  /** The list under `p`, or `[0]` when `p` has none. */
  function GetOrZero(m: map<Path, seq<int>>, p: Path): seq<int> {
    if p in m then m[p] else [0]
  }

  /** The total of one path: the sum of its list in the one dictionary
      plus the sum of its list in the other, a missing list counting as
      `[0]`. */
  function PathTotal(additions: map<Path, seq<int>>, deletions: map<Path, seq<int>>, p: Path): int {
    Sum(GetOrZero(additions, p)) + Sum(GetOrZero(deletions, p))
  }

  /** The loop of `get_total_changes`: the total of every path of either
      dictionary. */
  method SumBoth(additions: map<Path, seq<int>>, deletions: map<Path, seq<int>>)
    returns (results: map<Path, int>)
    ensures results.Keys == additions.Keys + deletions.Keys
    ensures forall p :: p in results ==> results[p] == PathTotal(additions, deletions, p)
  {
    results := map[];
    var paths := additions.Keys + deletions.Keys;
    var remaining := paths;
    while remaining != {}
      invariant remaining <= paths
      invariant forall p :: p in results <==> p in paths && p !in remaining
      invariant forall p :: p in results ==> results[p] == PathTotal(additions, deletions, p)
      decreases remaining
    {
      var path :| path in remaining;
      results := results[path := PathTotal(additions, deletions, path)];
      remaining := remaining - {path};
    }
  }

  /** Per path, the total of the two dictionaries is its added lines plus
      its deleted lines, which are the lines its records changed. */
  lemma TotalIsLinesChanged(rs: seq<ChangeRecord>, additions: map<Path, seq<int>>, deletions: map<Path, seq<int>>, p: Path)
    requires additions == ColumnsByPath(rs, Added) && deletions == ColumnsByPath(rs, Deleted)
    requires p in additions.Keys + deletions.Keys
    ensures p in additions && p in deletions
    ensures PathTotal(additions, deletions, p) == Sum(additions[p]) + Sum(deletions[p])
    ensures Sum(additions[p]) + Sum(deletions[p]) == Sum(Column(Bucket(rs, p), LinesChanged))
  {
    ChangedIsAddedPlusDeleted(Bucket(rs, p));
  }

  /** The totals of every path of either dictionary are, path by path, the
      lines its records changed. */
  lemma TotalsAreLinesChanged(rs: seq<ChangeRecord>, additions: map<Path, seq<int>>, deletions: map<Path, seq<int>>,
                              results: map<Path, int>)
    requires additions == ColumnsByPath(rs, Added) && deletions == ColumnsByPath(rs, Deleted)
    requires results.Keys == additions.Keys + deletions.Keys
    requires forall p :: p in results ==> results[p] == PathTotal(additions, deletions, p)
    ensures results.Keys == Paths(rs)
    ensures forall p :: p in results ==> results[p] == Sum(additions[p]) + Sum(deletions[p])
    ensures forall p :: p in results ==> results[p] == Sum(Column(Bucket(rs, p), LinesChanged))
  {
    forall p | p in results
      ensures results[p] == Sum(additions[p]) + Sum(deletions[p]) == Sum(Column(Bucket(rs, p), LinesChanged))
    {
      TotalIsLinesChanged(rs, additions, deletions, p);
    }
  }

  /** A column of line counts holds no negative entry. */
  lemma CountsNonNegative(b: seq<ChangeRecord>, f: FileChange -> int)
    requires f == Added || f == Deleted
    ensures NonNegative(Column(b, f))
  {
    var vs := Column(b, f);
    forall k | 0 <= k < |vs| ensures vs[k] >= 0 {
      assert vs[k] == f(b[k].change);
    }
  }

  /** The line-statistics analyser: the two dictionaries of per-change line
      counts, filled once, when it is created. */
  class FileLineMetrics {
    const additions: map<Path, seq<int>>
    const deletions: map<Path, seq<int>>
    /** The records the dictionaries were built from. */
    ghost const records: seq<ChangeRecord>

    ghost predicate Valid() {
      && additions == ColumnsByPath(records, Added)
      && deletions == ColumnsByPath(records, Deleted)
    }

    constructor (commits: seq<Commit>)
      ensures records == Project(Touches(commits))
      ensures Valid()
    {
      records := Project(Touches(commits));
      var added, deleted := CollectLineStatistics(commits);
      additions, deletions := added, deleted;
    }

    /** `get_total_changes`: per path of either dictionary, the sum of its
        added lines plus the sum of its deleted lines, which is the number
        of lines its records changed. */
    method GetTotalChanges() returns (results: map<Path, int>)
      requires Valid()
      ensures results.Keys == Paths(records)
      ensures forall p :: p in results ==> results[p] == Sum(additions[p]) + Sum(deletions[p])
      ensures forall p :: p in results ==> results[p] == Sum(Column(Bucket(records, p), LinesChanged))
    {
      results := SumBoth(additions, deletions);
      TotalsAreLinesChanged(records, additions, deletions, results);
    }

    /** `get_total_additions`: per path, the lines its records added. */
    function TotalAdditions(): (r: map<Path, int>)
      requires Valid()
      ensures r.Keys == Paths(records)
      ensures forall p :: p in r ==> r[p] == Sum(Column(Bucket(records, p), Added))
    {
      map path | path in additions :: Sum(additions[path])
    }

    /** `get_max_additions`: per path, the most lines one record added. */
    function MaxAdditions(): (r: map<Path, int>)
      requires Valid()
      ensures r.Keys == Paths(records)
      ensures forall p :: p in r ==> IsMax(additions[p], r[p])
    {
      map path | path in additions :: (BucketNonEmpty(records, path); Max(additions[path]))
    }

    /** `get_average_additions`: per path, the mean of its added lines,
        rounded half to even. */
    function AverageAdditions(): (r: map<Path, int>)
      requires Valid()
      ensures r.Keys == Paths(records)
    {
      map path | path in additions :: (BucketNonEmpty(records, path); RoundedMean(additions[path]))
    }

    /** `get_total_deletions`: per path, the lines its records deleted. */
    function TotalDeletions(): (r: map<Path, int>)
      requires Valid()
      ensures r.Keys == Paths(records)
      ensures forall p :: p in r ==> r[p] == Sum(Column(Bucket(records, p), Deleted))
    {
      map path | path in deletions :: Sum(deletions[path])
    }

    /** `get_max_deletions`: per path, the most lines one record deleted. */
    function MaxDeletions(): (r: map<Path, int>)
      requires Valid()
      ensures r.Keys == Paths(records)
      ensures forall p :: p in r ==> IsMax(deletions[p], r[p])
    {
      map path | path in deletions :: (BucketNonEmpty(records, path); Max(deletions[path]))
    }

    /** `get_average_deletions`: per path, the mean of its deleted lines,
        rounded half to even. */
    function AverageDeletions(): (r: map<Path, int>)
      requires Valid()
      ensures r.Keys == Paths(records)
    {
      map path | path in deletions :: (BucketNonEmpty(records, path); RoundedMean(deletions[path]))
    }
  }

  /** Line counts are never negative, so no single record adds or deletes
      more lines than all of a path's records together. */
  lemma MaxAtMostTotal(m: FileLineMetrics, p: Path)
    requires m.Valid() && p in m.additions
    ensures 0 <= m.MaxAdditions()[p] <= m.TotalAdditions()[p]
    ensures 0 <= m.MaxDeletions()[p] <= m.TotalDeletions()[p]
  {
    var b := Bucket(m.records, p);
    BucketNonEmpty(m.records, p);
    CountsNonNegative(b, Added);
    CountsNonNegative(b, Deleted);
    MaxAtMostSum(m.additions[p]);
    MaxAtMostSum(m.deletions[p]);
  }

  /** The rounded means lie between the smallest and the largest count. */
  lemma AveragesWithinCounts(m: FileLineMetrics, p: Path)
    requires m.Valid() && p in m.additions
    ensures |m.additions[p]| > 0 && Min(m.additions[p]) <= m.AverageAdditions()[p] <= m.MaxAdditions()[p]
    ensures |m.deletions[p]| > 0 && Min(m.deletions[p]) <= m.AverageDeletions()[p] <= m.MaxDeletions()[p]
  {
    BucketNonEmpty(m.records, p);
    RoundedMeanBetween(m.additions[p]);
    RoundedMeanBetween(m.deletions[p]);
  }
}
