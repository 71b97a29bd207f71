/** Files per commit: how many files each commit of the period modified,
    with the largest and the rounded mean of those numbers. */
module ChangeSet {
  import opened History
  import opened Aggregates

  /** The number of modified files of every commit, in stream order. */
  function FileCounts(commits: seq<Commit>): (counts: seq<int>)
    ensures |counts| == |commits|
    ensures forall i :: 0 <= i < |commits| ==> counts[i] == |commits[i].changes|
  {
    if commits == [] then [] else FileCounts(commits[..|commits| - 1]) + [|commits[|commits| - 1].changes|]
  }

  class CommitFileSetAnalyzer {
    /** `_files_per_commit`. */
    var filesPerCommit: seq<int>

    constructor (commits: seq<Commit>)
      ensures filesPerCommit == FileCounts(commits)
    {
      filesPerCommit := [];
      new;
      CollectCommitData(commits);
    }

    /** `_collect_commit_data`: one entry per commit, its number of modified
        files. */
    method CollectCommitData(commits: seq<Commit>)
      modifies this
      ensures filesPerCommit == old(filesPerCommit) + FileCounts(commits)
    {
      for i := 0 to |commits|
        invariant filesPerCommit == old(filesPerCommit) + FileCounts(commits[..i])
      {
        assert commits[..i + 1][..i] == commits[..i];
        var modifiedFileCount := |commits[i].changes|;
        filesPerCommit := filesPerCommit + [modifiedFileCount];
      }
      assert commits[..|commits|] == commits;
    }

    /** `get_maximum`: the largest entry, or 0 when there is none. */
    function GetMaximum(): (r: int)
      reads this
      ensures filesPerCommit == [] ==> r == 0
      ensures filesPerCommit != [] ==> r in filesPerCommit
      ensures forall i :: 0 <= i < |filesPerCommit| ==> filesPerCommit[i] <= r
    {
      if filesPerCommit == [] then 0 else Max(filesPerCommit)
    }

    /** `get_average`: the mean rounded to a nearest integer (half to even),
        or 0 when there is no entry; it lies between the smallest and the
        largest entry. */
    function GetAverage(): (r: int)
      reads this
      ensures filesPerCommit == [] ==> r == 0
      ensures filesPerCommit != [] ==>
                && 2 * (Sum(filesPerCommit) - r * |filesPerCommit|) <= |filesPerCommit|
                && 2 * (r * |filesPerCommit| - Sum(filesPerCommit)) <= |filesPerCommit|
                && Min(filesPerCommit) <= r <= Max(filesPerCommit)
    // exactly halfway between two integers, the even one
    ensures filesPerCommit != [] ==>
              var twice := 2 * (Sum(filesPerCommit) - r * |filesPerCommit|);
              (twice == |filesPerCommit| || twice == -|filesPerCommit|) ==> r % 2 == 0
    {
      if filesPerCommit == [] then 0
      else
        RoundedMeanBetween(filesPerCommit);
        RoundedMean(filesPerCommit)
    }
  }

  /** No commit modifies a negative number of files, so the maximum of a
      traversal is never negative. */
  lemma MaximumNonNegative(commits: seq<Commit>)
    ensures NonNegative(FileCounts(commits))
    ensures commits != [] ==> Max(FileCounts(commits)) >= 0
  {
    var counts := FileCounts(commits);
    if commits != [] {
      assert counts[0] >= 0;
    }
  }
}
