/** Ownership per file: the share of a file's changed lines written by its
    most active author. */
module ContributorsExperience {
  import opened Wrappers
  import opened History
  import opened ChangeStream
  import opened Aggregates
  import opened Authorship

  /** The files that appear in the distribution: those whose records
      changed at least one line. */
  function ChangedPaths(rs: seq<ChangeRecord>): (ps: set<Path>)
    ensures ps <= Paths(rs)
  {
    set p | p in Paths(rs) && TotalLines(Bucket(rs, p)) > 0
  }

  /** `max(contributions.values()) * 100 / total`, over exact rationals. */
  ghost function TopShare(contributions: map<string, int>): real
    requires contributions != map[] && MapSum(contributions) != 0
  {
    Percent(MapMax(contributions), MapSum(contributions))
  }

  /** `calculate_distribution`: the per-file, per-author contributions of the
      stream, then the top author's share of every file with a positive
      total. */
  method CalculateDistribution(commits: seq<Commit>) returns (result: map<Path, real>)
    ensures forall p :: p in result <==> p in ChangedPaths(Project(Touches(commits)))
    ensures forall p :: p in result ==>
              var b := Bucket(Project(Touches(commits)), p);
              Contributions(b) != map[] && MapSum(Contributions(b)) == TotalLines(b) &&
              result[p] == TopShare(Contributions(b))
  {
    var authorship := CollectAuthorship(commits);
    result := TopShares(authorship);
    ghost var rs := Project(Touches(commits));
    forall p | p in authorship
      ensures MapSum(authorship[p]) == TotalLines(Bucket(rs, p))
      ensures authorship[p] == Contributions(Bucket(rs, p))
    {
      ContributionsTotal(Bucket(rs, p));
    }
  }

  /** The nested loop of `calculate_distribution`: every record credits its
      lines to its author under its canonical path. */
  method CollectAuthorship(commits: seq<Commit>) returns (authorship: map<Path, map<string, int>>)
    ensures authorship == ContributionsByPath(Project(Touches(commits)))
  {
    authorship := map[];
    var pathMapping: map<Path, Path> := map[];
    ghost var done: seq<Touch> := [];
    for i := 0 to |commits|
      invariant done == Touches(commits[..i])
      invariant pathMapping == TableAfter(done)
      invariant authorship == AccumulateFold(Project(done))
    {
      pathMapping, authorship := CollectCommit(commits[i], pathMapping, authorship, done);
      done := done + TouchesOf(commits[i]);
      TouchesSnoc(commits, i);
    }
    assert commits[..|commits|] == commits;
    AccumulateFoldByPath(Project(Touches(commits)));
  }

  /** The walk over the modified files of one commit. */
  method CollectCommit(commit: Commit, pathMapping: map<Path, Path>,
                       authorship: map<Path, map<string, int>>, ghost before: seq<Touch>)
    returns (renames: map<Path, Path>, updated: map<Path, map<string, int>>)
    requires pathMapping == TableAfter(before)
    requires authorship == AccumulateFold(Project(before))
    ensures renames == TableAfter(before + TouchesOf(commit))
    ensures updated == AccumulateFold(Project(before + TouchesOf(commit)))
  {
    renames, updated := pathMapping, authorship;
    ghost var done := before;
    for j := 0 to |commit.changes|
      invariant done == before + Tag(commit, commit.changes[..j])
      invariant renames == TableAfter(done)
      invariant updated == AccumulateFold(Project(done))
    {
      var fileChange := commit.changes[j];
      var currentPath := Resolve(renames, fileChange.newPath);
      Snoc(done, Touch(commit, fileChange));
      if fileChange.kind == Rename {
        renames := renames[fileChange.oldPath := currentPath];
      }
      updated := AddContribution(updated, commit, fileChange, currentPath, Project(done));
      TagSnoc(commit, j);
      AppendAssoc(before, Tag(commit, commit.changes[..j]), Touch(commit, fileChange));
      done := done + [Touch(commit, fileChange)];
    }
    assert commit.changes[..|commit.changes|] == commit.changes;
  }

  /** One record: the path's dictionary and the author's counter are
      created at zero on first sight, then the record's lines are added. */
  method AddContribution(authorship: map<Path, map<string, int>>, commit: Commit, fileChange: FileChange,
                         currentPath: Path, ghost rs: seq<ChangeRecord>)
    returns (updated: map<Path, map<string, int>>)
    requires authorship == AccumulateFold(rs)
    ensures updated == AccumulateFold(rs + [ChangeRecord(currentPath, commit, fileChange)])
  {
    AccumulateSnoc(rs, ChangeRecord(currentPath, commit, fileChange));
    var contributor := Contributor(commit);
    var contributionSize := LinesChanged(fileChange);
    updated := authorship;
    if currentPath !in updated {
      updated := updated[currentPath := map[]];
    }
    var contributions := updated[currentPath];
    ghost var started := contributions;
    if contributor !in contributions {
      contributions := contributions[contributor := 0];
    }
    contributions := contributions[contributor := contributions[contributor] + contributionSize];
    DefaultThenAdd(started, contributor, contributionSize);
    ReplaceTwice(authorship, currentPath, map[], contributions);
    updated := updated[currentPath := contributions];
  }

  /** Creating a missing counter at zero and then adding `n` is crediting
      `n`. */
  lemma DefaultThenAdd(m: map<string, int>, a: string, n: int)
    ensures var d := if a in m then m else m[a := 0];
            d[a := d[a] + n] == Credit(m, a, n)
  {
  }

  /** A value stored and then overwritten leaves only the second. */
  lemma ReplaceTwice<K, V>(m: map<K, V>, k: K, first: V, second: V)
    ensures m[k := first][k := second] == m[k := second]
  {
  }

  /** The second loop of `calculate_distribution`: every file with a
      positive total gets its top author's share. */
  method TopShares(authorship: map<Path, map<string, int>>) returns (result: map<Path, real>)
    ensures forall p :: p in result <==> p in authorship && MapSum(authorship[p]) > 0
    ensures forall p :: p in result ==> authorship[p] != map[] && result[p] == TopShare(authorship[p])
  {
    result := map[];
    var remaining := authorship.Keys;
    while remaining != {}
      invariant remaining <= authorship.Keys
      invariant forall p :: p in result <==> p in authorship && p !in remaining && MapSum(authorship[p]) > 0
      invariant forall p :: p in result ==> authorship[p] != map[] && result[p] == TopShare(authorship[p])
      decreases remaining
    {
      var filepath :| filepath in remaining;
      var contributions := authorship[filepath];
      var totalChanges := SumValues(contributions);
      if totalChanges > 0 {
        var maxContribution := MaxValue(contributions);
        result := result[filepath := Percent(maxContribution, totalChanges)];
      }
      remaining := remaining - {filepath};
    }
  }

  /** With no negative counts and a positive total, the top count lies
      between the total shared out evenly and the whole total. */
  lemma TopBetween(contributions: map<string, int>)
    requires NonNegativeValues(contributions) && MapSum(contributions) > 0
    ensures contributions != map[]
    ensures 0 < MapMax(contributions) <= MapSum(contributions) <= |contributions| * MapMax(contributions)
  {
    MapSumDominates(contributions);
    var top := MapMax(contributions);
    MapSumAtMostCountTimes(contributions, top);
    var k :| k in contributions && contributions[k] == top;
  }

  /** With no negative counts and a positive total, the top share lies in
      (0, 100]. */
  lemma ShareBounds(contributions: map<string, int>)
    requires NonNegativeValues(contributions) && MapSum(contributions) > 0
    ensures contributions != map[]
    ensures 0.0 < TopShare(contributions) <= 100.0
  {
    TopBetween(contributions);
    PercentBounds(MapMax(contributions), MapSum(contributions));
  }

  /** The top share is exactly 100 if and only if one author made every
      change: everybody else's count is zero. */
  lemma ShareIsFull(contributions: map<string, int>)
    requires NonNegativeValues(contributions) && MapSum(contributions) > 0
    ensures contributions != map[]
    ensures TopShare(contributions) == 100.0 <==>
              exists a :: a in contributions && forall b :: b in contributions && b != a ==> contributions[b] == 0
  {
    TopBetween(contributions);
    var total := MapSum(contributions);
    var top := MapMax(contributions);
    PercentBounds(top, total);
    var k :| k in contributions && contributions[k] == top;
    if top == total {
      OthersZero(contributions, k);
    }
    if exists a :: a in contributions && forall b :: b in contributions && b != a ==> contributions[b] == 0 {
      var a :| a in contributions && forall b :: b in contributions && b != a ==> contributions[b] == 0;
      OnlyOneCounts(contributions, a);
    }
  }

  /** An author whose count is the whole total leaves zero to the others. */
  lemma OthersZero(contributions: map<string, int>, a: string)
    requires NonNegativeValues(contributions) && a in contributions && contributions[a] == MapSum(contributions)
    ensures forall b :: b in contributions && b != a ==> contributions[b] == 0
  {
    MapSumRemove(contributions, a);
    var rest := contributions - {a};
    assert NonNegativeValues(rest);
    MapSumDominates(rest);
    forall b | b in contributions && b != a
      ensures contributions[b] == 0
    {
      assert b in rest;
    }
  }

  /** When every other count is zero, the one author's count is the total
      and the largest. */
  lemma OnlyOneCounts(contributions: map<string, int>, a: string)
    requires NonNegativeValues(contributions) && a in contributions
    requires forall b :: b in contributions && b != a ==> contributions[b] == 0
    ensures contributions[a] == MapSum(contributions) == MapMax(contributions)
  {
    MapSumRemove(contributions, a);
    var rest := contributions - {a};
    MapSumAtMostCountTimes(rest, 0);
    assert NonNegativeValues(rest);
    MapSumDominates(rest);
    MapSumDominates(contributions);
    MapMaxUnique(contributions, contributions[a]);
  }

  /** The top author contributed at least the mean, so the share is at
      least 100 divided by the number of authors. */
  lemma ShareAtLeastEven(contributions: map<string, int>)
    requires NonNegativeValues(contributions) && MapSum(contributions) > 0
    ensures contributions != map[]
    ensures TopShare(contributions) >= Percent(1, |contributions|)
  {
    TopBetween(contributions);
    PercentAtLeastShare(MapMax(contributions), MapSum(contributions), |contributions|);
  }

  /** The three share properties for the files of the distribution. */
  lemma DistributionBounds(rs: seq<ChangeRecord>, p: Path)
    requires p in ChangedPaths(rs)
    ensures Contributions(Bucket(rs, p)) != map[] && MapSum(Contributions(Bucket(rs, p))) == TotalLines(Bucket(rs, p))
    ensures 0.0 < TopShare(Contributions(Bucket(rs, p))) <= 100.0
    ensures |Authors(Bucket(rs, p))| > 0 && TopShare(Contributions(Bucket(rs, p))) >= Percent(1, |Authors(Bucket(rs, p))|)
  {
    var b := Bucket(rs, p);
    ContributionsTotal(b);
    ContributionsNonNegative(b);
    ShareBounds(Contributions(b));
    ShareAtLeastEven(Contributions(b));
  }
}
