/** Contributors per file: how many distinct authors changed each file, and
    how many of them changed less than five per cent of its lines. Files
    whose changes touched no line at all are dropped. */
module ContributorsCount {
  import opened Wrappers
  import opened History
  import opened ChangeStream
  import opened Aggregates
  import opened Columns
  import opened PyText
  import opened Authorship

  /** The paths kept in the results: those whose records changed a line. */
  function ActivePaths(rs: seq<ChangeRecord>): (ps: set<Path>)
    ensures ps <= Paths(rs)
  {
    set p | p in Paths(rs) && TotalLines(Bucket(rs, p)) != 0
  }

  /** The authors credited with less than a twentieth of `total` lines:
      `lines / total < 0.05` over exact rationals. */
  function MinorAuthors(contributions: map<string, int>, total: int): (s: set<string>)
    ensures s <= contributions.Keys
  {
    set a | a in contributions && 20 * contributions[a] < total
  }

  /** `sum(1 for lines in contributions.values() if lines / total < 0.05)`. */
  method CountMinor(contributions: map<string, int>, total: int) returns (n: int)
    ensures n == |MinorAuthors(contributions, total)|
  {
    n := 0;
    var remaining := contributions.Keys;
    ghost var minor: set<string> := {};
    while remaining != {}
      invariant remaining <= contributions.Keys
      invariant minor == set a | a in contributions && a !in remaining && 20 * contributions[a] < total
      invariant n == |minor|
      decreases remaining
    {
      var a :| a in remaining;
      if 20 * contributions[a] < total {
        n := n + 1;
        minor := minor + {a};
      }
      remaining := remaining - {a};
    }
    assert minor == MinorAuthors(contributions, total);
  }

  /** One record of `_compute_metrics`: its lines are added to its
      author's count under its path, both created on first sight. */
  method Accumulate(fileContributors: map<Path, map<string, int>>, commit: Commit, changedFile: FileChange,
                    currentPath: Path, ghost rs: seq<ChangeRecord>)
    returns (contributors: map<Path, map<string, int>>)
    requires fileContributors == AccumulateFold(rs)
    ensures contributors == AccumulateFold(rs + [ChangeRecord(currentPath, commit, changedFile)])
  {
    AccumulateSnoc(rs, ChangeRecord(currentPath, commit, changedFile));
    contributors := fileContributors;
    ghost var started := if currentPath in contributors then contributors[currentPath] else map[];
    var totalChanges := LinesChanged(changedFile);
    if currentPath !in contributors {
      contributors := contributors[currentPath := map[]];
    }
    var contributor := Contributor(commit);
    var contributions := contributors[currentPath];
    assert contributions == started;
    contributors := contributors[currentPath := Authorship.Credit(contributions, contributor, totalChanges)];
  }

  /** The three dictionaries once summarised: they hold exactly the active
      paths of `rs`, with their contributions, their number of authors and
      their number of minor authors. */
  ghost predicate Summarised(rs: seq<ChangeRecord>, contributors: map<Path, map<string, int>>,
                             totals: map<Path, int>, minimals: map<Path, int>)
  {
    && (forall p :: p in contributors <==> p in ActivePaths(rs))
    && (forall p :: p in totals <==> p in ActivePaths(rs))
    && (forall p :: p in minimals <==> p in ActivePaths(rs))
    && (forall p :: p in contributors ==> contributors[p] == Contributions(Bucket(rs, p)))
    && (forall p :: p in totals ==> totals[p] == |Authors(Bucket(rs, p))|)
    && (forall p :: p in minimals ==> minimals[p] == |MinorAuthors(Contributions(Bucket(rs, p)), TotalLines(Bucket(rs, p)))|)
  }

  /** Summarising the per-path contributions of `rs` file by file, keeping
      those whose counts add up to something, yields the summarised
      dictionaries: a file's counts add up to the lines its records changed,
      and it has one count per author. */
  lemma SummaryByPath(rs: seq<ChangeRecord>, snapshot: map<Path, map<string, int>>,
                      contributors: map<Path, map<string, int>>, totals: map<Path, int>, minimals: map<Path, int>)
    requires snapshot == ContributionsByPath(rs)
    requires forall p :: p in contributors <==> p in snapshot && MapSum(snapshot[p]) != 0
    requires forall p :: p in contributors ==> contributors[p] == snapshot[p]
    requires forall p :: p in totals <==> p in snapshot && MapSum(snapshot[p]) != 0
    requires forall p :: p in totals ==> totals[p] == |snapshot[p]|
    requires forall p :: p in minimals <==> p in snapshot && MapSum(snapshot[p]) != 0
    requires forall p :: p in minimals ==> minimals[p] == |MinorAuthors(snapshot[p], MapSum(snapshot[p]))|
    ensures Summarised(rs, contributors, totals, minimals)
  {
    forall p | p in snapshot || p in ActivePaths(rs)
      ensures p in snapshot && (p in ActivePaths(rs) <==> MapSum(snapshot[p]) != 0)
      ensures snapshot[p] == Contributions(Bucket(rs, p)) && MapSum(snapshot[p]) == TotalLines(Bucket(rs, p))
    {
      ContributionsTotal(Bucket(rs, p));
    }
  }

  /** The loop of `_calculate_contributor_counts` over a snapshot of the
      files: a file whose counts add up to zero is deleted, every other gets
      its number of authors and of minor authors. */
  method Summarise(snapshot: map<Path, map<string, int>>, totalsBefore: map<Path, int>, minimalsBefore: map<Path, int>)
    returns (kept: map<Path, map<string, int>>, totals: map<Path, int>, minimals: map<Path, int>)
    requires totalsBefore == map[] && minimalsBefore == map[]
    ensures forall p :: p in kept <==> p in snapshot && MapSum(snapshot[p]) != 0
    ensures forall p :: p in kept ==> kept[p] == snapshot[p]
    ensures forall p :: p in totals <==> p in snapshot && MapSum(snapshot[p]) != 0
    ensures forall p :: p in totals ==> totals[p] == |snapshot[p]|
    ensures forall p :: p in minimals <==> p in snapshot && MapSum(snapshot[p]) != 0
    ensures forall p :: p in minimals ==> minimals[p] == |MinorAuthors(snapshot[p], MapSum(snapshot[p]))|
  {
    kept, totals, minimals := snapshot, totalsBefore, minimalsBefore;
    var remaining := snapshot.Keys;
    while remaining != {}
      invariant remaining <= snapshot.Keys
      invariant forall p :: p in kept <==> p in snapshot && (p in remaining || MapSum(snapshot[p]) != 0)
      invariant forall p :: p in kept ==> kept[p] == snapshot[p]
      invariant forall p :: p in totals <==> p in snapshot && p !in remaining && MapSum(snapshot[p]) != 0
      invariant forall p :: p in totals ==> totals[p] == |snapshot[p]|
      invariant forall p :: p in minimals <==> p in snapshot && p !in remaining && MapSum(snapshot[p]) != 0
      invariant forall p :: p in minimals ==> minimals[p] == |MinorAuthors(snapshot[p], MapSum(snapshot[p]))|
      decreases remaining
    {
      var filepath :| filepath in remaining;
      var contributions := kept[filepath];
      var totalLines := SumValues(contributions);
      if totalLines == 0 {
        kept := kept - {filepath};
      } else {
        totals := totals[filepath := |contributions|];
        var smallContributors := CountMinor(contributions, totalLines);
        minimals := minimals[filepath := smallContributors];
      }
      remaining := remaining - {filepath};
    }
  }

  /** The contributor analyser: the nested per-file, per-author line counts
      and the two per-file results derived from them. */
  class FileContributorMetrics {
    var fileContributors: map<Path, map<string, int>>
    var totalContributors: map<Path, int>
    var minimalContributors: map<Path, int>
    /** The records the dictionaries were built from. */
    ghost var records: seq<ChangeRecord>

    /** The state once the metrics are computed: the three dictionaries
        hold exactly the active paths, with their contributions, their
        number of authors and their number of minor authors. */
    ghost predicate Valid()
      reads this
    {
      Summarised(records, fileContributors, totalContributors, minimalContributors)
    }

    constructor (commits: seq<Commit>)
      ensures records == Project(Touches(commits))
      ensures Valid()
    {
      fileContributors, totalContributors, minimalContributors := map[], map[], map[];
      records := [];
      new;
      ComputeMetrics(commits);
    }

    /** `_compute_metrics`: empty the dictionaries, credit every record's
        lines to its author under its canonical path, then derive the two
        results. */
    method ComputeMetrics(commits: seq<Commit>)
      modifies this
      ensures records == Project(Touches(commits))
      ensures Valid()
    {
      fileContributors, totalContributors, minimalContributors := map[], map[], map[];
      records := [];
      var fileRenames: map<Path, Path> := map[];
      ghost var done: seq<Touch> := [];
      for i := 0 to |commits|
        invariant done == Touches(commits[..i])
        invariant fileRenames == TableAfter(done)
        invariant records == Project(done)
        invariant fileContributors == AccumulateFold(records)
        invariant totalContributors == map[] && minimalContributors == map[]
      {
        fileRenames := AnalyseCommit(commits[i], fileRenames, done);
        done := done + TouchesOf(commits[i]);
        TouchesSnoc(commits, i);
      }
      assert commits[..|commits|] == commits;
      AccumulateFoldByPath(records);
      CalculateContributorCounts();
    }

    /** The accumulation over the modified files of one commit. */
    method AnalyseCommit(commit: Commit, fileRenames: map<Path, Path>, ghost before: seq<Touch>)
      returns (renames: map<Path, Path>)
      requires fileRenames == TableAfter(before)
      requires records == Project(before) && fileContributors == AccumulateFold(records)
      modifies this
      ensures renames == TableAfter(before + TouchesOf(commit))
      ensures records == Project(before + TouchesOf(commit)) && fileContributors == AccumulateFold(records)
      ensures totalContributors == old(totalContributors) && minimalContributors == old(minimalContributors)
    {
      renames := fileRenames;
      ghost var done := before;
      for j := 0 to |commit.changes|
        invariant done == before + Tag(commit, commit.changes[..j])
        invariant renames == TableAfter(done)
        invariant records == Project(done) && fileContributors == AccumulateFold(records)
        invariant totalContributors == old(totalContributors) && minimalContributors == old(minimalContributors)
      {
        var changedFile := commit.changes[j];
        var currentPath := Resolve(renames, changedFile.newPath);
        Snoc(done, Touch(commit, changedFile));
        if changedFile.kind == Rename {
          renames := renames[changedFile.oldPath := currentPath];
        }
        fileContributors := Accumulate(fileContributors, commit, changedFile, currentPath, records);
        records := records + [ChangeRecord(currentPath, commit, changedFile)];
        TagSnoc(commit, j);
        AppendAssoc(before, Tag(commit, commit.changes[..j]), Touch(commit, changedFile));
        done := done + [Touch(commit, changedFile)];
      }
      assert commit.changes[..|commit.changes|] == commit.changes;
    }

    /** `_calculate_contributor_counts`: over a snapshot of the files, drop
        each whose contributions add up to zero, and record for every other
        its number of authors and of minor authors. */
    method CalculateContributorCounts()
      requires fileContributors == ContributionsByPath(records)
      requires totalContributors == map[] && minimalContributors == map[]
      modifies this
      ensures records == old(records)
      ensures Valid()
    {
      var kept, totals, minimals := Summarise(fileContributors, totalContributors, minimalContributors);
      SummaryByPath(records, fileContributors, kept, totals, minimals);
      fileContributors, totalContributors, minimalContributors := kept, totals, minimals;
    }

    /** `get_total_contributors`. */
    function TotalContributors(): (m: map<Path, int>)
      reads this
      requires Valid()
      ensures forall p :: p in m <==> p in ActivePaths(records)
      ensures forall p :: p in m ==> m[p] == |Authors(Bucket(records, p))|
    {
      totalContributors
    }

    /** `get_minimal_contributors`. */
    function MinimalContributors(): (m: map<Path, int>)
      reads this
      requires Valid()
      ensures forall p :: p in m <==> p in ActivePaths(records)
      ensures forall p :: p in m ==>
                m[p] == |MinorAuthors(Contributions(Bucket(records, p)), TotalLines(Bucket(records, p)))|
    {
      minimalContributors
    }
  }

  /** A file that is kept has at least one author, and no more minor
      authors than authors. */
  lemma CountsBounded(rs: seq<ChangeRecord>, p: Path)
    requires p in ActivePaths(rs)
    ensures 1 <= |Authors(Bucket(rs, p))|
    ensures |MinorAuthors(Contributions(Bucket(rs, p)), TotalLines(Bucket(rs, p)))| <= |Authors(Bucket(rs, p))|
  {
    var b := Bucket(rs, p);
    BucketNonEmpty(rs, p);
    AuthorsNonEmpty(b);
    SubsetCardinality(MinorAuthors(Contributions(b), TotalLines(b)), Authors(b));
  }

  /** The largest contributor of a kept file with at most twenty authors
      changed at least a twentieth of its lines, so not every author is a
      minor one. */
  lemma SomeAuthorNotMinor(rs: seq<ChangeRecord>, p: Path)
    requires p in ActivePaths(rs) && |Authors(Bucket(rs, p))| <= 20
    ensures |MinorAuthors(Contributions(Bucket(rs, p)), TotalLines(Bucket(rs, p)))| < |Authors(Bucket(rs, p))|
  {
    var b := Bucket(rs, p);
    var m := Contributions(b);
    var total := TotalLines(b);
    BucketNonEmpty(rs, p);
    AuthorsNonEmpty(b);
    ContributionsTotal(b);
    ContributionsNonNegative(b);
    MapSumDominates(m);
    var x := MapMax(m);
    var top :| top in m && m[top] == x;
    MapSumAtMostCountTimes(m, x);
    assert total <= |m| * x;
    MulMonotone(x, |m|, 20);
    assert top !in MinorAuthors(m, total);
    SubsetCardinality(MinorAuthors(m, total), m.Keys - {top});
  }
}
