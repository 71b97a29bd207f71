/** The number of commits that touched each file, with renamed files
    counted under their newest name. */
module CommitsCount {
  import opened Wrappers
  import opened History
  import opened ChangeStream
  import opened Aggregates

  function Size(b: seq<ChangeRecord>): int {
    |b|
  }

  /** The expected result: per canonical path, the number of records filed
      under it. */
  function Counts(rs: seq<ChangeRecord>): map<Path, int> {
    PerPath(rs, Size)
  }

  /** The counter's dictionary after a sequence of records: each record
      adds one under its path, starting from zero. */
  function Tally(rs: seq<ChangeRecord>): map<Path, int> {
    if rs == [] then map[]
    else
      var m := Tally(rs[..|rs| - 1]);
      var p := rs[|rs| - 1].path;
      m[p := (if p in m then m[p] else 0) + 1]
  }

  /** The counter's walk over the traversal: resolve each record's path
      through the rename table, record a rename, and add one to the path's
      count. */
  method Count(commits: seq<Commit>) returns (counts: map<Path, int>)
    ensures counts == Counts(Project(Touches(commits)))
  {
    counts := map[];
    var table: map<Path, Path> := map[];
    for i := 0 to |commits|
      invariant table == TableAfter(Touches(commits[..i]))
      invariant counts == Tally(Project(Touches(commits[..i])))
    {
      TouchesSnoc(commits, i);
      table, counts := CountCommit(commits[i], table, counts, Touches(commits[..i]));
    }
    assert commits[..|commits|] == commits;
    TallyCounts(Project(Touches(commits)));
  }

  /** The walk over one commit's modified files. */
  method CountCommit(commit: Commit, table: map<Path, Path>, counts: map<Path, int>, ghost done: seq<Touch>)
    returns (table': map<Path, Path>, counts': map<Path, int>)
    requires table == TableAfter(done)
    requires counts == Tally(Project(done))
    ensures table' == TableAfter(done + Tag(commit, commit.changes))
    ensures counts' == Tally(Project(done + Tag(commit, commit.changes)))
  {
    table', counts' := table, counts;
    ghost var seen := done;
    for j := 0 to |commit.changes|
      invariant seen == done + Tag(commit, commit.changes[..j])
      invariant table' == TableAfter(seen)
      invariant counts' == Tally(Project(seen))
    {
      var fc := commit.changes[j];
      var current := Resolve(table', fc.newPath);
      Snoc(seen, Touch(commit, fc));
      if fc.kind == Rename {
        table' := table'[fc.oldPath := current];
      }
      counts' := AddOne(counts', current, Project(seen), commit, fc);
      SeenSnoc(done, commit, j);
      seen := seen + [Touch(commit, fc)];
    }
    assert commit.changes[..|commit.changes|] == commit.changes;
  }

  /** One record of the walk: one more under its path, which starts at
      zero. */
  method AddOne(counts: map<Path, int>, current: Path, ghost rs: seq<ChangeRecord>, ghost commit: Commit, ghost fc: FileChange)
    returns (counts': map<Path, int>)
    requires counts == Tally(rs)
    ensures counts' == Tally(rs + [ChangeRecord(current, commit, fc)])
  {
    counts' := counts[current := (if current in counts then counts[current] else 0) + 1];
    assert (rs + [ChangeRecord(current, commit, fc)])[..|rs|] == rs;
  }

  /** One more record adds one to its path's count, starting from zero. */
  lemma CountStep(rs: seq<ChangeRecord>, r: ChangeRecord)
    ensures Counts(rs + [r]) == Counts(rs)[r.path := (if r.path in Counts(rs) then Counts(rs)[r.path] else 0) + 1]
  {
    PerPathSnoc(rs, r, Size);
    BucketNonEmpty(rs, r.path);
  }

  /** The dictionary the counter builds holds, for each path, the number of
      records filed under it. */
  lemma {:induction false} TallyCounts(rs: seq<ChangeRecord>)
    ensures Tally(rs) == Counts(rs)
  {
    if rs != [] {
      var init := rs[..|rs| - 1];
      TallyCounts(init);
      assert rs == init + [rs[|rs| - 1]];
      CountStep(init, rs[|rs| - 1]);
    }
  }

  /** Every record adds exactly one to exactly one path: the counts add up
      to the number of records. */
  lemma {:induction false} CountsTotal(rs: seq<ChangeRecord>)
    ensures MapSum(Counts(rs)) == |rs|
  {
    if rs != [] {
      var init := rs[..|rs| - 1];
      var r := rs[|rs| - 1];
      assert rs == init + [r];
      CountsTotal(init);
      CountStep(init, r);
      var before := if r.path in Counts(init) then Counts(init)[r.path] else 0;
      MapSumUpdate(Counts(init), r.path, before + 1);
    }
  }

  /** Every path that appears has a count of at least one, and the paths
      counted are exactly the canonical paths produced. */
  lemma CountsPositive(rs: seq<ChangeRecord>)
    ensures Counts(rs).Keys == Paths(rs)
    ensures forall p :: p in Counts(rs) ==> Counts(rs)[p] >= 1
  {
    forall p | p in Counts(rs)
      ensures Counts(rs)[p] >= 1
    {
      BucketNonEmpty(rs, p);
    }
  }

  /** Over a whole traversal the counts add up to the number of modified-file
      records. */
  lemma CountsCoverTraversal(commits: seq<Commit>)
    ensures MapSum(Counts(Project(Touches(commits)))) == |Touches(commits)|
  {
    CountsTotal(Project(Touches(commits)));
  }

  /** In the renamed-then-added history, `new.txt` is counted twice and no
      other path is counted. */
  lemma RenamedFileCountedTwice()
    ensures Counts(Project(Touches([RenamingCommit, AddingCommit]))) == map[Some("new.txt") := 2]
  {
    RenamedFileKeepsOneBucket();
  }
}
