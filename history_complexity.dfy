/** The history complexity period factor: every file's share of the lines
    changed in a period, weighted by the normalised entropy of those
    shares. */
module HistoryComplexity {
  import opened Wrappers
  import opened History
  import opened ChangeStream
  import opened Aggregates
  import opened Columns

  /** The size a change adds to its file's volume: its changed lines when
      there are some, nothing otherwise. */
  function PositiveSize(fc: FileChange): int {
    if LinesChanged(fc) > 0 then LinesChanged(fc) else 0
  }

  /** The volume of a path's records. */
  function Volume(b: seq<ChangeRecord>): int {
    Sum(Column(b, PositiveSize))
  }

  /** The files that count: those with at least one change of positive
      size. */
  function ChangedFiles(rs: seq<ChangeRecord>): (fs: set<Path>)
    ensures fs <= Paths(rs)
  {
    set p | p in Paths(rs) && Volume(Bucket(rs, p)) > 0
  }

  /** The expected `file_changes` after the walk: the volume of every
      changed file. */
  function Volumes(rs: seq<ChangeRecord>): (m: map<Path, int>)
    ensures m.Keys == ChangedFiles(rs)
  {
    map p | p in ChangedFiles(rs) :: Volume(Bucket(rs, p))
  }

  /** `file_changes` as the walk fills it: a change of positive size adds
      its lines to its path's count, which starts at zero. */
  function SizeFold(rs: seq<ChangeRecord>): map<Path, int> {
    if rs == [] then map[]
    else
      var m := SizeFold(rs[..|rs| - 1]);
      var r := rs[|rs| - 1];
      var size := LinesChanged(r.change);
      if size > 0 then m[r.path := (if r.path in m then m[r.path] else 0) + size] else m
  }

  lemma SizeSnoc(rs: seq<ChangeRecord>, r: ChangeRecord)
    ensures var m := SizeFold(rs);
            var size := LinesChanged(r.change);
            SizeFold(rs + [r]) == if size > 0 then m[r.path := (if r.path in m then m[r.path] else 0) + size] else m
  {
    assert (rs + [r])[..|rs|] == rs;
  }

  /** No volume is negative. */
  lemma {:induction false} VolumeNonNegative(b: seq<ChangeRecord>)
    ensures Volume(b) >= 0
  {
    if b != [] {
      VolumeNonNegative(b[..|b| - 1]);
      ColumnLast(b, PositiveSize);
    }
  }

  /** One more record adds its positive size to its path's volume. */
  lemma VolumeSnoc(b: seq<ChangeRecord>, r: ChangeRecord)
    ensures Volume(b + [r]) == Volume(b) + PositiveSize(r.change)
  {
    ColumnLast(b + [r], PositiveSize);
    assert (b + [r])[..|b|] == b;
  }

  /** One path of the walk: present exactly for the changed files, holding
      their volume. */
  lemma {:induction false} SizeFoldAt(rs: seq<ChangeRecord>, p: Path)
    ensures p in SizeFold(rs) <==> p in ChangedFiles(rs)
    ensures p in SizeFold(rs) ==> SizeFold(rs)[p] == Volume(Bucket(rs, p))
  {
    if rs != [] {
      var init := rs[..|rs| - 1];
      var r := rs[|rs| - 1];
      assert rs == init + [r];
      SizeFoldAt(init, p);
      SizeSnoc(init, r);
      GroupSnoc(init, r);
      if p == r.path {
        SizeLast(init, r);
      }
    }
  }

  /** The record a walk visits last updates its own path's volume. */
  lemma SizeLast(init: seq<ChangeRecord>, r: ChangeRecord)
    requires r.path in SizeFold(init) <==> r.path in ChangedFiles(init)
    requires r.path in SizeFold(init) ==> SizeFold(init)[r.path] == Volume(Bucket(init, r.path))
    ensures r.path in SizeFold(init + [r]) <==> r.path in ChangedFiles(init + [r])
    ensures r.path in SizeFold(init + [r]) ==> SizeFold(init + [r])[r.path] == Volume(Bucket(init + [r], r.path))
  {
    var b := Bucket(init, r.path);
    BucketNonEmpty(init, r.path);
    SizeSnoc(init, r);
    GroupSnoc(init, r);
    VolumeSnoc(b, r);
    VolumeNonNegative(b);
  }

  lemma SizeFoldByPath(rs: seq<ChangeRecord>)
    ensures SizeFold(rs) == Volumes(rs)
  {
    var folded, expected := SizeFold(rs), Volumes(rs);
    forall p | p in folded || p in expected
      ensures p in folded && p in expected && folded[p] == expected[p]
    {
      SizeFoldAt(rs, p);
    }
  }

  /** A file's share of the total volume of the period. */
  ghost function Share(volumes: map<Path, int>, p: Path): real
    requires p in volumes && MapSum(volumes) != 0
  {
    volumes[p] as real / MapSum(volumes) as real
  }

  /** A file's score: its share times the entropy, as a percentage. */
  function Score(share: real, normalizedEntropy: real): real {
    share * normalizedEntropy * 100.0
  }

  /** `calculate`: the volumes of the changed files, their shares of the
      total, and each share times the normalised entropy, as a percentage.
      The entropy of the shares, `-sum(p * log(p + 1e-10, n))`, is the
      parameter `entropy`; it is used only when two or more files
      changed. */
  method Calculate(commits: seq<Commit>, entropy: real) returns (result: map<Path, real>)
    ensures var rs := Project(Touches(commits));
            && result.Keys == ChangedFiles(rs)
            && forall p :: p in result ==>
                 MapSum(Volumes(rs)) > 0 &&
                 result[p] == Score(Share(Volumes(rs), p), if |result| > 1 then entropy else 0.0)
    ensures |result| < 2 ==> forall p :: p in result ==> result[p] == 0.0
    // the documented range, for a normalised entropy
    ensures 0.0 <= entropy <= 1.0 ==> forall p :: p in result ==> 0.0 <= result[p] <= 100.0
  {
    var fileChanges := CollectSizes(commits);
    var totalChangeVolume := SumValues(fileChanges);
    var modifiedFileCount := |fileChanges|;
    PositiveTotal(Project(Touches(commits)));
    var shares := Normalise(fileChanges, totalChangeVolume);
    var normalizedEntropy := 0.0;
    if modifiedFileCount > 1 {
      normalizedEntropy := entropy;
    }
    result := Scores(shares, normalizedEntropy);
    assert |result| == |result.Keys| == |fileChanges.Keys| == modifiedFileCount;
    forall p | p in result
      ensures result[p] == Score(Share(fileChanges, p), if |result| > 1 then entropy else 0.0)
    {
      assert shares[p] == Share(fileChanges, p);
    }
    if 0.0 <= entropy <= 1.0 {
      forall p | p in result
        ensures 0.0 <= result[p] <= 100.0
      {
        ScoreWithinPercent(Project(Touches(commits)), p, if |result| > 1 then entropy else 0.0);
      }
    }
  }

  /** The result loop: every share times the entropy, as a percentage. */
  method Scores(shares: map<Path, real>, normalizedEntropy: real) returns (result: map<Path, real>)
    ensures result.Keys == shares.Keys
    ensures forall p :: p in result ==> result[p] == Score(shares[p], normalizedEntropy)
  {
    result := map[];
    var remaining := shares.Keys;
    while remaining != {}
      invariant remaining <= shares.Keys
      invariant forall p :: p in result <==> p in shares && p !in remaining
      invariant forall p :: p in result ==> result[p] == Score(shares[p], normalizedEntropy)
      decreases remaining
    {
      var filepath :| filepath in remaining;
      result := result[filepath := Score(shares[filepath], normalizedEntropy)];
      remaining := remaining - {filepath};
    }
  }

  /** When some file changed, the volumes add up to something positive. */
  lemma PositiveTotal(rs: seq<ChangeRecord>)
    ensures Volumes(rs) != map[] ==> MapSum(Volumes(rs)) > 0
    ensures forall p :: p in Volumes(rs) ==> Volumes(rs)[p] > 0
  {
    var m := Volumes(rs);
    assert NonNegativeValues(m);
    MapSumDominates(m);
    if m != map[] {
      var p :| p in m;
      assert m[p] > 0;
    }
  }

  /** The normalisation loop: every volume divided by the total. With no
      changed file it never divides. */
  method Normalise(fileChanges: map<Path, int>, totalChangeVolume: int) returns (shares: map<Path, real>)
    requires fileChanges != map[] ==> totalChangeVolume != 0
    ensures shares.Keys == fileChanges.Keys
    ensures forall p :: p in shares ==> shares[p] == fileChanges[p] as real / totalChangeVolume as real
  {
    shares := map[];
    var remaining := fileChanges.Keys;
    while remaining != {}
      invariant remaining <= fileChanges.Keys
      invariant forall p :: p in shares <==> p in fileChanges && p !in remaining
      invariant forall p :: p in shares ==> shares[p] == fileChanges[p] as real / totalChangeVolume as real
      decreases remaining
    {
      var filepath :| filepath in remaining;
      shares := shares[filepath := fileChanges[filepath] as real / totalChangeVolume as real];
      remaining := remaining - {filepath};
    }
  }

  /** The accumulation loop of `calculate`. */
  method CollectSizes(commits: seq<Commit>) returns (fileChanges: map<Path, int>)
    ensures fileChanges == Volumes(Project(Touches(commits)))
  {
    fileChanges := map[];
    var pathMappings: map<Path, Path> := map[];
    ghost var done: seq<Touch> := [];
    for i := 0 to |commits|
      invariant done == Touches(commits[..i])
      invariant pathMappings == TableAfter(done)
      invariant fileChanges == SizeFold(Project(done))
    {
      pathMappings, fileChanges := CollectCommit(commits[i], pathMappings, fileChanges, done);
      done := done + TouchesOf(commits[i]);
      TouchesSnoc(commits, i);
    }
    assert commits[..|commits|] == commits;
    SizeFoldByPath(Project(Touches(commits)));
  }

  /** The walk over the file changes of one commit. */
  method CollectCommit(commit: Commit, pathMappings: map<Path, Path>,
                       fileChanges: map<Path, int>, ghost before: seq<Touch>)
    returns (renames: map<Path, Path>, sizes: map<Path, int>)
    requires pathMappings == TableAfter(before)
    requires fileChanges == SizeFold(Project(before))
    ensures renames == TableAfter(before + TouchesOf(commit))
    ensures sizes == SizeFold(Project(before + TouchesOf(commit)))
  {
    renames, sizes := pathMappings, fileChanges;
    ghost var done := before;
    for j := 0 to |commit.changes|
      invariant done == before + Tag(commit, commit.changes[..j])
      invariant renames == TableAfter(done)
      invariant sizes == SizeFold(Project(done))
    {
      var change := commit.changes[j];
      var currentPath := Resolve(renames, change.newPath);
      Snoc(done, Touch(commit, change));
      if change.kind == Rename {
        renames := renames[change.oldPath := currentPath];
      }
      sizes := AddSize(sizes, commit, change, currentPath, Project(done));
      TagSnoc(commit, j);
      AppendAssoc(before, Tag(commit, commit.changes[..j]), Touch(commit, change));
      done := done + [Touch(commit, change)];
    }
    assert commit.changes[..|commit.changes|] == commit.changes;
  }

  /** One change: a positive size is added to its path's count, which
      starts at zero. */
  method AddSize(fileChanges: map<Path, int>, commit: Commit, change: FileChange, currentPath: Path,
                 ghost rs: seq<ChangeRecord>)
    returns (sizes: map<Path, int>)
    requires fileChanges == SizeFold(rs)
    ensures sizes == SizeFold(rs + [ChangeRecord(currentPath, commit, change)])
  {
    SizeSnoc(rs, ChangeRecord(currentPath, commit, change));
    sizes := fileChanges;
    var changeSize := LinesChanged(change);
    if changeSize > 0 {
      sizes := sizes[currentPath := (if currentPath in sizes then sizes[currentPath] else 0) + changeSize];
    }
  }

  /** Every changed file's share lies in (0, 1]. */
  lemma ShareBounds(rs: seq<ChangeRecord>, p: Path)
    requires p in ChangedFiles(rs)
    ensures MapSum(Volumes(rs)) > 0
    ensures 0.0 < Share(Volumes(rs), p) <= 1.0
  {
    var m := Volumes(rs);
    PositiveTotal(rs);
    MapSumDominates(m);
    FractionBounds(m[p], MapSum(m));
  }

  /** With a normalised entropy in [0, 1], every changed file scores
      between 0 and 100. */
  lemma ScoreWithinPercent(rs: seq<ChangeRecord>, p: Path, entropy: real)
    requires p in ChangedFiles(rs)
    requires 0.0 <= entropy <= 1.0
    ensures MapSum(Volumes(rs)) > 0
    ensures 0.0 <= Score(Share(Volumes(rs), p), entropy) <= 100.0
  {
    ShareBounds(rs, p);
    var share := Share(Volumes(rs), p);
    ScoreWithin(share, entropy);
  }

  /** A share and an entropy in [0, 1] score between 0 and 100. */
  lemma ScoreWithin(share: real, entropy: real)
    requires 0.0 <= share <= 1.0 && 0.0 <= entropy <= 1.0
    ensures 0.0 <= Score(share, entropy) <= 100.0
  {
    var product := share * entropy;
    assert 0.0 <= product by {
      assert share * entropy >= 0.0 * entropy;
    }
    assert product <= share by {
      assert share * (1.0 - entropy) >= 0.0;
    }
    assert Score(share, entropy) == product * 100.0;
  }

  /** A file's share is the whole exactly when it is the only changed
      file. */
  lemma WholeShare(rs: seq<ChangeRecord>, p: Path)
    requires p in ChangedFiles(rs)
    ensures MapSum(Volumes(rs)) > 0
    ensures Share(Volumes(rs), p) == 1.0 <==> ChangedFiles(rs) == {p}
  {
    var m := Volumes(rs);
    PositiveTotal(rs);
    MapSumDominates(m);
    FractionBounds(m[p], MapSum(m));
    if m[p] == MapSum(m) {
      OnlyFile(m, p);
    }
    MapSumRemove(m, p);
    var rest := m - {p};
    if ChangedFiles(rs) == {p} {
      assert rest.Keys == {};
      assert rest == map[];
    }
  }

  /** With positive counts, one whose count is the whole total is the only
      one. */
  lemma OnlyFile(m: map<Path, int>, p: Path)
    requires forall q :: q in m ==> m[q] > 0
    requires p in m && m[p] == MapSum(m)
    ensures m.Keys == {p}
  {
    MapSumRemove(m, p);
    var rest := m - {p};
    assert NonNegativeValues(rest);
    MapSumDominates(rest);
    assert forall q :: q !in rest;
    assert forall q :: q in m ==> q == p || q in rest;
  }

  /** A stream whose changes touch no line leaves no changed file, so the
      result is empty and nothing is divided. */
  lemma {:induction false} NoLinesNoFiles(rs: seq<ChangeRecord>)
    requires forall k :: 0 <= k < |rs| ==> LinesChanged(rs[k].change) == 0
    ensures ChangedFiles(rs) == {} && Volumes(rs) == map[]
  {
    if rs != [] {
      var init := rs[..|rs| - 1];
      var r := rs[|rs| - 1];
      assert rs == init + [r];
      NoLinesNoFiles(init);
      GroupSnoc(init, r);
      VolumeSnoc(Bucket(init, r.path), r);
      forall p | p in Paths(rs)
        ensures Volume(Bucket(rs, p)) <= 0
      {
        assert p in Paths(init) ==> p !in ChangedFiles(init);
        if p != r.path {
          assert p in Paths(init);
        } else if p in Paths(init) {
          assert Volume(Bucket(init, p)) <= 0;
        } else {
          BucketNonEmpty(init, p);
          assert Bucket(init, p) == [];
        }
      }
    }
  }
}
