/** Code churn: per file, the volume of every change to it, either net
    (added minus deleted lines) or total (added plus deleted lines), with the
    option of leaving out the records that add a file. */
module CodeChurn {
  import opened Wrappers
  import opened History
  import opened ChangeStream
  import opened Aggregates
  import opened Columns

  /** The net volume of a change: added minus deleted lines, possibly
      negative. */
  function NetVolume(fc: FileChange): int {
    fc.added - fc.deleted
  }

  /** The volume the analyser records, by its flag: the total volume is
      the number of lines changed. */
  function Volume(useTotal: bool): FileChange -> int {
    if useTotal then LinesChanged else NetVolume
  }

  /** The records churn takes into account: all of them, or all but those
      adding a file when new files are skipped. */
  function Kept(rs: seq<ChangeRecord>, skipNew: bool): (ks: seq<ChangeRecord>)
    ensures |ks| <= |rs|
  {
    if rs == [] then []
    else
      var r := rs[|rs| - 1];
      Kept(rs[..|rs| - 1], skipNew) + (if skipNew && r.change.kind == Add then [] else [r])
  }

  /** With new files skipped, no kept record adds a file; every other record
      is kept. */
  lemma {:induction false} KeptRecords(rs: seq<ChangeRecord>, skipNew: bool)
    ensures skipNew ==> forall k :: 0 <= k < |Kept(rs, skipNew)| ==> Kept(rs, skipNew)[k].change.kind != Add
    ensures forall r :: r in rs && !(skipNew && r.change.kind == Add) ==> r in Kept(rs, skipNew)
    ensures forall r :: r in Kept(rs, skipNew) ==> r in rs
  {
    if rs != [] {
      var init := rs[..|rs| - 1];
      KeptRecords(init, skipNew);
      assert rs == init + [rs[|rs| - 1]];
    }
  }

  /** The line counts of the last record of a path. */
  function LastLines(b: seq<ChangeRecord>): (int, int) {
    if b == [] then (0, 0) else (b[|b| - 1].change.added, b[|b| - 1].change.deleted)
  }

  /** The expected `line_changes`: per path, the line counts of its last kept
      record. */
  function LinesByPath(ks: seq<ChangeRecord>): map<Path, (int, int)> {
    map p | p in Paths(ks) :: LastLines(Bucket(ks, p))
  }

  /** The `line_changes` dictionary as the walk fills it: each kept record
      overwrites its path's pair. */
  function LinesFold(ks: seq<ChangeRecord>): map<Path, (int, int)> {
    if ks == [] then map[]
    else
      var r := ks[|ks| - 1];
      LinesFold(ks[..|ks| - 1])[r.path := (r.change.added, r.change.deleted)]
  }

  /** One path of the line-count fold: present exactly for the paths of the
      records, holding the counts of that path's last record. */
  lemma {:induction false} LinesFoldAt(ks: seq<ChangeRecord>, p: Path)
    ensures p in LinesFold(ks) <==> p in Paths(ks)
    ensures p in Paths(ks) ==> LinesFold(ks)[p] == LastLines(Bucket(ks, p))
  {
    if ks != [] {
      var init := ks[..|ks| - 1];
      var r := ks[|ks| - 1];
      LinesFoldAt(init, p);
      assert ks == init + [r];
      GroupSnoc(init, r);
    }
  }

  /** The walk's pairs are the per-path ones: each path holds the line
      counts of its last kept record. */
  lemma LinesByPathFold(ks: seq<ChangeRecord>)
    ensures LinesFold(ks) == LinesByPath(ks)
  {
    var lines, expected := LinesFold(ks), LinesByPath(ks);
    forall p | p in lines || p in expected
      ensures p in lines && p in expected && lines[p] == expected[p]
    {
      LinesFoldAt(ks, p);
    }
  }

  /** The churn analyser: its two flags and the two dictionaries it fills
      once, when it is created. */
  class ChangeVolume {
    const skipNewFiles: bool
    const useTotalChanges: bool
    var lineChanges: map<Path, (int, int)>
    var fileChanges: map<Path, seq<int>>
    /** The records the dictionaries were built from. */
    ghost var kept: seq<ChangeRecord>

    ghost predicate Valid()
      reads this
    {
      && fileChanges == ColumnsByPath(kept, Volume(useTotalChanges))
      && lineChanges == LinesByPath(kept)
      && (skipNewFiles ==> forall k :: 0 <= k < |kept| ==> kept[k].change.kind != Add)
    }

    /** Stores the flags and walks the traversal. */
    constructor (commits: seq<Commit>, skipNewFiles: bool, useTotalChanges: bool)
      ensures this.skipNewFiles == skipNewFiles && this.useTotalChanges == useTotalChanges
      ensures kept == Kept(Project(Touches(commits)), skipNewFiles)
      ensures Valid()
    {
      this.skipNewFiles := skipNewFiles;
      this.useTotalChanges := useTotalChanges;
      lineChanges := map[];
      fileChanges := map[];
      kept := [];
      new;
      CollectChanges(commits);
    }

    /** The walk: resolve each record's path, record a rename, and unless
        the record adds a file that is to be skipped, store its line counts
        and append its volume under its path. */
    method CollectChanges(commits: seq<Commit>)
      requires lineChanges == map[] && fileChanges == map[] && kept == []
      modifies this
      ensures kept == Kept(Project(Touches(commits)), skipNewFiles)
      ensures fileChanges == ColumnsByPath(kept, Volume(useTotalChanges))
      ensures lineChanges == LinesByPath(kept)
      ensures Valid()
    {
      var fileRenames: map<Path, Path> := map[];
      ghost var done: seq<Touch> := [];
      for i := 0 to |commits|
        invariant done == Touches(commits[..i])
        invariant fileRenames == TableAfter(done)
        invariant kept == Kept(Project(done), skipNewFiles)
        invariant fileChanges == AppendFold(kept, Volume(useTotalChanges))
        invariant lineChanges == LinesFold(kept)
      {
        fileRenames := CollectCommit(commits[i], fileRenames, done);
        done := done + Tag(commits[i], commits[i].changes);
        TouchesSnoc(commits, i);
      }
      assert commits[..|commits|] == commits;
      AppendFoldByPath(kept, Volume(useTotalChanges));
      LinesByPathFold(kept);
      KeptRecords(Project(Touches(commits)), skipNewFiles);
    }

    /** The walk over the modified files of one commit, from the rename
        table and kept records left by the commits before it. */
    method CollectCommit(commit: Commit, fileRenames: map<Path, Path>, ghost before: seq<Touch>)
      returns (renames: map<Path, Path>)
      requires fileRenames == TableAfter(before)
      requires kept == Kept(Project(before), skipNewFiles)
      requires fileChanges == AppendFold(kept, Volume(useTotalChanges)) && lineChanges == LinesFold(kept)
      modifies this
      ensures renames == TableAfter(before + Tag(commit, commit.changes))
      ensures kept == Kept(Project(before + Tag(commit, commit.changes)), skipNewFiles)
      ensures fileChanges == AppendFold(kept, Volume(useTotalChanges)) && lineChanges == LinesFold(kept)
    {
      renames := fileRenames;
      ghost var done := before;
      for j := 0 to |commit.changes|
        invariant done == before + Tag(commit, commit.changes[..j])
        invariant renames == TableAfter(done)
        invariant kept == Kept(Project(done), skipNewFiles)
        invariant fileChanges == AppendFold(kept, Volume(useTotalChanges))
        invariant lineChanges == LinesFold(kept)
      {
        var changedFile := commit.changes[j];
        var currentPath := Resolve(renames, changedFile.newPath);
        ChurnStep(done, Touch(commit, changedFile), skipNewFiles, useTotalChanges);
        if changedFile.kind == Rename {
          renames := renames[changedFile.oldPath := currentPath];
        }
        TagSnoc(commit, j);
        AppendAssoc(before, Tag(commit, commit.changes[..j]), Touch(commit, changedFile));
        done := done + [Touch(commit, changedFile)];
        if skipNewFiles && changedFile.kind == Add {
          continue;
        }
        Store(currentPath, commit, changedFile);
      }
      assert commit.changes[..|commit.changes|] == commit.changes;
    }

    /** Stores one kept record: its line counts replace the path's pair and
        its volume is appended to the path's list. */
    method Store(currentPath: Path, commit: Commit, changedFile: FileChange)
      requires fileChanges == AppendFold(kept, Volume(useTotalChanges)) && lineChanges == LinesFold(kept)
      modifies this
      ensures kept == old(kept) + [ChangeRecord(currentPath, commit, changedFile)]
      ensures fileChanges == AppendFold(kept, Volume(useTotalChanges)) && lineChanges == LinesFold(kept)
    {
      ghost var record := ChangeRecord(currentPath, commit, changedFile);
      AppendSnoc(kept, record, Volume(useTotalChanges));
      LinesSnoc(kept, record);
      ghost var volumesBefore := AppendFold(kept, Volume(useTotalChanges));
      var additions: int := changedFile.added;
      var deletions: int := changedFile.deleted;
      lineChanges := lineChanges[currentPath := (additions, deletions)];
      var changeVolume := if useTotalChanges then additions + deletions else additions - deletions;
      var history := if currentPath in fileChanges then fileChanges[currentPath] else [];
      assert history == (if record.path in volumesBefore then volumesBefore[record.path] else []);
      assert changeVolume == Volume(useTotalChanges)(record.change);
      fileChanges := fileChanges[currentPath := history + [changeVolume]];
      kept := kept + [record];
    }

    /** `get_line_modifications`: the stored pairs. */
    function LineModifications(): (r: map<Path, (int, int)>)
      requires Valid()
      reads this
      ensures r.Keys == fileChanges.Keys
      ensures forall p :: p in r ==> r[p] == LastLines(Bucket(kept, p))
    {
      lineChanges
    }

    /** `total_changes`: per path, the sum of the volumes of its records. */
    function TotalChanges(): (r: map<Path, int>)
      requires Valid()
      reads this
      ensures r.Keys == Paths(kept)
      ensures forall p :: p in r ==> r[p] == Sum(Column(Bucket(kept, p), Volume(useTotalChanges)))
    {
      map p | p in fileChanges :: Sum(fileChanges[p])
    }

    /** `peak_change`: per path, the largest volume of any one of its
        records. */
    function PeakChange(): (r: map<Path, int>)
      requires Valid()
      reads this
      ensures r.Keys == Paths(kept)
      ensures forall p :: p in r ==> IsMax(fileChanges[p], r[p])
    {
      map p | p in fileChanges :: (BucketNonEmpty(kept, p); Max(fileChanges[p]))
    }

    /** `average_change`: per path, the mean volume rounded half to even. */
    function AverageChange(): (r: map<Path, int>)
      requires Valid()
      reads this
      ensures r.Keys == Paths(kept)
    {
      map p | p in fileChanges :: (BucketNonEmpty(kept, p); RoundedMean(fileChanges[p]))
    }
  }

  /** One record of the walk: the table takes one step, and the kept records
      and both dictionaries grow by the record unless it is a skipped
      addition. */
  lemma ChurnStep(done: seq<Touch>, t: Touch, skipNew: bool, useTotal: bool)
    ensures TableAfter(done + [t]) == Track(TableAfter(done), t.change)
    ensures var r := ChangeRecord(Resolve(TableAfter(done), t.change.newPath), t.commit, t.change);
            Kept(Project(done + [t]), skipNew)
              == Kept(Project(done), skipNew) + (if skipNew && t.change.kind == Add then [] else [r])
  {
    Snoc(done, t);
    var r := ChangeRecord(Resolve(TableAfter(done), t.change.newPath), t.commit, t.change);
    assert (Project(done) + [r])[..|done|] == Project(done);
  }

  /** Appending a kept record overwrites its path's pair. */
  lemma LinesSnoc(ks: seq<ChangeRecord>, r: ChangeRecord)
    ensures LinesFold(ks + [r]) == LinesFold(ks)[r.path := (r.change.added, r.change.deleted)]
  {
    assert (ks + [r])[..|ks|] == ks;
  }

  /** With total volumes every volume is non-negative, so the largest one
      of a path never exceeds its sum. */
  lemma PeakAtMostTotal(cv: ChangeVolume)
    requires cv.Valid() && cv.useTotalChanges
    ensures forall p :: p in cv.fileChanges ==> cv.PeakChange()[p] <= cv.TotalChanges()[p]
  {
    forall p | p in cv.fileChanges
      ensures cv.PeakChange()[p] <= cv.TotalChanges()[p]
    {
      BucketNonEmpty(cv.kept, p);
      var b := Bucket(cv.kept, p);
      var vs := Column(b, LinesChanged);
      assert cv.fileChanges[p] == vs;
      assert NonNegative(vs) by {
        forall k | 0 <= k < |vs| ensures vs[k] >= 0 {
          assert vs[k] == LinesChanged(b[k].change);
        }
      }
      MaxAtMostSum(vs);
    }
  }

  /** The rounded average of a path lies between its smallest and its
      largest volume. */
  lemma AverageWithinVolumes(cv: ChangeVolume, p: Path)
    requires cv.Valid() && p in cv.fileChanges
    ensures |cv.fileChanges[p]| > 0 && Min(cv.fileChanges[p]) <= cv.AverageChange()[p] <= cv.PeakChange()[p]
  {
    BucketNonEmpty(cv.kept, p);
    RoundedMeanBetween(cv.fileChanges[p]);
  }

  /** A path's list has one entry per kept record of the path. */
  lemma OneVolumePerRecord(cv: ChangeVolume, p: Path)
    requires cv.Valid() && p in cv.fileChanges
    ensures |cv.fileChanges[p]| == |Bucket(cv.kept, p)| > 0
  {
    BucketNonEmpty(cv.kept, p);
  }
}
