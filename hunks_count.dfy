/** Change blocks per file: the number of maximal runs of added or removed
    lines in each diff, and per file the median over its diffs. */
module HunksCount {
  import opened Wrappers
  import opened History
  import opened ChangeStream
  import opened Aggregates
  import opened Columns
  import opened PyText

  /** A diff line that adds or removes text. */
  predicate IsChange(line: string) {
    line != [] && (line[0] == '+' || line[0] == '-')
  }

  /** Line `i` opens a block: it is a change and the line before it is not. */
  predicate StartsBlock(lines: seq<string>, i: nat)
    requires i < |lines|
  {
    IsChange(lines[i]) && (i == 0 || !IsChange(lines[i - 1]))
  }

  /** The number of blocks in `lines`, counted from the left. */
  function RunCount(lines: seq<string>): nat {
    if lines == [] then 0
    else RunCount(lines[..|lines| - 1]) + (if StartsBlock(lines, |lines| - 1) then 1 else 0)
  }

  /** The positions where a block begins. */
  function BlockStarts(lines: seq<string>): set<nat> {
    set i: nat | i < |lines| && StartsBlock(lines, i)
  }

  /** The scan reads `line[0]` of every line, so an empty line is an
      error. */
  predicate AllNonEmpty(lines: seq<string>) {
    forall k :: 0 <= k < |lines| ==> lines[k] != []
  }

  /** The inner loop of `calculate_blocks` over one diff: a change line
      opens a block unless one is open, any other line closes it; an empty
      line fails on `change_line[0]`. */
  method CountBlocks(diff: string) returns (r: Result<nat, string>)
    ensures r.Success? <==> AllNonEmpty(SplitLines(diff))
    ensures r.Success? ==> r.value == RunCount(SplitLines(diff))
  {
    var changes := SplitLines(diff);
    var blockStarted := false;
    var blockCount := 0;
    for j := 0 to |changes|
      invariant AllNonEmpty(changes[..j])
      invariant blockStarted <==> j > 0 && IsChange(changes[j - 1])
      invariant blockCount == RunCount(changes[..j])
    {
      var changeLine := changes[j];
      if changeLine == [] {
        return Failure("string index out of range");
      }
      assert changes[..j + 1][..j] == changes[..j];
      if changeLine[0] == '+' || changeLine[0] == '-' {
        if !blockStarted {
          blockStarted := true;
          blockCount := blockCount + 1;
        }
      } else {
        blockStarted := false;
      }
    }
    assert changes[..|changes|] == changes;
    return Success(blockCount);
  }

  /** The count is the number of positions that open a block. */
  lemma {:induction false} RunCountIsStarts(lines: seq<string>)
    ensures RunCount(lines) == |BlockStarts(lines)|
  {
    if lines != [] {
      var init := lines[..|lines| - 1];
      RunCountIsStarts(init);
      var last := |lines| - 1;
      assert forall i: nat :: i < |init| ==> (StartsBlock(lines, i) <==> StartsBlock(init, i));
      if StartsBlock(lines, last) {
        assert BlockStarts(lines) == BlockStarts(init) + {last};
      } else {
        assert BlockStarts(lines) == BlockStarts(init);
      }
    }
  }

  /** There is no block exactly when no line is a change. */
  lemma {:induction false} NoChangeNoBlock(lines: seq<string>)
    ensures RunCount(lines) == 0 <==> forall k :: 0 <= k < |lines| ==> !IsChange(lines[k])
  {
    if lines != [] {
      var init := lines[..|lines| - 1];
      NoChangeNoBlock(init);
      assert forall k :: 0 <= k < |init| ==> init[k] == lines[k];
    }
  }

  /** Two blocks are separated by at least one line that is not a change,
      so a diff of `n` lines has at most `(n + 1) / 2` blocks. */
  lemma {:induction false} BlocksAreSeparated(lines: seq<string>)
    ensures 2 * RunCount(lines) <= |lines| + (if lines != [] && IsChange(lines[|lines| - 1]) then 1 else 0)
    ensures 2 * RunCount(lines) <= |lines| + 1
  {
    if lines != [] {
      var init := lines[..|lines| - 1];
      BlocksAreSeparated(init);
      if |init| > 0 {
        assert init[|init| - 1] == lines[|lines| - 2];
      }
    }
  }

  /** The count of one file change: the blocks of its diff. */
  function Blocks(fc: FileChange): int {
    RunCount(SplitLines(fc.diff))
  }

  /** The diff of `fc` can be scanned: none of its lines is empty. */
  predicate Scannable(fc: FileChange) {
    AllNonEmpty(SplitLines(fc.diff))
  }

  /** Every change of `cs` can be scanned, checked from the left. */
  predicate AllScannable(cs: seq<FileChange>) {
    cs == [] || (AllScannable(cs[..|cs| - 1]) && Scannable(cs[|cs| - 1]))
  }

  lemma {:induction false} AllScannableIff(cs: seq<FileChange>)
    ensures AllScannable(cs) <==> forall j :: 0 <= j < |cs| ==> Scannable(cs[j])
  {
    if cs != [] {
      var init := cs[..|cs| - 1];
      AllScannableIff(init);
      assert forall j :: 0 <= j < |init| ==> init[j] == cs[j];
    }
  }

  /** One more scannable change keeps the prefix scannable. */
  lemma ScannableSnoc(cs: seq<FileChange>, j: nat)
    requires j < |cs| && AllScannable(cs[..j]) && Scannable(cs[j])
    ensures AllScannable(cs[..j + 1])
  {
    assert cs[..j + 1][..j] == cs[..j];
  }

  /** One change that cannot be scanned spoils the whole list. */
  lemma UnscannableAt(cs: seq<FileChange>, j: nat)
    requires j < |cs| && !Scannable(cs[j])
    ensures !AllScannable(cs)
  {
    AllScannableIff(cs);
  }

  /** Some change of the stream has a diff with an empty line. */
  predicate Malformed(commits: seq<Commit>) {
    exists i, j :: 0 <= i < |commits| && 0 <= j < |commits[i].changes| && !Scannable(commits[i].changes[j])
  }

  /** The result comprehension: the median of every list. */
  function Medians(fileBlocks: map<Path, seq<int>>): (m: map<Path, real>)
    requires forall p :: p in fileBlocks ==> fileBlocks[p] != []
    ensures m.Keys == fileBlocks.Keys
  {
    map p | p in fileBlocks :: Median(fileBlocks[p])
  }

  /** Every file's median lies between its fewest and its most blocks. */
  lemma MediansBetween(fileBlocks: map<Path, seq<int>>, p: Path)
    requires forall q :: q in fileBlocks ==> fileBlocks[q] != []
    requires p in fileBlocks
    ensures Min(fileBlocks[p]) as real <= Medians(fileBlocks)[p] <= Max(fileBlocks[p]) as real
  {
    MedianBetween(fileBlocks[p]);
  }

  /** `calculate_blocks`: per canonical path, the list of the block counts
      of its changes, then the median of each list. The whole computation
      fails if some diff has an empty line. */
  method CalculateBlocks(commits: seq<Commit>) returns (r: Result<map<Path, real>, string>)
    ensures r.Success? <==> !Malformed(commits)
    ensures r.Success? ==>
              var rs := Project(Touches(commits));
              && r.value.Keys == Paths(rs)
              && forall p :: p in r.value ==> |Bucket(rs, p)| > 0 && r.value[p] == Median(Column(Bucket(rs, p), Blocks))
  {
    var fileBlocks: map<Path, seq<int>> := map[];
    var pathMapping: map<Path, Path> := map[];
    ghost var done: seq<Touch> := [];
    for i := 0 to |commits|
      invariant done == Touches(commits[..i])
      invariant pathMapping == TableAfter(done)
      invariant fileBlocks == AppendFold(Project(done), Blocks)
      invariant !Malformed(commits[..i])
    {
      var clean;
      pathMapping, fileBlocks, clean := CollectCommit(commits[i], pathMapping, fileBlocks, done);
      AllScannableIff(commits[i].changes);
      if !clean {
        ghost var j :| 0 <= j < |commits[i].changes| && !Scannable(commits[i].changes[j]);
        return Failure("string index out of range");
      }
      CleanPrefix(commits, i);
      done := done + TouchesOf(commits[i]);
      TouchesSnoc(commits, i);
    }
    assert commits[..|commits|] == commits;
    ghost var rs := Project(Touches(commits));
    AppendFoldByPath(rs, Blocks);
    forall p | p in fileBlocks
      ensures fileBlocks[p] != [] && |Bucket(rs, p)| > 0
    {
      ColumnLengths(rs, Blocks, p);
    }
    return Success(Medians(fileBlocks));
  }

  /** A stream is well formed one commit further when that commit is. */
  lemma CleanPrefix(commits: seq<Commit>, i: nat)
    requires i < |commits| && !Malformed(commits[..i])
    requires forall j :: 0 <= j < |commits[i].changes| ==> Scannable(commits[i].changes[j])
    ensures !Malformed(commits[..i + 1])
  {
    var next := commits[..i + 1];
    forall k, j | 0 <= k < |next| && 0 <= j < |next[k].changes|
      ensures Scannable(next[k].changes[j])
    {
      if k < i {
        assert next[k] == commits[..i][k];
      }
    }
  }

  /** The walk over the modified files of one commit; `clean` is false when
      one of their diffs has an empty line. */
  method CollectCommit(commit: Commit, pathMapping: map<Path, Path>,
                       fileBlocks: map<Path, seq<int>>, ghost before: seq<Touch>)
    returns (renames: map<Path, Path>, blocks: map<Path, seq<int>>, clean: bool)
    requires pathMapping == TableAfter(before)
    requires fileBlocks == AppendFold(Project(before), Blocks)
    ensures clean <==> AllScannable(commit.changes)
    ensures clean ==> renames == TableAfter(before + TouchesOf(commit))
    ensures clean ==> blocks == AppendFold(Project(before + TouchesOf(commit)), Blocks)
  {
    renames, blocks := pathMapping, fileBlocks;
    ghost var done := before;
    for j := 0 to |commit.changes|
      invariant done == before + Tag(commit, commit.changes[..j])
      invariant renames == TableAfter(done)
      invariant blocks == AppendFold(Project(done), Blocks)
      invariant AllScannable(commit.changes[..j])
    {
      var scanned;
      renames, blocks, scanned := CollectChange(commit, commit.changes[j], renames, blocks, done);
      if !scanned {
        UnscannableAt(commit.changes, j);
        return renames, blocks, false;
      }
      ScannableSnoc(commit.changes, j);
      SeenSnoc(before, commit, j);
      done := done + [Touch(commit, commit.changes[j])];
    }
    assert commit.changes[..|commit.changes|] == commit.changes;
    clean := true;
  }

  /** One modified file of the walk: its canonical path is resolved, a
      rename is recorded, and its block count is appended to the path's
      list; `scanned` is false when its diff has an empty line. */
  method CollectChange(commit: Commit, changedFile: FileChange, pathMapping: map<Path, Path>,
                       fileBlocks: map<Path, seq<int>>, ghost done: seq<Touch>)
    returns (renames: map<Path, Path>, blocks: map<Path, seq<int>>, scanned: bool)
    requires pathMapping == TableAfter(done)
    requires fileBlocks == AppendFold(Project(done), Blocks)
    ensures scanned <==> Scannable(changedFile)
    ensures scanned ==> renames == TableAfter(done + [Touch(commit, changedFile)])
    ensures scanned ==> blocks == AppendFold(Project(done + [Touch(commit, changedFile)]), Blocks)
  {
    renames, blocks := pathMapping, fileBlocks;
    var currentPath := Resolve(renames, changedFile.newPath);
    Snoc(done, Touch(commit, changedFile));
    if changedFile.kind == Rename {
      renames := renames[changedFile.oldPath := currentPath];
    }
    var counted := CountBlocks(changedFile.diff);
    if counted.Failure? {
      return renames, blocks, false;
    }
    blocks := AppendCount(blocks, currentPath, counted.value, Project(done), commit, changedFile);
    scanned := true;
  }

  /** `file_blocks[p].append(n)`, or a new list `[n]`. */
  method AppendCount(fileBlocks: map<Path, seq<int>>, currentPath: Path, blockCount: int,
                     ghost rs: seq<ChangeRecord>, ghost commit: Commit, ghost fc: FileChange)
    returns (blocks: map<Path, seq<int>>)
    requires fileBlocks == AppendFold(rs, Blocks)
    requires blockCount == Blocks(fc)
    ensures blocks == AppendFold(rs + [ChangeRecord(currentPath, commit, fc)], Blocks)
  {
    AppendSnoc(rs, ChangeRecord(currentPath, commit, fc), Blocks);
    if currentPath in fileBlocks {
      blocks := fileBlocks[currentPath := fileBlocks[currentPath] + [blockCount]];
    } else {
      assert [] + [blockCount] == [blockCount];
      blocks := fileBlocks[currentPath := [blockCount]];
    }
  }
}
