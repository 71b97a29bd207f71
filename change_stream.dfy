/** The rename-aware walk every per-file metric repeats: each modified-file
    record of the commit stream is filed under its canonical path, which is
    its new path looked up in a rename table, and a rename records its old
    path as another name for that canonical path.

    The metrics receive the stream newest-first, so a record's canonical path
    is the newest name its file is known by. */
module ChangeStream {
  import opened Wrappers
  import opened History

  /** One modified-file record of the stream, with the commit it belongs to. */
  datatype Touch = Touch(commit: Commit, change: FileChange)

  /** The records of commit `c` for its modified files `cs`, in order. */
  function Tag(c: Commit, cs: seq<FileChange>): (ts: seq<Touch>)
    ensures |ts| == |cs|
    ensures forall k :: 0 <= k < |cs| ==> ts[k] == Touch(c, cs[k])
  {
    if cs == [] then [] else Tag(c, cs[..|cs| - 1]) + [Touch(c, cs[|cs| - 1])]
  }

  /** The records of one commit. */
  function TouchesOf(c: Commit): seq<Touch> {
    Tag(c, c.changes)
  }

  /** The records of the first `j + 1` modified files extend those of the
      first `j` by one. */
  lemma TagSnoc(c: Commit, j: nat)
    requires j < |c.changes|
    ensures Tag(c, c.changes[..j + 1]) == Tag(c, c.changes[..j]) + [Touch(c, c.changes[j])]
  {
    assert c.changes[..j + 1][..j] == c.changes[..j];
  }

  /** The records of a whole traversal, commit by commit. */
  function Touches(commits: seq<Commit>): seq<Touch> {
    if commits == [] then []
    else Touches(commits[..|commits| - 1]) + TouchesOf(commits[|commits| - 1])
  }

  /** Every record of a traversal is a modified file of one of its commits. */
  lemma {:induction false} TouchesFrom(commits: seq<Commit>)
    ensures forall t :: t in Touches(commits) ==> t.commit in commits && t.change in t.commit.changes
  {
    if commits != [] {
      var init := commits[..|commits| - 1];
      var last := commits[|commits| - 1];
      TouchesFrom(init);
      assert commits == init + [last];
      forall t | t in TouchesOf(last)
        ensures t.commit == last && t.change in last.changes
      {
        var k :| 0 <= k < |TouchesOf(last)| && TouchesOf(last)[k] == t;
      }
    }
  }

  /** The canonical path of `p`: its entry in the rename table, or `p` itself. */
  function Resolve(table: map<Path, Path>, p: Path): Path {
    if p in table then table[p] else p
  }

  /** The table after one record: a rename makes its old path another name
      for the canonical path of its new path; anything else leaves it. */
  function Track(table: map<Path, Path>, fc: FileChange): map<Path, Path> {
    if fc.kind == Rename then table[fc.oldPath := Resolve(table, fc.newPath)] else table
  }

  /** The rename table after a sequence of records, starting from empty. */
  function TableAfter(ts: seq<Touch>): map<Path, Path> {
    if ts == [] then map[] else Track(TableAfter(ts[..|ts| - 1]), ts[|ts| - 1].change)
  }

  /** A record as the metrics file it: under its canonical path. */
  datatype ChangeRecord = ChangeRecord(path: Path, commit: Commit, change: FileChange)

  /** The canonical path of record `k` of `ts`: its new path resolved through
      the table built from the records before it. */
  function CanonicalAt(ts: seq<Touch>, k: nat): Path
    requires k < |ts|
  {
    Resolve(TableAfter(ts[..k]), ts[k].change.newPath)
  }

  /** The stream with every record filed under its canonical path. */
  function Project(ts: seq<Touch>): (rs: seq<ChangeRecord>)
    ensures |rs| == |ts|
  {
    if ts == [] then []
    else
      var init := ts[..|ts| - 1];
      Project(init) + [ChangeRecord(Resolve(TableAfter(init), ts[|ts| - 1].change.newPath), ts[|ts| - 1].commit, ts[|ts| - 1].change)]
  }

  /** One record out per record in, in the same order, with commit and
      change untouched and the path resolved through the renames before it. */
  lemma {:induction false} ProjectAt(ts: seq<Touch>)
    ensures forall k :: 0 <= k < |ts| ==>
              Project(ts)[k] == ChangeRecord(CanonicalAt(ts, k), ts[k].commit, ts[k].change)
  {
    if ts != [] {
      var init := ts[..|ts| - 1];
      ProjectAt(init);
      assert forall k :: 0 <= k < |init| ==> init[..k] == ts[..k];
    }
  }

  /** The path record `k` is filed under. */
  lemma ProjectPath(ts: seq<Touch>, k: nat)
    requires k < |ts|
    ensures Project(ts)[k].path == CanonicalAt(ts, k)
  {
    ProjectAt(ts);
  }

  /** Appending one record extends the table by one step and the projection
      by one record. */
  lemma Snoc(ts: seq<Touch>, t: Touch)
    ensures TableAfter(ts + [t]) == Track(TableAfter(ts), t.change)
    ensures Project(ts + [t]) == Project(ts) + [ChangeRecord(Resolve(TableAfter(ts), t.change.newPath), t.commit, t.change)]
  {
    assert (ts + [t])[..|ts|] == ts;
  }

  /** The records seen after `j + 1` modified files of `c` extend those seen
      after `j` by one. */
  lemma SeenSnoc(done: seq<Touch>, c: Commit, j: nat)
    requires j < |c.changes|
    ensures done + Tag(c, c.changes[..j + 1]) == done + Tag(c, c.changes[..j]) + [Touch(c, c.changes[j])]
  {
    TagSnoc(c, j);
  }

  lemma AppendAssoc<T>(a: seq<T>, b: seq<T>, x: T)
    ensures a + b + [x] == a + (b + [x])
  {
  }

  /** Adding the next commit appends its records. */
  lemma TouchesSnoc(commits: seq<Commit>, i: nat)
    requires i < |commits|
    ensures Touches(commits[..i + 1]) == Touches(commits[..i]) + TouchesOf(commits[i])
  {
    assert commits[..i + 1][..i] == commits[..i];
  }

  /** The paths the records are filed under. */
  function Paths(rs: seq<ChangeRecord>): set<Path> {
    if rs == [] then {} else Paths(rs[..|rs| - 1]) + {rs[|rs| - 1].path}
  }

  /** The paths are exactly the paths some record is filed under. */
  lemma {:induction false} PathsMembers(rs: seq<ChangeRecord>)
    ensures forall p :: p in Paths(rs) <==> exists k :: 0 <= k < |rs| && rs[k].path == p
  {
    if rs != [] {
      var init := rs[..|rs| - 1];
      PathsMembers(init);
      assert forall k :: 0 <= k < |init| ==> init[k] == rs[k];
    }
  }

  /** The records filed under `p`, in stream order: every record of `rs`
      under `p` and nothing else. */
  function Bucket(rs: seq<ChangeRecord>, p: Path): (b: seq<ChangeRecord>)
    ensures |b| <= |rs|
  {
    if rs == [] then []
    else
      var last := rs[|rs| - 1];
      Bucket(rs[..|rs| - 1], p) + (if last.path == p then [last] else [])
  }

  /** A bucket holds every record filed under its path and nothing else. */
  lemma {:induction false} BucketMembers(rs: seq<ChangeRecord>, p: Path)
    ensures forall k :: 0 <= k < |Bucket(rs, p)| ==> Bucket(rs, p)[k].path == p && Bucket(rs, p)[k] in rs
    ensures forall k :: 0 <= k < |rs| && rs[k].path == p ==> rs[k] in Bucket(rs, p)
  {
    if rs != [] {
      var init := rs[..|rs| - 1];
      BucketMembers(init, p);
      assert forall k :: 0 <= k < |init| ==> init[k] == rs[k];
    }
  }

  /** A path has records exactly when it is one of the paths. */
  lemma BucketNonEmpty(rs: seq<ChangeRecord>, p: Path)
    ensures |Bucket(rs, p)| > 0 <==> p in Paths(rs)
  {
    BucketMembers(rs, p);
    PathsMembers(rs);
    if |Bucket(rs, p)| > 0 {
      var r := Bucket(rs, p)[0];
      var k :| 0 <= k < |rs| && rs[k] == r;
      assert rs[k].path == p;
    }
    if p in Paths(rs) {
      var k :| 0 <= k < |rs| && rs[k].path == p;
      assert rs[k] in Bucket(rs, p);
    }
  }

  /** Appending one record adds its path and extends its bucket only. */
  lemma GroupSnoc(rs: seq<ChangeRecord>, r: ChangeRecord)
    ensures Paths(rs + [r]) == Paths(rs) + {r.path}
    ensures Bucket(rs + [r], r.path) == Bucket(rs, r.path) + [r]
    ensures forall p :: p != r.path ==> Bucket(rs + [r], p) == Bucket(rs, p)
  {
    assert (rs + [r])[..|rs|] == rs;
    forall p | p != r.path
      ensures Bucket(rs + [r], p) == Bucket(rs, p)
    {
      assert Bucket(rs + [r], p) == Bucket(rs, p) + [];
    }
  }

  /** A per-file metric: one entry per path, computed from that path's
      records. */
  function PerPath<V>(rs: seq<ChangeRecord>, f: seq<ChangeRecord> -> V): (m: map<Path, V>)
    ensures m.Keys == Paths(rs)
  {
    map p | p in Paths(rs) :: f(Bucket(rs, p))
  }

  /** Appending one record recomputes the entry of its path only. */
  lemma {:induction false} PerPathSnoc<V>(rs: seq<ChangeRecord>, r: ChangeRecord, f: seq<ChangeRecord> -> V)
    ensures PerPath(rs + [r], f) == PerPath(rs, f)[r.path := f(Bucket(rs, r.path) + [r])]
  {
    GroupSnoc(rs, r);
    var after := PerPath(rs + [r], f);
    var updated := PerPath(rs, f)[r.path := f(Bucket(rs, r.path) + [r])];
    assert after.Keys == updated.Keys;
    forall p | p in after
      ensures after[p] == updated[p]
    {
      if p != r.path {
        assert p in Paths(rs);
      }
    }
  }

  /** The record at position `k` renames path `p`. */
  predicate RenamesAt(ts: seq<Touch>, k: nat, p: Path)
    requires k < |ts|
  {
    ts[k].change.kind == Rename && ts[k].change.oldPath == p
  }

  /** The table's keys are exactly the old paths of the renames seen so far:
      the table only gains entries and is never cleared. */
  lemma {:induction false} TableKeys(ts: seq<Touch>)
    ensures forall p :: p in TableAfter(ts) <==> exists k :: 0 <= k < |ts| && RenamesAt(ts, k, p)
  {
    if ts != [] {
      var init := ts[..|ts| - 1];
      TableKeys(init);
      assert forall k :: 0 <= k < |init| ==> (RenamesAt(init, k, ts[k].change.oldPath) <==> RenamesAt(ts, k, ts[k].change.oldPath));
      forall p
        ensures p in TableAfter(ts) <==> exists k :: 0 <= k < |ts| && RenamesAt(ts, k, p)
      {
        if p in TableAfter(ts) && p !in TableAfter(init) {
          assert RenamesAt(ts, |ts| - 1, p);
        }
        if p in TableAfter(init) {
          var k :| 0 <= k < |init| && RenamesAt(init, k, p);
          assert RenamesAt(ts, k, p);
        }
        if exists k :: 0 <= k < |ts| && RenamesAt(ts, k, p) {
          var k :| 0 <= k < |ts| && RenamesAt(ts, k, p);
          if k < |init| {
            assert RenamesAt(init, k, p);
          }
        }
      }
    }
  }

  /** The table is only extended: every entry of an earlier table is still
      a key of a later one. */
  lemma TableGrows(ts: seq<Touch>, i: nat)
    requires i <= |ts|
    ensures TableAfter(ts[..i]).Keys <= TableAfter(ts).Keys
  {
    TableKeys(ts[..i]);
    TableKeys(ts);
    forall p | p in TableAfter(ts[..i])
      ensures p in TableAfter(ts)
    {
      var k :| 0 <= k < i && RenamesAt(ts[..i], k, p);
      assert RenamesAt(ts, k, p);
    }
  }

  /** Records that rename no path in `S` leave how every path in `S`
      resolves unchanged. */
  lemma {:induction false} Unaffected(ts: seq<Touch>, lo: nat, hi: nat, S: set<Path>)
    requires lo <= hi <= |ts|
    requires forall k :: lo <= k < hi ==> !(ts[k].change.kind == Rename && ts[k].change.oldPath in S)
    ensures forall x :: x in S ==> Resolve(TableAfter(ts[..hi]), x) == Resolve(TableAfter(ts[..lo]), x)
    decreases hi - lo
  {
    if lo < hi {
      Unaffected(ts, lo + 1, hi, S);
      Snoc(ts[..lo], ts[lo]);
      assert ts[..lo + 1] == ts[..lo] + [ts[lo]];
    }
  }

  /** A path that no record ever renames is its own canonical path. */
  lemma NeverRenamed(ts: seq<Touch>, k: nat)
    requires k < |ts|
    requires forall j :: 0 <= j < k ==> !RenamesAt(ts, j, ts[k].change.newPath)
    ensures CanonicalAt(ts, k) == ts[k].change.newPath
  {
    TableKeys(ts[..k]);
    var p := ts[k].change.newPath;
    if p in TableAfter(ts[..k]) {
      var j :| 0 <= j < k && RenamesAt(ts[..k], j, p);
      assert RenamesAt(ts, j, p);
    }
  }

  /** The latest rename of a path decides its table entry: it maps to the
      canonical path of that rename's new path at the time of the rename. */
  lemma {:induction false} LastRenameWins(ts: seq<Touch>, k: nat, p: Path)
    requires k < |ts| && RenamesAt(ts, k, p)
    requires forall j :: k < j < |ts| ==> !RenamesAt(ts, j, p)
    ensures p in TableAfter(ts) && TableAfter(ts)[p] == CanonicalAt(ts, k)
  {
    RenameStep(ts, k);
    forall j | k + 1 <= j < |ts|
      ensures !(ts[j].change.kind == Rename && ts[j].change.oldPath in {p})
    {
      assert !RenamesAt(ts, j, p);
    }
    Unaffected(ts, k + 1, |ts|, {p});
    assert ts[..|ts|] == ts;
    TableGrows(ts, k + 1);
  }

  /** One step of the table: a rename points its old path at the new
      path's canonical path and leaves every other path as it resolved. */
  lemma RenameStep(ts: seq<Touch>, k: nat)
    requires k < |ts| && ts[k].change.kind == Rename
    ensures Resolve(TableAfter(ts[..k + 1]), ts[k].change.oldPath) == CanonicalAt(ts, k)
    ensures forall x :: x != ts[k].change.oldPath ==>
              Resolve(TableAfter(ts[..k + 1]), x) == Resolve(TableAfter(ts[..k]), x)
  {
    Snoc(ts[..k], ts[k]);
    assert ts[..k + 1] == ts[..k] + [ts[k]];
  }

  /** While no record renames a path of `S`, a group `S` whose paths all
      resolve to `c` stays that way, and its records are filed under `c`. */
  lemma Collapsed(ts: seq<Touch>, lo: nat, hi: nat, S: set<Path>, c: Path)
    requires lo <= hi <= |ts|
    requires forall x :: x in S ==> Resolve(TableAfter(ts[..lo]), x) == c
    requires forall k :: lo <= k < hi ==> !(ts[k].change.kind == Rename && ts[k].change.oldPath in S)
    ensures forall x :: x in S ==> Resolve(TableAfter(ts[..hi]), x) == c
    ensures forall k :: lo <= k < hi && ts[k].change.newPath in S ==> Project(ts)[k].path == c
  {
    Unaffected(ts, lo, hi, S);
    forall k | lo <= k < hi && ts[k].change.newPath in S
      ensures Project(ts)[k].path == c
    {
      Unaffected(ts, lo, k, S);
      ProjectPath(ts, k);
    }
  }

  /** The newer half of a rename chain: record `i` renames `b` to a
      canonical `c`, and until position `j` nothing renames `b` or `c`. */
  lemma {:induction false} NewerRename(ts: seq<Touch>, i: nat, j: nat, b: Path, c: Path)
    requires i < j <= |ts|
    requires ts[i].change.kind == Rename && ts[i].change.oldPath == b && ts[i].change.newPath == c
    requires Resolve(TableAfter(ts[..i]), c) == c
    requires forall k :: i < k < j ==> !(ts[k].change.kind == Rename && ts[k].change.oldPath in {b, c})
    ensures Project(ts)[i].path == c
    ensures forall k :: i < k < j && ts[k].change.newPath in {b, c} ==> Project(ts)[k].path == c
    ensures forall x :: x in {b, c} ==> Resolve(TableAfter(ts[..j]), x) == c
  {
    RenameStep(ts, i);
    ProjectPath(ts, i);
    Collapsed(ts, i + 1, j, {b, c}, c);
  }

  /** The older half of a rename chain: record `j` renames `a` to `b` while
      `b` and `c` resolve to `c`, and nothing after it renames `a`, `b` or
      `c`. */
  lemma {:induction false} OlderRename(ts: seq<Touch>, j: nat, a: Path, b: Path, c: Path)
    requires j < |ts|
    requires ts[j].change.kind == Rename && ts[j].change.oldPath == a && ts[j].change.newPath == b
    requires forall x :: x in {b, c} ==> Resolve(TableAfter(ts[..j]), x) == c
    requires forall k :: j < k < |ts| ==> !(ts[k].change.kind == Rename && ts[k].change.oldPath in {a, b, c})
    ensures Project(ts)[j].path == c
    ensures forall k :: j < k < |ts| && ts[k].change.newPath in {a, b, c} ==> Project(ts)[k].path == c
  {
    RenameStep(ts, j);
    ProjectPath(ts, j);
    var after := TableAfter(ts[..j + 1]);
    forall x | x in {a, b, c}
      ensures Resolve(after, x) == c
    {
      if x != a {
        assert Resolve(after, x) == Resolve(TableAfter(ts[..j]), x);
      }
    }
    Collapsed(ts, j + 1, |ts|, {a, b, c}, c);
  }

  /** A chain of renames collapses onto the newest name. On a newest-first
      stream, record `i` renames `b` to `c` (the newer rename) and a later
      record `j` renames `a` to `b` (the older one). When `c` is canonical at
      `i` and no other record after `i` renames `a`, `b` or `c`, the
      records of both renames and every record after `j` whose new path is
      `a`, `b` or `c` are filed under `c`. */
  lemma {:induction false} ChainCollapses(ts: seq<Touch>, i: nat, j: nat, a: Path, b: Path, c: Path)
    requires i < j < |ts|
    requires ts[i].change.kind == Rename && ts[i].change.oldPath == b && ts[i].change.newPath == c
    requires ts[j].change.kind == Rename && ts[j].change.oldPath == a && ts[j].change.newPath == b
    requires Resolve(TableAfter(ts[..i]), c) == c
    requires forall k :: i < k < j ==> !(ts[k].change.kind == Rename && ts[k].change.oldPath in {b, c})
    requires forall k :: j < k < |ts| ==> !(ts[k].change.kind == Rename && ts[k].change.oldPath in {a, b, c})
    ensures Project(ts)[i].path == c && Project(ts)[j].path == c
    ensures forall k :: i < k < j && ts[k].change.newPath in {b, c} ==> Project(ts)[k].path == c
    ensures forall k :: j < k < |ts| && ts[k].change.newPath in {a, b, c} ==> Project(ts)[k].path == c
  {
    NewerRename(ts, i, j, b, c);
    OlderRename(ts, j, a, b, c);
  }

  /** A rename cycle `a -> b -> a` sends every later record of either name
      to the newest one, `a`. */
  lemma CycleCollapses(ts: seq<Touch>, i: nat, j: nat, a: Path, b: Path)
    requires i < j < |ts|
    requires ts[i].change.kind == Rename && ts[i].change.oldPath == b && ts[i].change.newPath == a
    requires ts[j].change.kind == Rename && ts[j].change.oldPath == a && ts[j].change.newPath == b
    requires Resolve(TableAfter(ts[..i]), a) == a
    requires forall k :: i < k < |ts| && k != j ==> !(ts[k].change.kind == Rename && ts[k].change.oldPath in {a, b})
    ensures forall k :: j < k < |ts| && ts[k].change.newPath in {a, b} ==> Project(ts)[k].path == a
  {
    ChainCollapses(ts, i, j, a, b, a);
  }

  /** A two-commit history, newest first: the newer commit renames
      `old.txt` to `new.txt` and edits it, the older one adds `old.txt`. */
  const RenamingCommit := Commit("c2", ["c1"], 2, 2, "dev@example.com",
    [FileChange(Some("old.txt"), Some("new.txt"), "new.txt", Rename, 2, 1, "")])
  const AddingCommit := Commit("c1", [], 1, 1, "dev@example.com",
    [FileChange(None, Some("old.txt"), "old.txt", Add, 3, 0, "")])

  lemma RenameScenarioTouches()
    ensures Touches([RenamingCommit, AddingCommit])
         == [Touch(RenamingCommit, RenamingCommit.changes[0]), Touch(AddingCommit, AddingCommit.changes[0])]
  {
    assert [RenamingCommit, AddingCommit][..1] == [RenamingCommit];
    assert [RenamingCommit][..0] == [];
    assert TouchesOf(RenamingCommit) == [Touch(RenamingCommit, RenamingCommit.changes[0])];
    assert TouchesOf(AddingCommit) == [Touch(AddingCommit, AddingCommit.changes[0])];
    assert Touches([RenamingCommit]) == [] + TouchesOf(RenamingCommit);
  }

  lemma RenameScenarioProject()
    ensures var rs := Project(Touches([RenamingCommit, AddingCommit]));
            |rs| == 2 && rs[0].path == Some("new.txt") && rs[1].path == Some("new.txt")
  {
    RenameScenarioTouches();
    var ts := Touches([RenamingCommit, AddingCommit]);
    assert ts[..1] == [ts[0]];
    assert [ts[0]][..0] == [];
    assert TableAfter(ts[..1]) == map[Some("old.txt") := Some("new.txt")];
  }

  /** In that history both records are filed under `new.txt`, which holds
      exactly two records and is the only path. */
  lemma RenamedFileKeepsOneBucket()
    ensures var rs := Project(Touches([RenamingCommit, AddingCommit]));
            && Paths(rs) == {Some("new.txt")}
            && |Bucket(rs, Some("new.txt"))| == 2
  {
    RenameScenarioProject();
    var rs := Project(Touches([RenamingCommit, AddingCommit]));
    assert rs == [] + [rs[0]] + [rs[1]];
    GroupSnoc([] + [rs[0]], rs[1]);
    GroupSnoc([], rs[0]);
  }
}
