/** The per-file lists several metrics keep: under each canonical path, one
    value per record of that path, in stream order. */
module Columns {
  import opened Wrappers
  import opened History
  import opened ChangeStream
  import opened Aggregates

  /** The values `f` gives the changes of `b`, in order. */
  function Column(b: seq<ChangeRecord>, f: FileChange -> int): (vs: seq<int>)
    ensures |vs| == |b|
    ensures forall k :: 0 <= k < |b| ==> vs[k] == f(b[k].change)
  {
    if b == [] then [] else Column(b[..|b| - 1], f) + [f(b[|b| - 1].change)]
  }

  /** The sum of a column grows by the value of its last record. */
  lemma ColumnLast(b: seq<ChangeRecord>, f: FileChange -> int)
    requires b != []
    ensures Sum(Column(b, f)) == Sum(Column(b[..|b| - 1], f)) + f(b[|b| - 1].change)
  {
    SumAppend(Column(b[..|b| - 1], f), [f(b[|b| - 1].change)]);
  }

  /** The expected dictionary: per path, the column of its records. */
  function ColumnsByPath(rs: seq<ChangeRecord>, f: FileChange -> int): (m: map<Path, seq<int>>)
    ensures m.Keys == Paths(rs)
  {
    map p | p in Paths(rs) :: Column(Bucket(rs, p), f)
  }

  /** The dictionary as a walk fills it: each record appends its value to
      its path's list, which starts out empty. */
  function AppendFold(rs: seq<ChangeRecord>, f: FileChange -> int): map<Path, seq<int>> {
    if rs == [] then map[]
    else
      var m := AppendFold(rs[..|rs| - 1], f);
      var r := rs[|rs| - 1];
      m[r.path := (if r.path in m then m[r.path] else []) + [f(r.change)]]
  }

  /** One more record appends one value to its own path's list. */
  lemma AppendSnoc(rs: seq<ChangeRecord>, r: ChangeRecord, f: FileChange -> int)
    ensures var m := AppendFold(rs, f);
            AppendFold(rs + [r], f) == m[r.path := (if r.path in m then m[r.path] else []) + [f(r.change)]]
  {
    assert (rs + [r])[..|rs|] == rs;
  }

  /** One path of the fold: present exactly for the paths of the records,
      holding the column of that path's records. */
  lemma {:induction false} AppendFoldAt(rs: seq<ChangeRecord>, f: FileChange -> int, p: Path)
    ensures p in AppendFold(rs, f) <==> p in Paths(rs)
    ensures p in Paths(rs) ==> AppendFold(rs, f)[p] == Column(Bucket(rs, p), f)
  {
    if rs != [] {
      var init := rs[..|rs| - 1];
      var r := rs[|rs| - 1];
      AppendFoldAt(init, f, p);
      assert rs == init + [r];
      GroupSnoc(init, r);
      if p == r.path {
        AppendLast(init, r, f);
      }
    }
  }

  /** The record a walk visits last appends its value to its own path's
      column. */
  lemma AppendLast(init: seq<ChangeRecord>, r: ChangeRecord, f: FileChange -> int)
    requires r.path in AppendFold(init, f) <==> r.path in Paths(init)
    requires r.path in Paths(init) ==> AppendFold(init, f)[r.path] == Column(Bucket(init, r.path), f)
    ensures AppendFold(init + [r], f)[r.path] == Column(Bucket(init + [r], r.path), f)
  {
    var b := Bucket(init, r.path);
    BucketNonEmpty(init, r.path);
    GroupSnoc(init, r);
    AppendSnoc(init, r, f);
    assert (b + [r])[..|b|] == b;
  }

  /** The walk's dictionary is the per-path one. */
  lemma AppendFoldByPath(rs: seq<ChangeRecord>, f: FileChange -> int)
    ensures AppendFold(rs, f) == ColumnsByPath(rs, f)
  {
    var folded, expected := AppendFold(rs, f), ColumnsByPath(rs, f);
    forall p | p in folded || p in expected
      ensures p in folded && p in expected && folded[p] == expected[p]
    {
      AppendFoldAt(rs, f, p);
    }
  }

  /** Every list holds one value per record of its path, so none is empty. */
  lemma ColumnLengths(rs: seq<ChangeRecord>, f: FileChange -> int, p: Path)
    requires p in ColumnsByPath(rs, f)
    ensures |ColumnsByPath(rs, f)[p]| == |Bucket(rs, p)| > 0
  {
    BucketNonEmpty(rs, p);
  }
}
