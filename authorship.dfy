/** Who changed each file: per canonical path and per author, the number of
    lines that author's changes touched. The contributor metrics share this
    accumulation. */
module Authorship {
  import opened Wrappers
  import opened History
  import opened ChangeStream
  import opened Aggregates
  import opened Columns
  import opened PyText

  /** The key a change is credited to: its author's e-mail address without
      surrounding whitespace. */
  function Contributor(c: Commit): string {
    Strip(c.authorEmail)
  }

  /** The authors of the records `b`. */
  function Authors(b: seq<ChangeRecord>): set<string> {
    if b == [] then {} else Authors(b[..|b| - 1]) + {Contributor(b[|b| - 1].commit)}
  }

  /** The lines `a` changed over the records `b`. */
  function Contribution(b: seq<ChangeRecord>, a: string): int {
    if b == [] then 0
    else
      var r := b[|b| - 1];
      Contribution(b[..|b| - 1], a) + (if Contributor(r.commit) == a then LinesChanged(r.change) else 0)
  }

  /** The expected per-author dictionary of a path's records. */
  function Contributions(b: seq<ChangeRecord>): (m: map<string, int>)
    ensures m.Keys == Authors(b)
  {
    map a | a in Authors(b) :: Contribution(b, a)
  }

  /** The lines a path's records changed. */
  function TotalLines(b: seq<ChangeRecord>): int {
    Sum(Column(b, LinesChanged))
  }

  /** The expected per-path dictionaries of a whole stream. */
  function ContributionsByPath(rs: seq<ChangeRecord>): (m: map<Path, map<string, int>>)
    ensures m.Keys == Paths(rs)
  {
    PerPath(rs, Contributions)
  }

  /** `d.get(a, 0) + n` stored back under `a`. */
  function Credit(m: map<string, int>, a: string, n: int): map<string, int> {
    m[a := (if a in m then m[a] else 0) + n]
  }

  /** Crediting `n` lines adds `n` to the total. */
  lemma CreditSum(m: map<string, int>, a: string, n: int)
    ensures MapSum(Credit(m, a, n)) == MapSum(m) + n
  {
    MapSumAdd(m, a, n);
  }

  /** The nested dictionaries as a walk fills them: each record credits its
      lines to its author under its path, the path's dictionary starting out
      empty and an author's count at zero. */
  function AccumulateFold(rs: seq<ChangeRecord>): map<Path, map<string, int>> {
    if rs == [] then map[]
    else
      var m := AccumulateFold(rs[..|rs| - 1]);
      var r := rs[|rs| - 1];
      m[r.path := Credit(if r.path in m then m[r.path] else map[], Contributor(r.commit), LinesChanged(r.change))]
  }

  lemma AccumulateSnoc(rs: seq<ChangeRecord>, r: ChangeRecord)
    ensures var m := AccumulateFold(rs);
            AccumulateFold(rs + [r])
              == m[r.path := Credit(if r.path in m then m[r.path] else map[], Contributor(r.commit), LinesChanged(r.change))]
  {
    assert (rs + [r])[..|rs|] == rs;
  }

  /** One more record adds its author and its lines to its author's
      count. */
  lemma AuthorSnoc(b: seq<ChangeRecord>, r: ChangeRecord, a: string)
    ensures Authors(b + [r]) == Authors(b) + {Contributor(r.commit)}
    ensures Contribution(b + [r], a) == Contribution(b, a) + (if Contributor(r.commit) == a then LinesChanged(r.change) else 0)
  {
    assert (b + [r])[..|b|] == b;
  }

  /** Someone who authored none of the records contributed nothing. */
  lemma {:induction false} NonAuthorContributesNothing(b: seq<ChangeRecord>, a: string)
    requires a !in Authors(b)
    ensures Contribution(b, a) == 0
  {
    if b != [] {
      NonAuthorContributesNothing(b[..|b| - 1], a);
    }
  }

  /** One more record credits its lines to its author. */
  lemma ContributionsSnoc(b: seq<ChangeRecord>, r: ChangeRecord)
    ensures Contributions(b + [r]) == Credit(Contributions(b), Contributor(r.commit), LinesChanged(r.change))
  {
    var after, credited := Contributions(b + [r]), Credit(Contributions(b), Contributor(r.commit), LinesChanged(r.change));
    forall a | a in after || a in credited
      ensures a in after && a in credited && after[a] == credited[a]
    {
      AuthorSnoc(b, r, a);
      if a !in Authors(b) {
        NonAuthorContributesNothing(b, a);
      }
    }
  }

  /** The walk's nested dictionaries are the per-path, per-author ones. */
  lemma {:induction false} AccumulateFoldAt(rs: seq<ChangeRecord>, p: Path)
    ensures p in AccumulateFold(rs) <==> p in Paths(rs)
    ensures p in Paths(rs) ==> AccumulateFold(rs)[p] == Contributions(Bucket(rs, p))
  {
    if rs != [] {
      var init := rs[..|rs| - 1];
      var r := rs[|rs| - 1];
      assert rs == init + [r];
      AccumulateFoldAt(init, p);
      AccumulateSnoc(init, r);
      GroupSnoc(init, r);
      if p == r.path {
        AccumulateLast(init, r);
      }
    }
  }

  /** The record a walk visits last updates its own path's dictionary to
      the contributions of the path's records. */
  lemma AccumulateLast(init: seq<ChangeRecord>, r: ChangeRecord)
    requires r.path in AccumulateFold(init) <==> r.path in Paths(init)
    requires r.path in Paths(init) ==> AccumulateFold(init)[r.path] == Contributions(Bucket(init, r.path))
    ensures Bucket(init + [r], r.path) == Bucket(init, r.path) + [r]
    ensures AccumulateFold(init + [r])[r.path] == Contributions(Bucket(init + [r], r.path))
  {
    var m := AccumulateFold(init);
    var b := Bucket(init, r.path);
    BucketNonEmpty(init, r.path);
    assert (if r.path in m then m[r.path] else map[]) == Contributions(b);
    AccumulateSnoc(init, r);
    GroupSnoc(init, r);
    ContributionsSnoc(b, r);
  }

  lemma AccumulateFoldByPath(rs: seq<ChangeRecord>)
    ensures AccumulateFold(rs) == ContributionsByPath(rs)
  {
    var folded, expected := AccumulateFold(rs), ContributionsByPath(rs);
    forall p | p in folded || p in expected
      ensures p in folded && p in expected && folded[p] == expected[p]
    {
      AccumulateFoldAt(rs, p);
    }
  }

  /** Nobody contributes a negative number of lines. */
  lemma {:induction false} ContributionNonNegative(b: seq<ChangeRecord>, a: string)
    ensures Contribution(b, a) >= 0
  {
    if b != [] {
      ContributionNonNegative(b[..|b| - 1], a);
    }
  }

  /** No contribution is negative. */
  lemma ContributionsNonNegative(b: seq<ChangeRecord>)
    ensures NonNegativeValues(Contributions(b))
  {
    forall a | a in Contributions(b) ensures Contributions(b)[a] >= 0 {
      ContributionNonNegative(b, a);
    }
  }

  /** The last record of a path credits its lines to its author. */
  lemma ContributionsLast(b: seq<ChangeRecord>)
    requires b != []
    ensures var r := b[|b| - 1];
            Contributions(b) == Credit(Contributions(b[..|b| - 1]), Contributor(r.commit), LinesChanged(r.change))
  {
    assert b == b[..|b| - 1] + [b[|b| - 1]];
    ContributionsSnoc(b[..|b| - 1], b[|b| - 1]);
  }

  /** The contributions of a path add up to the lines its records
      changed. */
  lemma {:induction false} ContributionsTotal(b: seq<ChangeRecord>)
    ensures MapSum(Contributions(b)) == Sum(Column(b, LinesChanged))
  {
    if b != [] {
      var init := b[..|b| - 1];
      var r := b[|b| - 1];
      ContributionsTotal(init);
      ContributionsLast(b);
      CreditSum(Contributions(init), Contributor(r.commit), LinesChanged(r.change));
      ColumnLast(b, LinesChanged);
    }
  }

  /** A path's records have at least one author. */
  lemma AuthorsNonEmpty(b: seq<ChangeRecord>)
    requires b != []
    ensures Contributions(b) != map[]
  {
    assert Contributor(b[|b| - 1].commit) in Authors(b);
  }
}
