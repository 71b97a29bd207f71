/** The configuration of a repository analysis: the settings dictionary, the
    validation of its range filters, the `git rev-list` revision and options
    it stands for, and the per-commit exclusion filters. */
module Conf {
  import opened Wrappers
  import opened History
  import opened Dates
  import opened PyText

  /** A setting's value, by the kinds the settings hold: hashes, tags, branch
      and order names as text; switches as flags; dates; lists of authors or
      file suffixes; sets of commit hashes. `Unset` is Python's `None`. */
  datatype Value =
    | Unset
    | Text(text: string)
    | Flag(flag: bool)
    | Time(time: DateTime)
    | Texts(texts: seq<string>)
    | Hashes(hashes: set<string>)

  /** The settings, by their Python names: the range bounds `since`,
      `since_as_filter`, `from_commit`, `from_tag`, `to`, `to_commit`,
      `to_tag`; `single`, `only_in_branch` and `order`; the switches
      `only_no_merge`, `include_refs`, `include_remotes`; the filters
      `only_authors`, `only_commits`, `filepath_commits`, `tagged_commits`
      and `only_modifications_with_file_types`; `path_to_repo` and
      `path_to_repos`. `Other` names any further setting, which the
      operations here only carry along. */
  datatype Key =
    | Since | SinceAsFilter | FromCommit | FromTag | To | ToCommit | ToTag
    | Single | OnlyInBranch | Order | OnlyNoMerge | IncludeRefs | IncludeRemotes
    | OnlyAuthors | OnlyCommits | FilepathCommits | TaggedCommits | FileTypes
    | PathToRepo | PathToRepos | Other(name: string)

  type Settings = map<Key, Value>

  /** An exception: a name the repository could not resolve, raised by the
      repository and passed on, or one the configuration raises itself. */
  datatype Error = LookupFailed(name: string) | Raised(message: string)

  /** `settings.get(key)`: a missing key reads as `None`. */
  function Get(s: Settings, key: Key): Value {
    if key in s then s[key] else Unset
  }

  /** Python truthiness of a setting. */
  predicate Truthy(v: Value) {
    match v
    case Unset => false
    case Text(t) => t != ""
    case Flag(b) => b
    case Time(_) => true
    case Texts(xs) => xs != []
    case Hashes(hs) => hs != {}
  }

  /** The string a text setting holds. */
  function TextOf(v: Value): string {
    if v.Text? then v.text else ""
  }

  /** The values of the settings `keys`, in order. */
  function Values(s: Settings, keys: seq<Key>): (vs: seq<Value>)
    ensures |vs| == |keys|
  {
    seq(|keys|, i requires 0 <= i < |keys| => Get(s, keys[i]))
  }

  // ---------------------------------------------------------------------
  // Repository lookups

  /** `git.get_commit(name)`. */
  function GetCommit(git: Repo, name: string): (r: Result<Commit, Error>)
    ensures r.Success? <==> name in git.commits
  {
    if name in git.commits then Success(git.commits[name]) else Failure(LookupFailed(name))
  }

  /** `git.get_commit_from_tag(tag)`. */
  function GetCommitFromTag(git: Repo, tag: string): (r: Result<Commit, Error>)
    ensures r.Success? <==> tag in git.tags
  {
    if tag in git.tags then Success(git.tags[tag]) else Failure(LookupFailed(tag))
  }

  // ---------------------------------------------------------------------
  // At most one filter per end of the range

  const FromFilters: seq<Key> := [Since, SinceAsFilter, FromCommit, FromTag]
  const ToFilters: seq<Key> := [To, ToCommit, ToTag]
  const TooManyFrom := "Only one filter allowed: since, since_as_filter, from_tag, or from_commit"
  const TooManyTo := "Only one filter allowed: to, to_tag, or to_commit"

  /** The number of values that are not `None`. */
  function ActiveCount(vs: seq<Value>): (n: nat)
    ensures n <= |vs|
  {
    if vs == [] then 0 else ActiveCount(vs[..|vs| - 1]) + (if vs[|vs| - 1] != Unset then 1 else 0)
  }

  /** `_has_single_filter` and its copy `has_single_active_filter`: at most
      one value is not `None`. A falsy value such as `""` counts as given. */
  predicate HasSingleFilter(vs: seq<Value>)
    ensures HasSingleFilter(vs) <==> !exists i, j :: 0 <= i < j < |vs| && vs[i] != Unset && vs[j] != Unset
  {
    TwoActive(vs);
    ActiveCount(vs) <= 1
  }

  /** Some value is given exactly when the count is positive. */
  lemma {:induction false} SomeActive(vs: seq<Value>)
    ensures ActiveCount(vs) >= 1 <==> exists i :: 0 <= i < |vs| && vs[i] != Unset
  {
    if vs != [] {
      var init := vs[..|vs| - 1];
      SomeActive(init);
      if ActiveCount(vs) >= 1 && vs[|vs| - 1] == Unset {
        var i :| 0 <= i < |init| && init[i] != Unset;
        assert vs[i] != Unset;
      }
      if exists i :: 0 <= i < |vs| && vs[i] != Unset {
        var i :| 0 <= i < |vs| && vs[i] != Unset;
        if i < |init| {
          assert init[i] != Unset;
        }
      }
    }
  }

  /** The count reaches two exactly when two of the values are not `None`. */
  lemma {:induction false} TwoActive(vs: seq<Value>)
    ensures ActiveCount(vs) >= 2 <==> exists i, j :: 0 <= i < j < |vs| && vs[i] != Unset && vs[j] != Unset
  {
    if vs != [] {
      var init := vs[..|vs| - 1];
      var last := |vs| - 1;
      TwoActive(init);
      SomeActive(init);
      if ActiveCount(vs) >= 2 {
        if vs[last] == Unset {
          var i, j :| 0 <= i < j < |init| && init[i] != Unset && init[j] != Unset;
          assert vs[i] != Unset && vs[j] != Unset;
        } else {
          var i :| 0 <= i < |init| && init[i] != Unset;
          assert vs[i] != Unset;
        }
      }
      if exists i, j :: 0 <= i < j < |vs| && vs[i] != Unset && vs[j] != Unset {
        var i, j :| 0 <= i < j < |vs| && vs[i] != Unset && vs[j] != Unset;
        assert init[i] != Unset;
        if j < last {
          assert init[j] != Unset;
        }
      }
    }
  }

  /** Clearing values never raises the count. */
  lemma {:induction false} FewerActive(vs: seq<Value>, ws: seq<Value>)
    requires |vs| == |ws|
    requires forall i :: 0 <= i < |ws| && ws[i] != Unset ==> vs[i] != Unset
    ensures ActiveCount(ws) <= ActiveCount(vs)
  {
    if vs != [] {
      FewerActive(vs[..|vs| - 1], ws[..|ws| - 1]);
    }
  }

  /** `_validate_from_filters`. */
  function FromFiltersCheck(s: Settings): (r: Outcome<Error>)
    ensures r.Fail? ==> r.error == Raised(TooManyFrom)
  {
    if HasSingleFilter(Values(s, FromFilters)) then Pass else Fail(Raised(TooManyFrom))
  }

  /** `_validate_to_filters`. */
  function ToFiltersCheck(s: Settings): (r: Outcome<Error>)
    ensures r.Fail? ==> r.error == Raised(TooManyTo)
  {
    if HasSingleFilter(Values(s, ToFilters)) then Pass else Fail(Raised(TooManyTo))
  }

  /** Either group check raises exactly when two of its settings are not
      `None`, whatever their truthiness. */
  lemma GroupChecks(s: Settings)
    ensures FromFiltersCheck(s).Fail? <==>
              exists i, j :: 0 <= i < j < |FromFilters| && Get(s, FromFilters[i]) != Unset && Get(s, FromFilters[j]) != Unset
    ensures ToFiltersCheck(s).Fail? <==>
              exists i, j :: 0 <= i < j < |ToFilters| && Get(s, ToFilters[i]) != Unset && Get(s, ToFilters[j]) != Unset
  {
    var fs, ts := Values(s, FromFilters), Values(s, ToFilters);
    assert forall i :: 0 <= i < |FromFilters| ==> fs[i] == Get(s, FromFilters[i]);
    assert forall i :: 0 <= i < |ToFilters| ==> ts[i] == Get(s, ToFilters[i]);
  }

  // ---------------------------------------------------------------------
  // Chronological order of the commit bounds

  /** `_is_chronological_order` and its copy `_compare_commit_dates`: `a` is
      strictly earlier than `b` by committer date, ties broken by author
      date. */
  predicate Before(a: Commit, b: Commit)
    ensures a.committerDate != b.committerDate ==> (Before(a, b) <==> a.committerDate < b.committerDate)
    ensures a.committerDate == b.committerDate ==> (Before(a, b) <==> a.authorDate < b.authorDate)
  {
    if a.committerDate < b.committerDate then true
    else if a.committerDate == b.committerDate then a.authorDate < b.authorDate
    else false
  }

  /** The order is strict and total on the pairs of dates. */
  lemma BeforeIsStrictOrder(a: Commit, b: Commit, c: Commit)
    ensures !Before(a, a)
    ensures Before(a, b) ==> !Before(b, a)
    ensures Before(a, b) && Before(b, c) ==> Before(a, c)
    ensures Before(a, b) || Before(b, a) || (a.committerDate == b.committerDate && a.authorDate == b.authorDate)
  {
  }

  /** `_swap_commit_filters`: the two commit bounds trade places, and
      nothing else changes. */
  function Swap(s: Settings): (r: Settings)
    ensures Get(r, FromCommit) == Get(s, ToCommit) && Get(r, ToCommit) == Get(s, FromCommit)
    ensures forall k :: k != FromCommit && k != ToCommit ==> Get(r, k) == Get(s, k)
  {
    s[FromCommit := Get(s, ToCommit)][ToCommit := Get(s, FromCommit)]
  }

  /** `_validate_filter_order`: with both commit bounds given, look both up
      (a failed lookup raises) and swap them unless the from commit is
      strictly earlier. */
  function OrderFilters(s: Settings, git: Repo): (r: Result<Settings, Error>)
    ensures r.Failure? ==> Truthy(Get(s, FromCommit)) && Truthy(Get(s, ToCommit))
    ensures r.Failure? <==> Truthy(Get(s, FromCommit)) && Truthy(Get(s, ToCommit))
                            && (TextOf(Get(s, FromCommit)) !in git.commits || TextOf(Get(s, ToCommit)) !in git.commits)
    // swapped exactly when the from commit is not strictly earlier
    ensures r.Success? ==> r.value == s || r.value == Swap(s)
    ensures r.Success? && r.value != s ==>
              Truthy(Get(s, FromCommit)) && Truthy(Get(s, ToCommit))
              && TextOf(Get(s, FromCommit)) in git.commits && TextOf(Get(s, ToCommit)) in git.commits
              && !Before(git.commits[TextOf(Get(s, FromCommit))], git.commits[TextOf(Get(s, ToCommit))])
    ensures r.Success? && r.value == s && Truthy(Get(s, FromCommit)) && Truthy(Get(s, ToCommit)) ==>
              Get(s, FromCommit) == Get(s, ToCommit)
              || Before(git.commits[TextOf(Get(s, FromCommit))], git.commits[TextOf(Get(s, ToCommit))])
    // afterwards the to commit is never strictly earlier than the from commit
    ensures r.Success? && Truthy(Get(r.value, FromCommit)) && Truthy(Get(r.value, ToCommit)) ==>
              TextOf(Get(r.value, FromCommit)) in git.commits && TextOf(Get(r.value, ToCommit)) in git.commits
              && !Before(git.commits[TextOf(Get(r.value, ToCommit))], git.commits[TextOf(Get(r.value, FromCommit))])
  {
    var from, to := Get(s, FromCommit), Get(s, ToCommit);
    if !(Truthy(from) && Truthy(to)) then Success(s)
    else
      match GetCommit(git, TextOf(from))
      case Failure(e) => Failure(e)
      case Success(a) =>
        match GetCommit(git, TextOf(to))
        case Failure(e) => Failure(e)
        case Success(b) =>
          BeforeIsStrictOrder(a, b, a);
          if Before(a, b) then Success(s) else Success(Swap(s))
  }

  // ---------------------------------------------------------------------
  // Time zones

  /** The offset given to a naive datetime: UTC. */
  const Utc := 0

  const TimeFilters: seq<Key> := [Since, SinceAsFilter, To]

  /** `_ensure_timezone` and its copy `_normalize_timezone`: a naive
      datetime is read as UTC, wall clock unchanged; an aware one is kept. */
  function EnsureTimezone(dt: DateTime): (r: DateTime)
    ensures r.wall == dt.wall && r.offset.Some?
    ensures dt.offset.Some? ==> r == dt
    ensures dt.offset.None? ==> r.offset == Some(Utc)
  {
    if dt.offset.None? then DateTime(dt.wall, Some(Utc)) else dt
  }

  /** Normalising twice is normalising once. */
  lemma EnsureTimezoneIdempotent(dt: DateTime)
    ensures EnsureTimezone(EnsureTimezone(dt)) == EnsureTimezone(dt)
  {
  }

  /** One setting after normalisation. */
  function Zoned(v: Value): (r: Value)
    ensures v.Time? ==> r == Time(EnsureTimezone(v.time))
    ensures !v.Time? ==> r == v
  {
    if v.Time? then Time(EnsureTimezone(v.time)) else v
  }

  /** The settings once every date filter carries a time zone. */
  function WithTimezones(s: Settings): (r: Settings)
    ensures r.Keys == s.Keys
    ensures forall k :: k in s && k !in TimeFilters ==> r[k] == s[k]
    ensures forall k :: k in TimeFilters ==> (Get(r, k) != Unset <==> Get(s, k) != Unset)
    ensures forall k :: k in TimeFilters && Get(r, k).Time? ==> Get(r, k).time.offset.Some?
    // each date is the same wall-clock time, read as UTC when it was naive
    ensures forall k :: k in TimeFilters && Get(s, k).Time? ==> Get(r, k) == Time(EnsureTimezone(Get(s, k).time))
    ensures forall k :: k in TimeFilters && !Get(s, k).Time? ==> Get(r, k) == Get(s, k)
  {
    map k | k in s :: if k in TimeFilters then Zoned(s[k]) else s[k]
  }

  /** `_validate_timezone_settings` and its copy `ensure_timezone_consistency`:
      each date filter that is not `None` is stored back normalised. */
  method NormaliseTimes(s: Settings) returns (r: Settings)
    ensures r == WithTimezones(s)
  {
    r := s;
    for i := 0 to |TimeFilters|
      invariant r == map k | k in s :: if k in TimeFilters[..i] then Zoned(s[k]) else s[k]
    {
      var key := TimeFilters[i];
      assert key !in TimeFilters[..i];
      var value := Get(r, key);
      if value != Unset {
        r := r[key := Zoned(value)];
      }
    }
    assert TimeFilters[..|TimeFilters|] == TimeFilters;
  }

  // ---------------------------------------------------------------------
  // Identical commit bounds

  /** `_handle_duplicate_commit_range`: equal, truthy commit bounds become
      the single commit to analyse, and both bounds are cleared. */
  function MergeDuplicateRange(s: Settings): (r: Settings)
    ensures Truthy(Get(s, FromCommit)) && Truthy(Get(s, ToCommit)) && Get(s, FromCommit) == Get(s, ToCommit) ==>
              Get(r, Single) == Get(s, ToCommit) && Get(r, FromCommit) == Unset && Get(r, ToCommit) == Unset
              && forall k :: k != Single && k != FromCommit && k != ToCommit ==> Get(r, k) == Get(s, k)
    ensures !(Truthy(Get(s, FromCommit)) && Truthy(Get(s, ToCommit)) && Get(s, FromCommit) == Get(s, ToCommit)) ==>
              r == s
  {
    var from, to := Get(s, FromCommit), Get(s, ToCommit);
    if Truthy(from) && Truthy(to) && from == to then
      s[Single := to][FromCommit := Unset][ToCommit := Unset]
    else s
  }

  /** Afterwards no identical pair is left, so merging again changes
      nothing. */
  lemma MergeIdempotent(s: Settings)
    ensures var r := MergeDuplicateRange(s);
            !(Truthy(Get(r, FromCommit)) && Truthy(Get(r, ToCommit)) && Get(r, FromCommit) == Get(r, ToCommit))
    ensures MergeDuplicateRange(MergeDuplicateRange(s)) == MergeDuplicateRange(s)
  {
  }

  // ---------------------------------------------------------------------
  // The whole validation

  /** `validate_filters`: the outcome and the settings after the five steps
      in order. A step that raises stops the others, and the settings keep
      what the steps before it did. */
  function Validation(s: Settings, git: Repo): (r: (Outcome<Error>, Settings))
    ensures r.0.Fail? ==> r.1 == s || r.1 == Swap(s)
    ensures r.0.Fail? && r.0.error.Raised? ==> r.0.error.message in {TooManyFrom, TooManyTo}
  {
    match OrderFilters(s, git)
    case Failure(e) => (Fail(e), s)
    case Success(ordered) =>
      if FromFiltersCheck(ordered).Fail? then (FromFiltersCheck(ordered), ordered)
      else if ToFiltersCheck(ordered).Fail? then (ToFiltersCheck(ordered), ordered)
      else (Pass, MergeDuplicateRange(WithTimezones(ordered)))
  }

  /** Validated settings name at most one filter per end, carry a time zone
      on every date filter, hold no identical commit pair, and bound the
      range by two known commits in chronological order when both bounds are
      commits. */
  lemma ValidatedSettings(s: Settings, git: Repo)
    requires Validation(s, git).0 == Pass
    ensures var t := Validation(s, git).1;
            HasSingleFilter(Values(t, FromFilters)) && HasSingleFilter(Values(t, ToFilters))
    ensures var t := Validation(s, git).1;
            forall k :: k in TimeFilters && Get(t, k).Time? ==> Get(t, k).time.offset.Some?
    ensures var t := Validation(s, git).1;
            forall k :: k in TimeFilters && Get(s, k).Time? ==> Get(t, k) == Time(EnsureTimezone(Get(s, k).time))
    ensures var t := Validation(s, git).1;
            !(Truthy(Get(t, FromCommit)) && Truthy(Get(t, ToCommit)) && Get(t, FromCommit) == Get(t, ToCommit))
    ensures var t := Validation(s, git).1;
            Truthy(Get(t, FromCommit)) && Truthy(Get(t, ToCommit)) ==>
              TextOf(Get(t, FromCommit)) in git.commits && TextOf(Get(t, ToCommit)) in git.commits
              && !Before(git.commits[TextOf(Get(t, ToCommit))], git.commits[TextOf(Get(t, FromCommit))])
  {
    var ordered := OrderFilters(s, git).value;
    var t := MergeDuplicateRange(WithTimezones(ordered));
    assert t == Validation(s, git).1;
    MergeIdempotent(WithTimezones(ordered));
    LastStepsKeepGroups(ordered);
    LastStepsKeepTimes(ordered);
    LastStepsKeepBounds(ordered);
    OrderKeepsTimes(s, git);
  }

  /** Ordering the commit bounds leaves the dates alone. */
  lemma OrderKeepsTimes(s: Settings, git: Repo)
    requires OrderFilters(s, git).Success?
    ensures forall k :: k in TimeFilters ==> Get(OrderFilters(s, git).value, k) == Get(s, k)
  {
  }

  /** The last two steps only clear range filters, never set one. */
  lemma LastStepsKeepGroups(o: Settings)
    ensures var t := MergeDuplicateRange(WithTimezones(o));
            (HasSingleFilter(Values(o, FromFilters)) ==> HasSingleFilter(Values(t, FromFilters)))
            && (HasSingleFilter(Values(o, ToFilters)) ==> HasSingleFilter(Values(t, ToFilters)))
  {
    var t := MergeDuplicateRange(WithTimezones(o));
    LastStepsOnlyClear(o);
    FewerActive(Values(o, FromFilters), Values(t, FromFilters));
    FewerActive(Values(o, ToFilters), Values(t, ToFilters));
  }

  /** Apart from the single commit, the last two steps give no setting a
      value it did not have. */
  lemma LastStepsOnlyClear(o: Settings)
    ensures var t := MergeDuplicateRange(WithTimezones(o));
            forall k :: k != Single && Get(t, k) != Unset ==> Get(o, k) != Unset
  {
    var z := WithTimezones(o);
    assert forall k :: k in TimeFilters ==> (Get(z, k) != Unset <==> Get(o, k) != Unset);
  }

  /** Merging an identical pair leaves the normalised dates alone. */
  lemma LastStepsKeepTimes(o: Settings)
    ensures var t := MergeDuplicateRange(WithTimezones(o));
            forall k :: k in TimeFilters ==> Get(t, k) == Zoned(Get(o, k))
    ensures var t := MergeDuplicateRange(WithTimezones(o));
            forall k :: k in TimeFilters && Get(t, k).Time? ==> Get(t, k).time.offset.Some?
  {
    var z := WithTimezones(o);
    var t := MergeDuplicateRange(z);
    forall k | k in TimeFilters
      ensures Get(t, k) == Get(z, k) == Zoned(Get(o, k))
    {
    }
  }

  /** Commit bounds left after the last two steps are those of `o`. */
  lemma LastStepsKeepBounds(o: Settings)
    ensures var t := MergeDuplicateRange(WithTimezones(o));
            Truthy(Get(t, FromCommit)) && Truthy(Get(t, ToCommit)) ==>
              Get(t, FromCommit) == Get(o, FromCommit) && Get(t, ToCommit) == Get(o, ToCommit)
  {
    var z := WithTimezones(o);
    assert Get(z, FromCommit) == Get(o, FromCommit);
    assert Get(z, ToCommit) == Get(o, ToCommit);
  }

  // ---------------------------------------------------------------------
  // The settings object

  const BadRepositoryPath := "Repository path must be either a string or list of strings"

  /** `_validate_repository_paths` and `_process_repository_paths`: a single
      path becomes a one-element list, a list is kept, anything else raises. */
  function RepositoryPaths(path: Value): (r: Result<Value, Error>)
    ensures r.Success? <==> path.Text? || path.Texts?
    ensures r.Failure? ==> r.error == Raised(BadRepositoryPath)
    ensures path.Text? ==> r == Success(Texts([path.text]))
    ensures path.Texts? ==> r == Success(path)
  {
    match path
    case Text(p) => Success(Texts([p]))
    case Texts(ps) => Success(Texts(ps))
    case _ => Failure(Raised(BadRepositoryPath))
  }

  /** `ConfigurationManager`: the settings dictionary, updated in place, and
      the repository its `git` setting stands for. */
  class ConfigurationManager {
    var settings: Settings
    const git: Repo

    constructor (params: Settings, git: Repo)
      ensures settings == params && this.git == git
    {
      settings := params;
      this.git := git;
    }

    /** `__init__`: copy the parameters, check the repository path and store
        it as a list under `path_to_repos`. */
    static method Create(params: Settings, git: Repo) returns (r: Result<ConfigurationManager, Error>)
      ensures r.Failure? <==> RepositoryPaths(Get(params, PathToRepo)).Failure?
      ensures r.Failure? ==> r.error == Raised(BadRepositoryPath)
      ensures r.Success? ==> fresh(r.value) && r.value.git == git
                             && r.value.settings == params[PathToRepos := RepositoryPaths(Get(params, PathToRepo)).value]
    {
      var paths := RepositoryPaths(Get(params, PathToRepo));
      if paths.Failure? {
        return Failure(paths.error);
      }
      var m := new ConfigurationManager(params, git);
      m.UpdateSetting(PathToRepos, paths.value);
      return Success(m);
    }

    /** `update_setting`. */
    method UpdateSetting(key: Key, value: Value)
      modifies this
      ensures settings == old(settings)[key := value]
    {
      settings := settings[key := value];
    }

    /** `_swap_commit_filters`. */
    method SwapCommitFilters()
      modifies this
      ensures settings == Swap(old(settings))
    {
      var from, to := Get(settings, FromCommit), Get(settings, ToCommit);
      UpdateSetting(FromCommit, to);
      UpdateSetting(ToCommit, from);
    }

    /** `_validate_filter_order`. */
    method ValidateFilterOrder() returns (r: Outcome<Error>)
      modifies this
      ensures OrderFilters(old(settings), git).Success? ==> r == Pass && settings == OrderFilters(old(settings), git).value
      ensures OrderFilters(old(settings), git).Failure? ==> r == Fail(OrderFilters(old(settings), git).error) && settings == old(settings)
    {
      var from, to := Get(settings, FromCommit), Get(settings, ToCommit);
      if Truthy(from) && Truthy(to) {
        var a := GetCommit(git, TextOf(from));
        if a.Failure? {
          return Fail(a.error);
        }
        var b := GetCommit(git, TextOf(to));
        if b.Failure? {
          return Fail(b.error);
        }
        if !Before(a.value, b.value) {
          SwapCommitFilters();
        }
      }
      return Pass;
    }

    /** `_validate_timezone_settings`. */
    method ValidateTimezoneSettings()
      modifies this
      ensures settings == WithTimezones(old(settings))
    {
      settings := NormaliseTimes(settings);
    }

    /** `_handle_duplicate_commit_range`. */
    method HandleDuplicateCommitRange()
      modifies this
      ensures settings == MergeDuplicateRange(old(settings))
    {
      var from, to := Get(settings, FromCommit), Get(settings, ToCommit);
      if Truthy(from) && Truthy(to) && from == to {
        UpdateSetting(Single, to);
        UpdateSetting(FromCommit, Unset);
        UpdateSetting(ToCommit, Unset);
      }
    }

    /** `validate_filters`. */
    method ValidateFilters() returns (r: Outcome<Error>)
      modifies this
      ensures (r, settings) == Validation(old(settings), git)
    {
      r := ValidateFilterOrder();
      if r.Fail? {
        return;
      }
      r := FromFiltersCheck(settings);
      if r.Fail? {
        return;
      }
      r := ToFiltersCheck(settings);
      if r.Fail? {
        return;
      }
      ValidateTimezoneSettings();
      HandleDuplicateCommitRange();
    }
  }

  // ---------------------------------------------------------------------
  // Revision arguments

  /** What `git rev-list` is given to walk: one reference name, or a list of
      arguments. */
  datatype Revision = Ref(name: string) | Args(args: seq<string>)

  /** `_build_ancestry_path_args` and its copy `_build_ancestry_args`: limit
      the walk to descendants of `c`, and exclude `c`'s own parents. */
  function AncestryArgs(c: Commit): (r: seq<string>)
    ensures |r| >= 1 && r[0] == "--ancestry-path=" + c.hash
    ensures |c.parents| == 0 ==> |r| == 1
    ensures |c.parents| == 1 ==> r == [r[0], "^" + c.hash + "^"]
    ensures |c.parents| >= 2 ==> |r| == |c.parents| + 1 && forall i :: 0 <= i < |c.parents| ==> r[i + 1] == "^" + c.parents[i]
  {
    var base := "--ancestry-path=" + c.hash;
    if |c.parents| == 0 then [base]
    else if |c.parents| == 1 then [base, "^" + c.hash + "^"]
    else [base] + seq(|c.parents|, i requires 0 <= i < |c.parents| => "^" + c.parents[i])
  }

  /** A merge's exclusions name exactly its parents, in order. */
  lemma ExcludedParents(c: Commit)
    requires |c.parents| >= 2
    ensures var r := AncestryArgs(c);
            forall i :: 1 <= i < |r| ==> |r[i]| >= 1 && r[i][0] == '^'
    ensures var r := AncestryArgs(c);
            seq(|r| - 1, i requires 0 <= i < |r| - 1 => r[i + 1][1..]) == c.parents
  {
    var r := AncestryArgs(c);
    forall i | 0 <= i < |c.parents|
      ensures |r[i + 1]| >= 1 && r[i + 1][0] == '^' && r[i + 1][1..] == c.parents[i]
    {
      assert r[i + 1] == "^" + c.parents[i];
    }
  }

  /** Truthiness of a resolved start bound. */
  predicate StartGiven(start: Option<seq<string>>) {
    start.Some? && start.value != []
  }

  /** Truthiness of a resolved end bound. */
  predicate EndGiven(end: Option<string>) {
    end.Some? && end.value != ""
  }

  const GetStartInvalid := "Invalid from_tag/from_commit: "
  const GetEndInvalid := "Invalid to_tag/to_commit: "
  const ResolveStartInvalid := "Invalid commit specified in from_tag/from_commit filter: "
  const ResolveEndInvalid := "Invalid commit specified in to_tag/to_commit filter: "

  /** The name one end of the range refers to: the commit of its tag when a
      tag is given (a failed tag lookup raises), else its commit setting. */
  function BoundName(s: Settings, git: Repo, tagKey: Key, commitKey: Key): (r: Result<Value, Error>)
    ensures Truthy(Get(s, tagKey)) ==>
              r == (if TextOf(Get(s, tagKey)) in git.tags then Success(Text(git.tags[TextOf(Get(s, tagKey))].hash))
                    else Failure(LookupFailed(TextOf(Get(s, tagKey)))))
    ensures !Truthy(Get(s, tagKey)) ==> r == Success(Get(s, commitKey))
  {
    var tag := Get(s, tagKey);
    if Truthy(tag) then
      match GetCommitFromTag(git, TextOf(tag))
      case Failure(e) => Failure(e)
      case Success(c) => Success(Text(c.hash))
    else Success(Get(s, commitKey))
  }

  /** `get_start_commit` (with `invalid` = `GetStartInvalid`) and
      `resolve_start_commit` (with `ResolveStartInvalid`): the ancestry
      arguments of the from commit, `None` without one; a commit that does
      not resolve raises with `invalid` followed by its name. */
  function StartCommit(s: Settings, git: Repo, invalid: string): (r: Result<Option<seq<string>>, Error>)
    ensures r.Success? && r.value.Some? ==>
              BoundName(s, git, FromTag, FromCommit).Success?
              && var name := TextOf(BoundName(s, git, FromTag, FromCommit).value);
                 name in git.commits && r.value.value == AncestryArgs(git.commits[name])
    ensures r.Success? ==> (r.value.Some? <==> StartGiven(r.value))
    ensures r.Failure? && r.error.Raised? ==>
              BoundName(s, git, FromTag, FromCommit).Success?
              && r.error.message == invalid + TextOf(BoundName(s, git, FromTag, FromCommit).value)
    // a failed tag lookup is passed on
    ensures BoundName(s, git, FromTag, FromCommit).Failure? ==> r == Failure(BoundName(s, git, FromTag, FromCommit).error)
    // no name, no start; a known name resolves; an unknown one raises
    ensures BoundName(s, git, FromTag, FromCommit).Success? ==>
              var name := BoundName(s, git, FromTag, FromCommit).value;
              && (!Truthy(name) ==> r == Success(None))
              && (Truthy(name) && TextOf(name) in git.commits ==> r == Success(Some(AncestryArgs(git.commits[TextOf(name)]))))
              && (Truthy(name) && TextOf(name) !in git.commits ==> r == Failure(Raised(invalid + TextOf(name))))
  {
    match BoundName(s, git, FromTag, FromCommit)
    case Failure(e) => Failure(e)
    case Success(name) =>
      if !Truthy(name) then Success(None)
      else
        match GetCommit(git, TextOf(name))
        case Failure(_) => Failure(Raised(invalid + TextOf(name)))
        case Success(c) => Success(Some(AncestryArgs(c)))
  }

  /** `get_end_commit` and `resolve_end_commit`: the hash of the to commit,
      `None` without one. */
  function EndCommit(s: Settings, git: Repo, invalid: string): (r: Result<Option<string>, Error>)
    ensures r.Success? && r.value.Some? ==>
              BoundName(s, git, ToTag, ToCommit).Success?
              && var name := TextOf(BoundName(s, git, ToTag, ToCommit).value);
                 name in git.commits && r.value.value == git.commits[name].hash
    ensures r.Failure? && r.error.Raised? ==>
              BoundName(s, git, ToTag, ToCommit).Success?
              && r.error.message == invalid + TextOf(BoundName(s, git, ToTag, ToCommit).value)
    // a failed tag lookup is passed on
    ensures BoundName(s, git, ToTag, ToCommit).Failure? ==> r == Failure(BoundName(s, git, ToTag, ToCommit).error)
    // no name, no end; a known name resolves; an unknown one raises
    ensures BoundName(s, git, ToTag, ToCommit).Success? ==>
              var name := BoundName(s, git, ToTag, ToCommit).value;
              && (!Truthy(name) ==> r == Success(None))
              && (Truthy(name) && TextOf(name) in git.commits ==> r == Success(Some(git.commits[TextOf(name)].hash)))
              && (Truthy(name) && TextOf(name) !in git.commits ==> r == Failure(Raised(invalid + TextOf(name))))
  {
    match BoundName(s, git, ToTag, ToCommit)
    case Failure(e) => Failure(e)
    case Success(name) =>
      if !Truthy(name) then Success(None)
      else
        match GetCommit(git, TextOf(name))
        case Failure(_) => Failure(Raised(invalid + TextOf(name)))
        case Success(c) => Success(Some(c.hash))
  }

  /** `_build_commit_range` and its copy `_build_revision_range`: the start
      arguments followed by the end hash, or by `HEAD` without an end; the
      end alone without a start. */
  function CommitRange(start: Option<seq<string>>, end: Option<string>): (r: Option<Revision>)
    ensures StartGiven(start) ==> r == Some(Args(start.value + [if EndGiven(end) then end.value else "HEAD"]))
    ensures !StartGiven(start) ==> r == (if end.Some? then Some(Ref(end.value)) else None)
  {
    if StartGiven(start) && EndGiven(end) then Some(Args(start.value + [end.value]))
    else if StartGiven(start) then Some(Args(start.value + ["HEAD"]))
    else if end.Some? then Some(Ref(end.value))
    else None
  }

  /** `_determine_revision` and `_determine_revision_spec`, which differ only
      in the messages of the start and end bounds. */
  function RevisionFor(s: Settings, git: Repo, startInvalid: string, endInvalid: string): (r: Result<Revision, Error>)
    // a single commit wins over every other setting
    ensures Truthy(Get(s, Single)) ==> r == Success(Args([TextOf(Get(s, Single)), "-n", "1"]))
    // without bounds, the branch or HEAD
    ensures !Truthy(Get(s, Single)) && StartCommit(s, git, startInvalid) == Success(None)
            && EndCommit(s, git, endInvalid).Success? && !EndGiven(EndCommit(s, git, endInvalid).value) ==>
              r == Success(Ref(if Truthy(Get(s, OnlyInBranch)) then TextOf(Get(s, OnlyInBranch)) else "HEAD"))
    // with a bound, the range between them
    ensures !Truthy(Get(s, Single)) && r.Success? && r.value.Args? ==>
              StartCommit(s, git, startInvalid).Success? && EndCommit(s, git, endInvalid).Success?
              && var start := StartCommit(s, git, startInvalid).value;
                 StartGiven(start) && Some(r.value) == CommitRange(start, EndCommit(s, git, endInvalid).value)
    // a bound that fails to resolve is the failure, the start before the end
    ensures !Truthy(Get(s, Single)) && StartCommit(s, git, startInvalid).Failure? ==>
              r == Failure(StartCommit(s, git, startInvalid).error)
    ensures !Truthy(Get(s, Single)) && StartCommit(s, git, startInvalid).Success? && EndCommit(s, git, endInvalid).Failure? ==>
              r == Failure(EndCommit(s, git, endInvalid).error)
    // with a start or an end given, exactly the range they span
    ensures !Truthy(Get(s, Single)) && StartCommit(s, git, startInvalid).Success? && EndCommit(s, git, endInvalid).Success?
            && (StartGiven(StartCommit(s, git, startInvalid).value) || EndGiven(EndCommit(s, git, endInvalid).value)) ==>
              CommitRange(StartCommit(s, git, startInvalid).value, EndCommit(s, git, endInvalid).value).Some?
              && r == Success(CommitRange(StartCommit(s, git, startInvalid).value, EndCommit(s, git, endInvalid).value).value)
  {
    var single := Get(s, Single);
    if Truthy(single) then Success(Args([TextOf(single), "-n", "1"]))
    else
      match StartCommit(s, git, startInvalid)
      case Failure(e) => Failure(e)
      case Success(start) =>
        match EndCommit(s, git, endInvalid)
        case Failure(e) => Failure(e)
        case Success(end) =>
          if StartGiven(start) || EndGiven(end) then Success(CommitRange(start, end).value)
          else
            var branch := Get(s, OnlyInBranch);
            Success(Ref(if Truthy(branch) then TextOf(branch) else "HEAD"))
  }

  /** `_determine_revision`: what it raises itself names a bound that
      does not resolve, with the messages of `get_start_commit` and
      `get_end_commit`. */
  function DetermineRevision(s: Settings, git: Repo): (r: Result<Revision, Error>)
    ensures r.Failure? && r.error.Raised? ==>
              StartsWith(r.error.message, GetStartInvalid) || StartsWith(r.error.message, GetEndInvalid)
  {
    RevisionFor(s, git, GetStartInvalid, GetEndInvalid)
  }

  /** `_determine_revision_spec`: the same, with the messages of
      `resolve_start_commit` and `resolve_end_commit`. */
  function DetermineRevisionSpec(s: Settings, git: Repo): (r: Result<Revision, Error>)
    ensures r.Failure? && r.error.Raised? ==>
              StartsWith(r.error.message, ResolveStartInvalid) || StartsWith(r.error.message, ResolveEndInvalid)
  {
    RevisionFor(s, git, ResolveStartInvalid, ResolveEndInvalid)
  }

  /** The two copies choose the same revision and fail on the same settings;
      a failure they raise themselves names the same commit under different
      wording. */
  lemma RevisionCopiesAgree(s: Settings, git: Repo)
    ensures DetermineRevision(s, git).Success? <==> DetermineRevisionSpec(s, git).Success?
    ensures DetermineRevision(s, git).Success? ==> DetermineRevision(s, git) == DetermineRevisionSpec(s, git)
    ensures DetermineRevision(s, git).Failure? && DetermineRevision(s, git).error.LookupFailed? ==>
              DetermineRevision(s, git) == DetermineRevisionSpec(s, git)
    ensures DetermineRevision(s, git).Failure? && DetermineRevision(s, git).error.Raised? ==>
              var m, n := DetermineRevision(s, git).error.message, DetermineRevisionSpec(s, git).error.message;
              (StartsWith(m, GetStartInvalid) && StartsWith(n, ResolveStartInvalid)
               && m[|GetStartInvalid|..] == n[|ResolveStartInvalid|..])
              || (StartsWith(m, GetEndInvalid) && StartsWith(n, ResolveEndInvalid)
                  && m[|GetEndInvalid|..] == n[|ResolveEndInvalid|..])
  {
    var first, second := DetermineRevision(s, git), DetermineRevisionSpec(s, git);
    var start, start' := StartCommit(s, git, GetStartInvalid), StartCommit(s, git, ResolveStartInvalid);
    var end, end' := EndCommit(s, git, GetEndInvalid), EndCommit(s, git, ResolveEndInvalid);
    var from, to := BoundName(s, git, FromTag, FromCommit), BoundName(s, git, ToTag, ToCommit);
    if start.Failure? && start.error.Raised? {
      var h := TextOf(from.value);
      assert (GetStartInvalid + h)[|GetStartInvalid|..] == h;
      assert (ResolveStartInvalid + h)[|ResolveStartInvalid|..] == h;
    }
    if end.Failure? && end.error.Raised? {
      var h := TextOf(to.value);
      assert (GetEndInvalid + h)[|GetEndInvalid|..] == h;
      assert (ResolveEndInvalid + h)[|ResolveEndInvalid|..] == h;
    }
  }

  // ---------------------------------------------------------------------
  // Revision options

  /** The `git rev-list` options the builder can set, by their names:
      `reverse`, `date-order`, `author-date-order`, `topo-order`,
      `no-merges`, `all`, `remotes`, `author`, `since`, `since_as_filter`,
      `until`. */
  datatype RevListOption =
    | Reverse | DateOrder | AuthorDateOrder | TopoOrder
    | NoMerges | All | Remotes
    | Author | SinceOption | SinceAsFilterOption | Until

  /** The option a named order sets, for the three orders passed on. */
  function NamedOrder(order: string): Option<RevListOption> {
    if order == "date-order" then Some(DateOrder)
    else if order == "author-date-order" then Some(AuthorDateOrder)
    else if order == "topo-order" then Some(TopoOrder)
    else None
  }

  /** Each filter setting and the option it is copied to. */
  const FilterOptions: seq<(Key, RevListOption)> :=
    [(OnlyAuthors, Author), (Since, SinceOption), (SinceAsFilter, SinceAsFilterOption), (To, Until)]

  /** Who sets an option: the ordering, the switches or the filters. */
  datatype Part = Ordering | Switches | Filters

  function PartOf(k: RevListOption): Part {
    match k
    case Reverse | DateOrder | AuthorDateOrder | TopoOrder => Ordering
    case NoMerges | All | Remotes => Switches
    case _ => Filters
  }

  type Options = map<RevListOption, Value>

  /** What the settings give option `k`; `Unset` when they leave it out. No
      order asked for walks oldest first, `reverse` walks in git's own
      newest-first order, a named order sets its own option and any other
      order sets none; a switch is set when its setting is truthy; a filter
      option holds its setting. */
  function OptionValue(s: Settings, k: RevListOption): Value {
    var order := Get(s, Order);
    match k
    case Reverse => if !Truthy(order) then Flag(true) else if order == Text("reverse") then Flag(false) else Unset
    case NoMerges => if Truthy(Get(s, OnlyNoMerge)) then Flag(true) else Unset
    case All => if Truthy(Get(s, IncludeRefs)) then Flag(true) else Unset
    case Remotes => if Truthy(Get(s, IncludeRemotes)) then Flag(true) else Unset
    case Author => Get(s, OnlyAuthors)
    case SinceOption => Get(s, Since)
    case SinceAsFilterOption => Get(s, SinceAsFilter)
    case Until => Get(s, To)
    case _ => if order.Text? && order != Text("reverse") && NamedOrder(order.text) == Some(k) then Flag(true) else Unset
  }

  /** `o` holds, for each option set by `part`, exactly what the settings
      give it. */
  predicate Holds(o: Options, s: Settings, part: Part) {
    forall k :: PartOf(k) == part ==> (k in o <==> OptionValue(s, k) != Unset) && (k in o ==> o[k] == OptionValue(s, k))
  }

  /** `o` and `p` agree on the options `part` does not set. */
  predicate SameOutside(o: Options, p: Options, part: Part) {
    forall k :: PartOf(k) != part ==> (k in o <==> k in p) && (k in o ==> o[k] == p[k])
  }

  /** `_build_revision_options`: the ordering option, then the switches and
      the filters; every option holds what the settings give it. */
  method BuildRevisionOptions(s: Settings) returns (options: Options)
    ensures forall k :: (k in options <==> OptionValue(s, k) != Unset) && (k in options ==> options[k] == OptionValue(s, k))
  {
    options := OrderingOption(s);
    var ordered := options;
    options := AddBooleanOptions(s, options);
    var switched := options;
    options := AddFilterOptions(s, options);
    forall k
      ensures (k in options <==> OptionValue(s, k) != Unset) && (k in options ==> options[k] == OptionValue(s, k))
    {
    }
  }

  /** The ordering part of `_build_revision_options`. */
  method OrderingOption(s: Settings) returns (options: Options)
    ensures Holds(options, s, Ordering)
    ensures forall k :: k in options ==> PartOf(k) == Ordering
  {
    options := map[];
    var order := Get(s, Order);
    if !Truthy(order) {
      options := options[Reverse := Flag(true)];
    } else if order == Text("reverse") {
      options := options[Reverse := Flag(false)];
    } else if order.Text? && NamedOrder(order.text).Some? {
      options := options[NamedOrder(order.text).value := Flag(true)];
    }
  }

  /** `_add_boolean_options`: each switch that is set adds its option. */
  method AddBooleanOptions(s: Settings, options: Options) returns (out: Options)
    requires forall k :: k in options ==> PartOf(k) != Switches
    ensures SameOutside(out, options, Switches)
    ensures Holds(out, s, Switches)
  {
    out := options;
    if Truthy(Get(s, OnlyNoMerge)) {
      out := out[NoMerges := Flag(true)];
    }
    if Truthy(Get(s, IncludeRefs)) {
      out := out[All := Flag(true)];
    }
    if Truthy(Get(s, IncludeRemotes)) {
      out := out[Remotes := Flag(true)];
    }
  }

  /** `_add_filter_options`: each filter setting that is not `None` is copied
      to its option, in the order of the mapping. */
  method AddFilterOptions(s: Settings, options: Options) returns (out: Options)
    requires forall k :: k in options ==> PartOf(k) != Filters
    ensures SameOutside(out, options, Filters)
    ensures Holds(out, s, Filters)
  {
    out := options;
    for i := 0 to |FilterOptions|
      invariant SameOutside(out, options, Filters)
      invariant forall j :: 0 <= j < i ==> Copied(out, s, FilterOptions[j])
      invariant forall j :: i <= j < |FilterOptions| ==> FilterOptions[j].1 !in out
    {
      var (setting, option) := FilterOptions[i];
      var value := Get(s, setting);
      if value != Unset {
        out := out[option := value];
      }
    }
    AllCopied(out, s);
  }

  /** Copying every pair of the mapping sets every filter option. */
  lemma AllCopied(o: Options, s: Settings)
    requires forall j :: 0 <= j < |FilterOptions| ==> Copied(o, s, FilterOptions[j])
    ensures Holds(o, s, Filters)
  {
    assert Copied(o, s, FilterOptions[0]) && Copied(o, s, FilterOptions[1]);
    assert Copied(o, s, FilterOptions[2]) && Copied(o, s, FilterOptions[3]);
  }

  /** `o` holds the filter setting `m.0` under its option `m.1` exactly when
      the setting is not `None`. */
  predicate Copied(o: Options, s: Settings, m: (Key, RevListOption)) {
    (m.1 in o <==> Get(s, m.0) != Unset) && (m.1 in o ==> o[m.1] == Get(s, m.0))
  }

  /** Ordering: no order walks oldest first, `reverse` newest first, and at
      most one ordering option is ever set. */
  lemma OrderingOptions(s: Settings, j: RevListOption, k: RevListOption)
    ensures OptionValue(s, Reverse) != Unset <==> !Truthy(Get(s, Order)) || Get(s, Order) == Text("reverse")
    ensures OptionValue(s, Reverse) != Unset ==> OptionValue(s, Reverse) == Flag(!Truthy(Get(s, Order)))
    ensures PartOf(j) == Ordering && PartOf(k) == Ordering && OptionValue(s, j) != Unset && OptionValue(s, k) != Unset ==> j == k
  {
  }

  // ---------------------------------------------------------------------
  // Commit filters

  const IdFilters: seq<Key> := [OnlyCommits, FilepathCommits, TaggedCommits]

  /** The suffixes a file-type filter lists. */
  function Suffixes(v: Value): seq<string> {
    if v.Texts? then v.texts else []
  }

  /** The hashes a commit filter admits, given as a set or a list. */
  function Members(v: Value): set<string> {
    match v
    case Hashes(hs) => hs
    case Texts(xs) => set x | x in xs
    case _ => {}
  }

  /** A filter that is falsy admits no hash. */
  lemma FalsyFiltersAdmitNothing()
    ensures forall v :: !Truthy(v) ==> Members(v) == {}
  {
    forall v | !Truthy(v)
      ensures Members(v) == {}
    {
      if v.Texts? {
        assert v.texts == [];
      }
    }
  }

  /** `_should_filter_by_file_type` and its copy `_should_exclude_by_file_type`:
      a file-type filter is given and no modified file's name ends with one
      of its suffixes. */
  predicate FileTypeMismatch(s: Settings, c: Commit)
    // without a file-type filter nothing is dropped for its files
    ensures !Truthy(Get(s, FileTypes)) ==> !FileTypeMismatch(s, c)
    // with one, a commit is kept exactly when one of its files matches
    ensures Truthy(Get(s, FileTypes)) ==>
              (!FileTypeMismatch(s, c) <==> exists f :: f in c.changes && EndsWithAny(f.filename, Suffixes(Get(s, FileTypes))))
  {
    var types := Get(s, FileTypes);
    Truthy(types) && !exists i :: 0 <= i < |c.changes| && EndsWithAny(c.changes[i].filename, Suffixes(types))
  }

  /** `should_filter_commit`: the file types do not match, or a commit filter
      that is not `None` lacks the commit. */
  predicate ShouldFilterCommit(s: Settings, c: Commit)
    // a kept commit matches the file types and lies in every given commit filter
    ensures !ShouldFilterCommit(s, c) ==>
              !FileTypeMismatch(s, c)
              && forall i :: 0 <= i < |IdFilters| && Get(s, IdFilters[i]) != Unset ==> c.hash in Members(Get(s, IdFilters[i]))
    // a commit filter given but empty drops every commit
    ensures (exists i :: 0 <= i < |IdFilters| && Get(s, IdFilters[i]) != Unset && !Truthy(Get(s, IdFilters[i]))) ==>
              ShouldFilterCommit(s, c)
  {
    FalsyFiltersAdmitNothing();
    FileTypeMismatch(s, c)
    || exists i :: 0 <= i < |IdFilters| && Get(s, IdFilters[i]) != Unset && c.hash !in Members(Get(s, IdFilters[i]))
  }

  /** What `should_exclude_commit` decides: like `should_filter_commit`, but a
      commit filter only counts when it is truthy. */
  predicate Excluded(s: Settings, c: Commit) {
    FileTypeMismatch(s, c)
    || exists i :: 0 <= i < |IdFilters| && Truthy(Get(s, IdFilters[i])) && c.hash !in Members(Get(s, IdFilters[i]))
  }

  /** `should_exclude_commit`: the file types first, then each commit filter
      in turn, stopping at the first that lacks the commit. */
  method ShouldExcludeCommit(s: Settings, c: Commit) returns (r: bool)
    ensures r == Excluded(s, c)
  {
    if FileTypeMismatch(s, c) {
      return true;
    }
    for i := 0 to |IdFilters|
      invariant forall j :: 0 <= j < i ==> !(Truthy(Get(s, IdFilters[j])) && c.hash !in Members(Get(s, IdFilters[j])))
    {
      var filterSet := Get(s, IdFilters[i]);
      if Truthy(filterSet) && c.hash !in Members(filterSet) {
        return true;
      }
    }
    return false;
  }

  /** The two filters agree except on a commit filter that is given but
      empty: `should_filter_commit` then drops every commit, while
      `should_exclude_commit` ignores it. */
  lemma FilterAndExcludeDiffer(s: Settings, c: Commit)
    ensures ShouldFilterCommit(s, c) <==>
              Excluded(s, c) || exists i :: 0 <= i < |IdFilters| && Get(s, IdFilters[i]) != Unset && !Truthy(Get(s, IdFilters[i]))
    ensures (forall i :: 0 <= i < |IdFilters| ==> Get(s, IdFilters[i]) == Unset || Truthy(Get(s, IdFilters[i]))) ==>
              (ShouldFilterCommit(s, c) <==> Excluded(s, c))
  {
    forall i | 0 <= i < |IdFilters| && Get(s, IdFilters[i]) != Unset && !Truthy(Get(s, IdFilters[i]))
      ensures c.hash !in Members(Get(s, IdFilters[i]))
    {
      var v := Get(s, IdFilters[i]);
      if v.Texts? {
        assert v.texts == [];
      }
    }
  }
}
