/** The tzdata version string of the source tarball: the first group of
    `re.search('(tzdata.+)\.tar\.gz', os.path.basename(path))`. */
module Version {
  import opened Tzdata

  datatype Option<T> = None | Some(value: T)

  /** `os.path.basename`: the text after the last `/` (all of the path when
      it has none). */
  function Basename(path: string): (name: string)
    ensures '/' !in name
    ensures |name| <= |path| && name == path[|path| - |name|..]
    ensures |name| < |path| ==> path[|path| - |name| - 1] == '/'
    decreases |path|
  {
    if path == [] || path[|path| - 1] == '/' then []
    else Basename(path[..|path| - 1]) + [path[|path| - 1]]
  }

  lemma {:induction false} BasenameAfterSlash(dir: string, name: string)
    requires '/' !in name
    ensures Basename(dir + "/" + name) == name
    decreases |name|
  {
    var path := dir + "/" + name;
    if name == [] {
      assert path[|path| - 1] == '/';
    } else {
      var n := |name| - 1;
      assert path[..|path| - 1] == dir + "/" + name[..n];
      assert path[|path| - 1] == name[n] != '/';
      BasenameAfterSlash(dir, name[..n]);
      assert name == name[..n] + [name[n]];
    }
  }

  const Prefix: string := "tzdata"
  const Suffix: string := ".tar.gz"

  /** `.tar.gz` stands at `j` in `s`. */
  predicate SuffixAt(s: string, j: int) {
    0 <= j && j + |Suffix| <= |s| && s[j..j + |Suffix|] == Suffix
  }

  /** The pattern `(tzdata.+)\.tar\.gz` matches `s` from `start` with group 1
      ending at `end`: `tzdata`, then at least one character other than a
      line feed (what `.` matches), then `.tar.gz`. */
  predicate MatchesAt(s: string, start: int, end: int) {
    && 0 <= start && start + |Prefix| < end
    && SuffixAt(s, end)
    && s[start..start + |Prefix|] == Prefix
    && forall k :: start + |Prefix| <= k < end ==> s[k] != '\n'
  }

  /** The span of group 1 in the match object. */
  datatype Span = Span(start: nat, end: nat)

  /** Index of the first line feed at or after `k`, or `|s|`: how far the
      greedy `.+` can reach. */
  function RunEnd(s: string, k: nat): (e: nat)
    requires k <= |s|
    ensures k <= e <= |s|
    ensures forall m :: k <= m < e ==> s[m] != '\n'
    ensures e < |s| ==> s[e] == '\n'
    decreases |s| - k
  {
    if k == |s| || s[k] == '\n' then k else RunEnd(s, k + 1)
  }

  /** The greatest `j` in `[lo, hi]` at which `.tar.gz` stands: where the
      backtracking greedy `.+` first succeeds. */
  function LastSuffix(s: string, lo: int, hi: int): (r: Option<nat>)
    ensures r.Some? ==> lo <= r.value <= hi && SuffixAt(s, r.value)
    ensures r.Some? ==> forall j :: r.value < j <= hi ==> !SuffixAt(s, j)
    ensures r.None? ==> forall j :: lo <= j <= hi ==> !SuffixAt(s, j)
    decreases hi - lo
  {
    if hi < lo then None
    else if SuffixAt(s, hi) then Some(hi)
    else LastSuffix(s, lo, hi - 1)
  }

  /** The end of group 1 when the pattern is tried at `start`. */
  function MatchFrom(s: string, start: nat): (r: Option<nat>)
    ensures r.Some? ==> MatchesAt(s, start, r.value)
    ensures r.Some? ==> forall j :: r.value < j ==> !MatchesAt(s, start, j)
    ensures r.None? ==> forall j :: !MatchesAt(s, start, j)
  {
    if start + |Prefix| <= |s| && s[start..start + |Prefix|] == Prefix then
      LastSuffix(s, start + |Prefix| + 1, RunEnd(s, start + |Prefix|))
    else None
  }

  /** `re.search` tries each start position from `from` on, left to right. */
  function SearchFrom(s: string, from: nat): (r: Option<Span>)
    ensures r.Some? ==> from <= r.value.start && MatchesAt(s, r.value.start, r.value.end)
    ensures r.Some? ==> forall i, j :: from <= i < r.value.start ==> !MatchesAt(s, i, j)
    ensures r.Some? ==> forall j :: r.value.end < j ==> !MatchesAt(s, r.value.start, j)
    ensures r.None? ==> forall i, j :: from <= i ==> !MatchesAt(s, i, j)
    decreases |s| - from
  {
    if from > |s| then None
    else
      match MatchFrom(s, from)
      case Some(end) => Some(Span(from, end))
      case None => SearchFrom(s, from + 1)
  }

  /** The match `re.search` finds: the leftmost start, and for it the longest
      group. */
  function Search(s: string): (r: Option<Span>)
    ensures r.Some? ==> MatchesAt(s, r.value.start, r.value.end)
    ensures r.Some? ==> forall i, j :: 0 <= i < r.value.start ==> !MatchesAt(s, i, j)
    ensures r.Some? ==> forall j :: r.value.end < j ==> !MatchesAt(s, r.value.start, j)
    ensures r.None? ==> forall i, j :: !MatchesAt(s, i, j)
  {
    SearchFrom(s, 0)
  }

  /** `new_version` in `BuildTzdata`; calling `.group(1)` when nothing
      matched is an error. */
  function ExtractVersion(path: string): (r: Result<string>)
    ensures r.Err? <==> forall i, j :: !MatchesAt(Basename(path), i, j)
    ensures r.Err? ==> r.error == NoVersionMatch
    ensures r.Ok? ==> |r.value| > |Prefix| && r.value[..|Prefix|] == Prefix
    ensures r.Ok? ==> '/' !in r.value && '\n' !in r.value
  {
    var name := Basename(path);
    match Search(name)
    case None => Err(NoVersionMatch)
    case Some(span) =>
      GroupOfMatch(name, span.start, span.end);
      Ok(name[span.start..span.end])
  }

  /** Group 1 of a match starts with `tzdata` and holds no line feed, and
      no `/` when the subject has none. */
  lemma GroupOfMatch(s: string, start: nat, end: nat)
    requires MatchesAt(s, start, end)
    ensures var g := s[start..end];
      && |g| > |Prefix| && g[..|Prefix|] == Prefix
      && '\n' !in g
      && ('/' !in s ==> '/' !in g)
  {
    var g := s[start..end];
    assert g[..|Prefix|] == s[start..start + |Prefix|];
    forall k | 0 <= k < |g| ensures g[k] != '\n' {
      if k < |Prefix| {
        assert g[k] == Prefix[k];
      } else {
        assert g[k] == s[start + k];
      }
    }
  }

  /** For the conventional file name `tzdata<v>.tar.gz`, alone or after a
      directory, the version is `tzdata<v>`. */
  lemma ConventionalVersion(dir: string, v: string)
    requires v != [] && '\n' !in v && '/' !in v
    ensures ExtractVersion(Prefix + v + Suffix) == Ok(Prefix + v)
    ensures ExtractVersion(dir + "/" + Prefix + v + Suffix) == Ok(Prefix + v)
  {
    var name := Prefix + v + Suffix;
    assert '/' !in name;
    BasenameAfterSlash(dir, name);
    assert dir + "/" + Prefix + v + Suffix == dir + "/" + name;
    assert Basename(name) == name;
    ConventionalGroup(v);
  }

  /** In `tzdata<v>.tar.gz` the search finds group 1 `tzdata<v>`: the match
      starting at 0 and ending at the final `.tar.gz` is leftmost and
      longest. */
  lemma ConventionalGroup(v: string)
    requires v != [] && '\n' !in v
    ensures var name := Prefix + v + Suffix;
      Search(name) == Some(Span(0, |name| - |Suffix|)) && name[..|name| - |Suffix|] == Prefix + v
  {
    var name := Prefix + v + Suffix;
    var end := |name| - |Suffix|;
    assert name[..|Prefix|] == Prefix;
    assert name[end..end + |Suffix|] == Suffix;
    forall k | |Prefix| <= k < end ensures name[k] != '\n' {
      assert name[k] == v[k - |Prefix|];
    }
    assert MatchesAt(name, 0, end);
    assert name[..end] == Prefix + v;
  }
}
