/** Release branches in version order: ranges of versions, and the chain of
    releases between two of them. */
module Releases {
  import StableSort
  import opened Strings
  import opened Versions
  import opened Wrappers

  datatype Error = NotAVersion | StopIteration | IndexError | KeyError | AttributeError | ValueError

  /** b is no lower than a. */
  predicate AtMost(a: Version, b: Version) { !Less(b, a) }

  ghost predicate Ascending(versions: seq<Version>) {
    forall i, j | 0 <= i < j < |versions| :: AtMost(versions[i], versions[j])
  }

  // ---------------------------------------------------------------------------
  // Versions within a range
  // ---------------------------------------------------------------------------

  /** The first version of the list that is above v, as an index; |versions| if
      there is none. */
  function FirstAbove(versions: seq<Version>, v: Version, i: nat): (k: nat)
    requires i <= |versions|
    ensures i <= k <= |versions|
    ensures forall j | i <= j < k :: !Less(v, versions[j])
    ensures k < |versions| ==> Less(v, versions[k])
    decreases |versions| - i
  {
    if i == |versions| || Less(v, versions[i]) then i else FirstAbove(versions, v, i + 1)
  }

  function CountAbove(versions: seq<Version>, v: Version, n: nat): nat
    requires n <= |versions|
  {
    if n == 0 then 0 else CountAbove(versions, v, n - 1) + if Less(v, versions[n - 1]) then 1 else 0
  }

  /** Moving the cursor up to an available version leaves fewer above it. */
  lemma {:induction false} FewerAbove(versions: seq<Version>, v: Version, k: nat, n: nat)
    requires n <= |versions| && k < |versions| && Less(v, versions[k])
    ensures CountAbove(versions, versions[k], n) <= CountAbove(versions, v, n)
    ensures k < n ==> CountAbove(versions, versions[k], n) < CountAbove(versions, v, n)
  {
    if n > 0 {
      FewerAbove(versions, v, k, n - 1);
      if Less(versions[k], versions[n - 1]) {
        LessIsTransitive(v, versions[k], versions[n - 1]);
      }
      Trichotomy(versions[k], versions[k]);
    }
  }

  /** A chain of ranges: each starts where the one before it ended, and ends at an
      available version above its start. */
  ghost predicate IsChain(pairs: seq<(Version, Version)>, from: Version, versions: seq<Version>) {
    forall i | 0 <= i < |pairs| ::
      && pairs[i].0 == EndOf(pairs[..i], from)
      && pairs[i].1 in versions && Less(pairs[i].0, pairs[i].1)
  }

  /** The end of a range is the least available version above its start. */
  ghost predicate NoGap(p: (Version, Version), versions: seq<Version>) {
    forall v | v in versions && Less(p.0, v) :: AtMost(p.1, v)
  }

  /** Where a chain has got to. */
  ghost function EndOf(pairs: seq<(Version, Version)>, from: Version): Version {
    if |pairs| == 0 then from else pairs[|pairs| - 1].1
  }

  ghost predicate Gapless(pairs: seq<(Version, Version)>, versions: seq<Version>) {
    forall i | 0 <= i < |pairs| :: NoGap(pairs[i], versions)
  }

  ghost predicate StartBelow(pairs: seq<(Version, Version)>, high: Version) {
    forall i | 0 <= i < |pairs| :: Less(pairs[i].0, high)
  }

  lemma ChainExtended(pairs: seq<(Version, Version)>, from: Version, versions: seq<Version>, v: Version)
    requires IsChain(pairs, from, versions) && v in versions && Less(EndOf(pairs, from), v)
    ensures IsChain(pairs + [(EndOf(pairs, from), v)], from, versions)
  {
    var more := pairs + [(EndOf(pairs, from), v)];
    forall i | 0 <= i < |more|
      ensures more[i].0 == EndOf(more[..i], from) && more[i].1 in versions && Less(more[i].0, more[i].1)
    {
      assert i < |pairs| ==> more[..i] == pairs[..i] && more[i] == pairs[i];
      assert i == |pairs| ==> more[..i] == pairs;
    }
  }

  /** What the loop keeps. */
  ghost predicate Progress(pairs: seq<(Version, Version)>, low: Version, high: Version, versions: seq<Version>) {
    IsChain(pairs, low, versions) && StartBelow(pairs, high) && (Ascending(versions) ==> Gapless(pairs, versions))
  }

  lemma ProgressStep(pairs: seq<(Version, Version)>, low: Version, high: Version, versions: seq<Version>,
                     cursor: Version, k: nat)
    requires Progress(pairs, low, high, versions) && cursor == EndOf(pairs, low) && Less(cursor, high)
    requires k < |versions| && k == FirstAbove(versions, cursor, 0)
    ensures Progress(pairs + [(cursor, versions[k])], low, high, versions)
    ensures EndOf(pairs + [(cursor, versions[k])], low) == versions[k]
    ensures CountAbove(versions, versions[k], |versions|) < CountAbove(versions, cursor, |versions|)
  {
    ChainExtended(pairs, low, versions, versions[k]);
    FirstAboveIsLeast(versions, cursor, k);
    FewerAbove(versions, cursor, k, |versions|);
  }

  /** The chain from one version up to or past the other.  It fails exactly when
      no available version gets there, or when an end is no version at all. */
  method GetVersionsWithinRange(from: string, to: string, versions: seq<Version>)
    returns (r: Result<seq<(Version, Version)>, Error>)
    ensures r == Err(NotAVersion) <==> StrToVer(from) == None || StrToVer(to) == None
    ensures StrToVer(from).Some? && StrToVer(to).Some? ==>
              var low, high := StrToVer(from).value, StrToVer(to).value;
              && (r.Err? <==> Less(low, high) && forall v | v in versions :: Less(v, high))
              && (r.Ok? ==>
                    && IsChain(r.value, low, versions) && AtMost(high, EndOf(r.value, low)) && StartBelow(r.value, high)
                    && (Ascending(versions) ==> Gapless(r.value, versions)))
  {
    var low, high := StrToVer(from), StrToVer(to);
    if low.None? || high.None? {
      return Err(NotAVersion);
    }
    var cursor, pairs := low.value, [];
    while Less(cursor, high.value)
      invariant Progress(pairs, low.value, high.value, versions) && cursor == EndOf(pairs, low.value)
      decreases CountAbove(versions, cursor, |versions|)
    {
      var k := FirstAbove(versions, cursor, 0);
      if k == |versions| {
        NoneReaches(pairs, low.value, versions, high.value);
        return Err(StopIteration);
      }
      ProgressStep(pairs, low.value, high.value, versions, cursor, k);
      pairs := pairs + [(cursor, versions[k])];
      cursor := versions[k];
    }
    EndReaches(pairs, low.value, versions, high.value);
    return Ok(pairs);
  }

  lemma NoneReaches(pairs: seq<(Version, Version)>, low: Version, versions: seq<Version>, high: Version)
    requires StartBelow(pairs, high) && IsChain(pairs, low, versions) && Less(EndOf(pairs, low), high)
    requires forall j | 0 <= j < |versions| :: !Less(EndOf(pairs, low), versions[j])
    ensures Less(low, high) && forall v | v in versions :: Less(v, high)
  {
    var cursor := EndOf(pairs, low);
    assert |pairs| > 0 ==> pairs[0].0 == EndOf(pairs[..0], low);
    forall v | v in versions ensures Less(v, high) {
      Trichotomy(cursor, high);
      NotLessIsTransitive(v, cursor, high);
    }
  }

  lemma EndReaches(pairs: seq<(Version, Version)>, from: Version, versions: seq<Version>, high: Version)
    requires IsChain(pairs, from, versions) && !Less(EndOf(pairs, from), high)
    ensures Less(from, high) ==> exists v :: v in versions && !Less(v, high)
  {
    if |pairs| > 0 {
      assert pairs[|pairs| - 1].1 in versions;
    }
  }

  lemma FirstAboveIsLeast(versions: seq<Version>, v: Version, k: nat)
    requires k < |versions| && k == FirstAbove(versions, v, 0)
    ensures Ascending(versions) ==> NoGap((v, versions[k]), versions)
  {
    if Ascending(versions) {
      forall w | w in versions && Less(v, w)
        ensures AtMost(versions[k], w)
      {
        var j :| 0 <= j < |versions| && versions[j] == w;
        Trichotomy(w, w);
      }
    }
  }

  /** The ends of a chain go up. */
  lemma {:induction false} ChainGoesUp(pairs: seq<(Version, Version)>, from: Version, versions: seq<Version>,
                                       i: nat, j: nat)
    requires IsChain(pairs, from, versions) && i < j < |pairs|
    ensures Less(pairs[i].1, pairs[j].1)
    decreases j
  {
    if i + 1 < j {
      ChainGoesUp(pairs, from, versions, i, j - 1);
      assert pairs[..j][j - 1] == pairs[j - 1];
      LessIsTransitive(pairs[i].1, pairs[j].0, pairs[j].1);
    }
  }

  lemma {:induction false} ChainCovers(pairs: seq<(Version, Version)>, from: Version, versions: seq<Version>,
                                       v: Version, n: nat)
    returns (i: nat)
    requires IsChain(pairs, from, versions) && n <= |pairs|
    requires Gapless(pairs, versions)
    requires v in versions && Less(from, v) && AtMost(v, EndOf(pairs[..n], from)) && n > 0
    ensures i < n && Same(pairs[i].1, v)
  {
    i := n - 1;
    assert EndOf(pairs[..n], from) == pairs[i].1 && pairs[i].0 == EndOf(pairs[..i], from);
    Trichotomy(pairs[i].1, v);
    if Less(v, pairs[i].1) {
      assert NoGap(pairs[i], versions);
      assert AtMost(v, EndOf(pairs[..i], from));
      assert i > 0;
      i := ChainCovers(pairs, from, versions, v, n - 1);
    }
  }

  /** So every available version strictly inside the range is the end of exactly
      one of its parts. */
  lemma EveryVersionInsideIsAnEnd(pairs: seq<(Version, Version)>, from: Version, to: Version,
                                  versions: seq<Version>, v: Version)
    requires IsChain(pairs, from, versions) && AtMost(to, EndOf(pairs, from))
    requires Gapless(pairs, versions)
    requires v in versions && Less(from, v) && Less(v, to)
    ensures exists i | 0 <= i < |pairs| :: Same(pairs[i].1, v)
    ensures forall i, j | 0 <= i < j < |pairs| :: !(Same(pairs[i].1, v) && Same(pairs[j].1, v))
  {
    Trichotomy(v, to);
    NotLessIsTransitive(v, to, EndOf(pairs, from));
    Trichotomy(from, v);
    Trichotomy(v, EndOf(pairs, from));
    assert |pairs| > 0;
    assert pairs[..|pairs|] == pairs;
    var i := ChainCovers(pairs, from, versions, v, |pairs|);
    forall i, j | 0 <= i < j < |pairs|
      ensures !(Same(pairs[i].1, v) && Same(pairs[j].1, v))
    {
      ChainGoesUp(pairs, from, versions, i, j);
      Trichotomy(pairs[i].1, pairs[j].1);
    }
  }

  // ---------------------------------------------------------------------------
  // Release branches
  // ---------------------------------------------------------------------------

  datatype Branch = Branch(name: string, version: Version)

  datatype Release = Release(previous: Branch, current: Branch)

  const RELEASE_PREFIX := "release/"

  /** The release branch that a name stands for, if it does. */
  function BranchOf(name: string): Option<Branch> {
    var parts := Split(name, '/');
    if StartsWith(name, RELEASE_PREFIX) && |parts| > 1 && StrToVer(parts[1]).Some?
    then Some(Branch(name, StrToVer(parts[1]).value)) else None
  }

  /** The release branches among the first n names. */
  function Parsed(names: seq<string>, n: nat): seq<Branch>
    requires n <= |names|
  {
    if n == 0 then []
    else Parsed(names, n - 1) + match BranchOf(names[n - 1]) case Some(b) => [b] case None => []
  }

  /** The key that branches are sorted by. */
  predicate BranchBelow(a: Branch, b: Branch) { Less(a.version, b.version) }

  lemma BranchBelowIsOrder()
    ensures StableSort.IsOrder(BranchBelow)
  {
    forall a, b ensures BranchBelow(a, b) ==> !BranchBelow(b, a) {
      Trichotomy(a.version, b.version);
    }
    forall a, b, c | !BranchBelow(b, a) && !BranchBelow(c, b) ensures !BranchBelow(c, a) {
      NotLessIsTransitive(a.version, b.version, c.version);
    }
  }

  ghost predicate BranchesAscend(branches: seq<Branch>) {
    forall i, j | 0 <= i < j < |branches| :: AtMost(branches[i].version, branches[j].version)
  }

  ghost function Listed(names: seq<string>): seq<Branch> {
    StableSort.Sort(BranchBelow, Parsed(names, |names|))
  }

  /** The branches are listed in version order, and all of them are. */
  lemma ListedInOrder(names: seq<string>)
    ensures BranchesAscend(Listed(names)) && multiset(Listed(names)) == multiset(Parsed(names, |names|))
  {
    BranchBelowIsOrder();
    StableSort.SortSorts(BranchBelow, Parsed(names, |names|));
  }

  ghost predicate Strict(branches: seq<Branch>) {
    forall i, j | 0 <= i < j < |branches| :: Less(branches[i].version, branches[j].version)
  }

  /** No two branches have the same version. */
  ghost predicate DistinctVersions(branches: seq<Branch>) {
    forall i, j | 0 <= i < j < |branches| :: !Same(branches[i].version, branches[j].version)
  }

  lemma {:induction false} InsertStaysDistinct(sorted: seq<Branch>, b: Branch)
    requires DistinctVersions(sorted) && forall c | c in sorted :: !Same(c.version, b.version)
    ensures DistinctVersions(StableSort.Insert(BranchBelow, sorted, b))
  {
    var n := |sorted| - 1;
    if |sorted| > 0 && BranchBelow(b, sorted[n]) {
      InsertStaysDistinct(sorted[..n], b);
      forall c | c in StableSort.Insert(BranchBelow, sorted[..n], b)
        ensures !Same(c.version, sorted[n].version)
      {
        StableSort.InsertMembers(BranchBelow, sorted[..n], b, c);
        assert c in sorted[..n] ==> exists i | 0 <= i < n :: sorted[i] == c;
      }
    }
  }

  lemma {:induction false} SortStaysDistinct(branches: seq<Branch>, n: nat)
    requires DistinctVersions(branches) && n <= |branches|
    ensures DistinctVersions(StableSort.SortFirst(BranchBelow, branches, n))
  {
    if n > 0 {
      SortStaysDistinct(branches, n - 1);
      var sorted := StableSort.SortFirst(BranchBelow, branches, n - 1);
      forall c | c in sorted ensures !Same(c.version, branches[n - 1].version) {
        StableSort.SortFirstMembers(BranchBelow, branches, n - 1, c);
        var i :| 0 <= i < n - 1 && branches[i] == c;
      }
      InsertStaysDistinct(sorted, branches[n - 1]);
    }
  }

  /** The list is strictly in order if and only if no two release branches of the
      repository have the same version. */
  lemma ListedStrictlyIff(names: seq<string>)
    ensures Strict(Listed(names)) <==> DistinctVersions(Parsed(names, |names|))
  {
    var parsed, listed := Parsed(names, |names|), Listed(names);
    ListedInOrder(names);
    if DistinctVersions(parsed) {
      SortStaysDistinct(parsed, |parsed|);
      forall i, j | 0 <= i < j < |listed|
        ensures Less(listed[i].version, listed[j].version)
      {
        Trichotomy(listed[i].version, listed[j].version);
      }
    } else {
      TwinsStay(parsed, listed);
    }
  }

  /** Two branches with the same version are in any reordering of them. */
  lemma TwinsStay(parsed: seq<Branch>, listed: seq<Branch>)
    requires multiset(parsed) == multiset(listed) && !DistinctVersions(parsed)
    ensures !Strict(listed)
  {
    var i, j :| 0 <= i < j < |parsed| && Same(parsed[i].version, parsed[j].version);
    var m, n := StableSort.TwoPlaces(parsed, listed, i, j);
    assert Same(listed[m].version, listed[n].version) && Same(listed[n].version, listed[m].version);
    Trichotomy(listed[m].version, listed[n].version);
    Trichotomy(listed[n].version, listed[m].version);
  }

  class GitRepo {
    const names: seq<string>
    var cached: Option<seq<Branch>>

    ghost predicate Valid()
      reads this
    {
      cached.Some? ==> cached.value == Listed(names)
    }

    constructor (names: seq<string>)
      ensures Valid() && this.names == names && cached == None
    {
      this.names, cached := names, None;
    }

    /** The release branches in version order, computed once. */
    method ReleaseBranches() returns (branches: seq<Branch>)
      requires Valid()
      modifies this
      ensures Valid() && branches == Listed(names) && cached == Some(branches)
    {
      if cached.Some? {
        return cached.value;
      }
      var found: seq<Branch> := [];
      for i := 0 to |names|
        invariant found == Parsed(names, i)
      {
        var branch := BranchOf(names[i]);
        if branch.Some? {
          found := found + [branch.value];
        }
      }
      cached := Some(StableSort.Sort(BranchBelow, found));
      return cached.value;
    }

    /** The releases between two versions.  If no two release branches have the
        same version, they are exactly those in range, in a chain, unless the
        lowest one is in range. */
    method GetReleases(from: Option<Version>, to: Option<Version>) returns (r: Result<seq<Release>, Error>)
      requires Valid()
      modifies this
      ensures Valid()
      ensures Ends(Listed(names), from, to).Err? ==> r == Err(Ends(Listed(names), from, to).error)
      ensures Ends(Listed(names), from, to).Ok? && DistinctVersions(Parsed(names, |names|)) ==>
                r == ReleasesOrError(Listed(names), Ends(Listed(names), from, to).value)
      ensures DistinctVersions(Parsed(names, |names|)) ==> AnswersAsked(r, Listed(names), from, to)
    {
      var branches := ReleaseBranches();
      ListedStrictlyIff(names);
      r := ReleasesBetween(branches, from, to);
    }
  }

  /** A name that starts as a release does has a second part to read. */
  lemma SplitAtPrefix(name: string)
    requires StartsWith(name, RELEASE_PREFIX)
    ensures |Split(name, '/')| > 1
  {
    SplitOfText("release", '/', name[8..]);
    assert name == "release" + ['/'] + name[8..];
  }

  lemma {:induction false} NoSlashInJoin(parts: seq<string>)
    requires forall p | p in parts :: '/' !in p
    ensures '/' !in Join(parts, '.')
  {
    if |parts| > 1 {
      NoSlashInJoin(parts[1..]);
    }
  }

  lemma NoSlashInVersion(v: Version)
    ensures '/' !in Render(v)
  {
    forall p | p in Texts(v) ensures '/' !in p {
      var i :| 0 <= i < |v| && p == NatText(v[i]);
      ParseOfText(v[i]);
      assert forall c | c in p :: IsDigit(c);
    }
    NoSlashInJoin(Texts(v));
  }

  lemma FirstPart(text: string, more: string)
    requires '/' !in text && (more == "" || more[0] == '/')
    ensures Split(text + more, '/')[0] == text
  {
    if more == "" {
      assert text + more == text;
      SplitOfText(text, '/', "");
    } else {
      SplitOfText(text, '/', more[1..]);
      assert text + more == text + ['/'] + more[1..];
    }
  }

  lemma RestAfterPrefix(rest: string)
    ensures StartsWith("release/" + rest, "release/")
    ensures Split("release/" + rest, '/') == ["release"] + Split(rest, '/')
  {
    SplitOfText("release", '/', rest);
    assert "release/" + rest == "release" + ['/'] + rest;
  }

  lemma SecondPart(name: string, text: string, more: string)
    requires '/' !in text && (more == "" || more[0] == '/') && name == "release/" + text + more
    ensures StartsWith(name, "release/") && |Split(name, '/')| > 1 && Split(name, '/')[1] == text
  {
    RestAfterPrefix(text + more);
    assert name == "release/" + (text + more);
    FirstPart(text, more);
  }

  /** A branch is a release branch of a version if its name says so, whatever follows
      after a further slash; branches with another beginning are none. */
  lemma BranchOfVersion(v: Version, more: string, name: string)
    requires |v| > 0 && (more == "" || more[0] == '/') && name == "release/" + Render(v) + more
    ensures BranchOf(name) == Some(Branch(name, Pad(v)))
    ensures forall other | !StartsWith(other, "release/") :: BranchOf(other) == None
  {
    NoSlashInVersion(v);
    SecondPart(name, Render(v), more);
    ReadOfRender(v);
  }

  // ---------------------------------------------------------------------------
  // Releases between two versions
  // ---------------------------------------------------------------------------

  /** The highest version below v among the first n branches. */
  function MaxBelow(branches: seq<Branch>, v: Version, n: nat): Option<Version>
    requires n <= |branches|
  {
    if n == 0 then None
    else
      var best, next := MaxBelow(branches, v, n - 1), branches[n - 1].version;
      if Less(next, v) && (best.None? || Less(best.value, next)) then Some(next) else best
  }

  /** The branch that the mapping has for a version: the last one that equals it. */
  function Lookup(branches: seq<Branch>, v: Version, n: nat): Option<Branch>
    requires n <= |branches|
  {
    if n == 0 then None
    else if Strip(branches[n - 1].version) == Strip(v) then Some(branches[n - 1])
    else Lookup(branches, v, n - 1)
  }

  /** max() of nothing raises; a version without a branch is not in the mapping. */
  function GetRelease(branches: seq<Branch>, v: Version): Result<Release, Error> {
    var previous := MaxBelow(branches, v, |branches|);
    if previous.None? then Err(ValueError)
    else
      var prev, cur := Lookup(branches, previous.value, |branches|), Lookup(branches, v, |branches|);
      if prev.None? || cur.None? then Err(KeyError) else Ok(Release(prev.value, cur.value))
  }

  lemma StripOfSame(a: Version, b: Version)
    ensures Strip(a) == Strip(b) <==> Same(a, b)
  {
    StripKeepsComponents(a);
    StripKeepsComponents(b);
    var s, t := Strip(a), Strip(b);
    if Same(a, b) {
      forall i: nat ensures At(s, i) == At(t, i) {
        assert At(s, i) == At(a, i) == At(b, i) == At(t, i);
      }
      assert |s| > 0 ==> At(s, |s| - 1) == At(t, |s| - 1) != 0;
      assert |t| > 0 ==> At(t, |t| - 1) == At(s, |t| - 1) != 0;
      assert |s| == |t|;
      assert forall i | 0 <= i < |s| :: s[i] == At(s, i) == At(t, i) == t[i];
    } else {
      var i: nat :| At(a, i) != At(b, i);
      assert At(s, i) != At(t, i);
    }
  }

  lemma {:induction false} LookupFinds(branches: seq<Branch>, i: nat, n: nat)
    requires Strict(branches) && i < n <= |branches|
    ensures Lookup(branches, branches[i].version, n) == Some(branches[i])
  {
    if i < n - 1 {
      StripOfSame(branches[n - 1].version, branches[i].version);
      Trichotomy(branches[n - 1].version, branches[i].version);
      Trichotomy(branches[i].version, branches[n - 1].version);
      LookupFinds(branches, i, n - 1);
    }
  }

  lemma {:induction false} MaxBelowIsBefore(branches: seq<Branch>, i: nat, n: nat)
    requires Strict(branches) && i < |branches| && n <= |branches|
    ensures MaxBelow(branches, branches[i].version, n)
         == if n == 0 || i == 0 then None else Some(branches[if n <= i then n - 1 else i - 1].version)
  {
    if n > 0 {
      MaxBelowIsBefore(branches, i, n - 1);
      Trichotomy(branches[n - 1].version, branches[i].version);
      Trichotomy(branches[i].version, branches[n - 1].version);
    }
  }

  /** With distinct versions, the release of the i-th branch goes from the branch
      before it to itself. */
  lemma ReleaseOfBranch(branches: seq<Branch>, i: nat)
    requires Strict(branches) && 0 < i < |branches|
    ensures GetRelease(branches, branches[i].version) == Ok(Release(branches[i - 1], branches[i]))
  {
    MaxBelowIsBefore(branches, i, |branches|);
    LookupFinds(branches, i - 1, |branches|);
    LookupFinds(branches, i, |branches|);
  }

  function FirstAtLeast(branches: seq<Branch>, v: Version, i: nat): (k: nat)
    requires i <= |branches|
    ensures i <= k <= |branches|
    ensures forall j | i <= j < k :: Less(branches[j].version, v)
    ensures k < |branches| ==> AtMost(v, branches[k].version)
    decreases |branches| - i
  {
    if i == |branches| || AtMost(v, branches[i].version) then i else FirstAtLeast(branches, v, i + 1)
  }

  /** The two ends of the range, filled in where they are not given. */
  function Ends(branches: seq<Branch>, from: Option<Version>, to: Option<Version>): Result<(Version, Version), Error> {
    match (from, to)
    case (None, None) => Err(if |branches| == 0 then IndexError else AttributeError)
    case (None, Some(t)) => if |branches| < 2 then Err(IndexError) else Ok((branches[1].version, t))
    case (Some(f), _) =>
      if |branches| == 0 then Err(IndexError)
      else
        var f' := if AtMost(f, branches[0].version) then branches[0].version else f;
        if to.Some? then Ok((f', to.value))
        else
          var k := FirstAtLeast(branches, f', 1);
          var latest := GetRelease(branches, branches[|branches| - 1].version);
          if k == |branches| then Err(IndexError)
          else if latest.Err? then Err(latest.error)
          else Ok((branches[k].version, latest.value.current.version))
  }

  ghost predicate InRange(v: Version, ends: (Version, Version)) {
    AtMost(ends.0, v) && AtMost(v, ends.1)
  }

  /** The releases of the branches i, i + 1, ..., j - 1. */
  ghost function Consecutive(branches: seq<Branch>, i: nat, j: nat): seq<Release>
    requires 0 < i <= j <= |branches|
  {
    seq(j - i, k requires 0 <= k < j - i => Release(branches[i + k - 1], branches[i + k]))
  }

  function FirstOver(branches: seq<Branch>, v: Version, i: nat): (k: nat)
    requires i <= |branches|
    ensures i <= k <= |branches|
    ensures forall j | i <= j < k :: AtMost(branches[j].version, v)
    ensures k < |branches| ==> Less(v, branches[k].version)
    decreases |branches| - i
  {
    if i == |branches| || Less(v, branches[i].version) then i else FirstOver(branches, v, i + 1)
  }

  /** The releases of the branches from one version up to another; the lowest
      branch, which has no release, is not one of them. */
  ghost function ReleasesInRange(branches: seq<Branch>, ends: (Version, Version)): seq<Release>
    requires |branches| > 0 && !InRange(branches[0].version, ends)
  {
    var i := FirstAtLeast(branches, ends.0, 0);
    if i == 0 then [] else Consecutive(branches, i, FirstOver(branches, ends.1, i))
  }

  /** What the releases between two versions are, over distinct versions: those of
      the branches in range, unless the lowest branch, which has no previous one,
      is in range too. */
  ghost function ReleasesOrError(branches: seq<Branch>, ends: (Version, Version)): Result<seq<Release>, Error> {
    if |branches| == 0 then Ok([])
    else if InRange(branches[0].version, ends) then Err(ValueError)
    else Ok(ReleasesInRange(branches, ends))
  }

  /** The releases between two versions, given the release branches. */
  method ReleasesBetween(branches: seq<Branch>, from: Option<Version>, to: Option<Version>)
    returns (r: Result<seq<Release>, Error>)
    ensures Ends(branches, from, to).Err? ==> r == Err(Ends(branches, from, to).error)
    ensures Ends(branches, from, to).Ok? && Strict(branches) ==>
              r == ReleasesOrError(branches, Ends(branches, from, to).value)
    ensures Strict(branches) ==> AnswersAsked(r, branches, from, to)
  {
    if Strict(branches) {
      NoRangeIff(branches, from, to);
      if Ends(branches, from, to).Ok? {
        ReleasesAreAsked(branches, from, to);
      }
    }
    var f, t := from, to;
    if f.Some? {
      if |branches| == 0 {
        return Err(IndexError);
      }
      if AtMost(f.value, branches[0].version) {
        f := Some(branches[0].version);
      }
    }
    if f.None? && t.None? {
      return Err(if |branches| == 0 then IndexError else AttributeError);
    } else if f.None? && t.Some? {
      if |branches| < 2 {
        return Err(IndexError);
      }
      f := Some(branches[1].version);
    } else if f.Some? && t.None? {
      var k := FirstAtLeast(branches, f.value, 1);
      if k == |branches| {
        return Err(IndexError);
      }
      f := Some(branches[k].version);
      var latest := GetRelease(branches, branches[|branches| - 1].version);
      if latest.Err? {
        return Err(latest.error);
      }
      t := Some(latest.value.current.version);
    }
    r := Collect(branches, f.value, t.value);
  }

  /** Over distinct versions the branches in range are an interval. */
  lemma RangeIsInterval(branches: seq<Branch>, from: Version, to: Version, i: nat, j: nat)
    requires Strict(branches)
    requires i == FirstAtLeast(branches, from, 0) && j == FirstOver(branches, to, i)
    ensures forall k | 0 <= k < |branches| :: InRange(branches[k].version, (from, to)) <==> i <= k < j
  {
    forall k | 0 <= k < |branches|
      ensures InRange(branches[k].version, (from, to)) <==> i <= k < j
    {
      var v := branches[k].version;
      Trichotomy(v, v);
      if k >= i {
        Trichotomy(branches[i].version, v);
        NotLessIsTransitive(from, branches[i].version, v);
      }
      if k > j {
        LessIsTransitive(to, branches[j].version, v);
      }
    }
  }

  lemma LowestHasNoRelease(branches: seq<Branch>)
    requires Strict(branches) && |branches| > 0
    ensures GetRelease(branches, branches[0].version) == Err(ValueError)
  {
    MaxBelowIsBefore(branches, 0, |branches|);
  }

  /** Below the lowest version there is nothing. */
  lemma NothingBelow(branches: seq<Branch>, from: Version, to: Version)
    requires Strict(branches) && |branches| > 0 && !InRange(branches[0].version, (from, to))
    requires FirstAtLeast(branches, from, 0) == 0
    ensures FirstOver(branches, to, 0) == 0
  {
    Trichotomy(to, branches[0].version);
  }

  /** The comprehension at the end of get_releases. */
  method Collect(branches: seq<Branch>, from: Version, to: Version) returns (r: Result<seq<Release>, Error>)
    ensures Strict(branches) ==> r == ReleasesOrError(branches, (from, to))
  {
    var releases: seq<Release> := [];
    ghost var good := Strict(branches) && |branches| > 0 && !InRange(branches[0].version, (from, to));
    ghost var i := FirstAtLeast(branches, from, 0);
    ghost var j := FirstOver(branches, to, i);
    if Strict(branches) && |branches| > 0 {
      RangeIsInterval(branches, from, to, i, j);
      LowestHasNoRelease(branches);
      if good && i == 0 {
        NothingBelow(branches, from, to);
      }
    }
    for n := 0 to |branches|
      invariant Strict(branches) && n > 0 ==> good
      invariant |branches| == 0 ==> releases == []
      invariant good && i == 0 ==> releases == []
      invariant good && i > 0 ==> releases == Consecutive(branches, i, if n <= i then i else if n <= j then n else j)
    {
      if AtMost(from, branches[n].version) && AtMost(branches[n].version, to) {
        assert InRange(branches[n].version, (from, to));
        if good {
          ReleaseOfBranch(branches, n);
        }
        var release := GetRelease(branches, branches[n].version);
        if release.Err? {
          return Err(release.error);
        }
        releases := releases + [release.value];
      } else {
        assert !InRange(branches[n].version, (from, to));
      }
    }
    return Ok(releases);
  }

  // ---------------------------------------------------------------------------
  // What was asked for
  // ---------------------------------------------------------------------------

  /** Between the two versions, as far as they are given. */
  predicate Asked(v: Version, from: Option<Version>, to: Option<Version>) {
    (from.Some? ==> AtMost(from.value, v)) && (to.Some? ==> AtMost(v, to.value))
  }

  /** The lowest branch is in range only if both versions are given. */
  predicate LowestAsked(branches: seq<Branch>, from: Option<Version>, to: Option<Version>) {
    |branches| > 0 && from.Some? && to.Some? && Asked(branches[0].version, from, to)
  }

  lemma StrictIsAtMost(branches: seq<Branch>, i: nat, k: nat)
    requires Strict(branches) && i < |branches| && k < |branches|
    ensures AtMost(branches[i].version, branches[k].version) <==> i <= k
  {
    Trichotomy(branches[i].version, branches[k].version);
    Trichotomy(branches[k].version, branches[i].version);
    Trichotomy(branches[i].version, branches[i].version);
  }

  /** What is no higher than a branch is no higher than the branches after it. */
  lemma AtMostLater(branches: seq<Branch>, v: Version, i: nat, k: nat)
    requires Strict(branches) && i <= k < |branches| && AtMost(v, branches[i].version)
    ensures AtMost(v, branches[k].version)
  {
    StrictIsAtMost(branches, i, k);
    NotLessIsTransitive(v, branches[i].version, branches[k].version);
  }

  /** A version that is moved up to the lowest branch asks for the same branches. */
  lemma LowestStart(branches: seq<Branch>, f: Version, k: nat)
    requires Strict(branches) && k < |branches| && AtMost(f, branches[0].version)
    ensures AtMost(f, branches[k].version) && AtMost(branches[0].version, branches[k].version)
  {
    AtMostLater(branches, f, 0, k);
    StrictIsAtMost(branches, 0, k);
  }

  /** The ends that are filled in make the range that was asked for: the branches
      other than the lowest that lie between the given versions. */
  lemma RangeIsAsked(branches: seq<Branch>, from: Option<Version>, to: Option<Version>, k: nat)
    requires Strict(branches) && Ends(branches, from, to).Ok? && k < |branches|
    ensures InRange(branches[k].version, Ends(branches, from, to).value)
       <==> if k == 0 then LowestAsked(branches, from, to) else Asked(branches[k].version, from, to)
  {
    if from.None? {
      StrictIsAtMost(branches, 1, k);
    } else {
      if AtMost(from.value, branches[0].version) {
        LowestStart(branches, from.value, k);
      }
      if to.None? {
        var f := if AtMost(from.value, branches[0].version) then branches[0].version else from.value;
        OpenRange(branches, f, k);
      }
    }
  }

  lemma OpenRange(branches: seq<Branch>, f: Version, k: nat)
    requires Strict(branches) && k < |branches| && FirstAtLeast(branches, f, 1) < |branches|
    ensures var n, last := FirstAtLeast(branches, f, 1), branches[|branches| - 1].version;
            && GetRelease(branches, last).Ok? && GetRelease(branches, last).value.current.version == last
            && (InRange(branches[k].version, (branches[n].version, last)) <==> k > 0 && AtMost(f, branches[k].version))
  {
    var n := FirstAtLeast(branches, f, 1);
    ReleaseOfBranch(branches, |branches| - 1);
    StrictIsAtMost(branches, n, k);
    StrictIsAtMost(branches, k, |branches| - 1);
    if n <= k {
      AtMostLater(branches, f, n, k);
    }
  }

  /** No range can be made. */
  predicate NoRange(branches: seq<Branch>, from: Option<Version>, to: Option<Version>) {
    || (from.None? && to.None?)
    || |branches| == 0
    || (from.None? && |branches| == 1)
    || (to.None? && forall k | 0 < k < |branches| :: !Asked(branches[k].version, from, to))
  }

  lemma NoRangeIff(branches: seq<Branch>, from: Option<Version>, to: Option<Version>)
    requires Strict(branches)
    ensures Ends(branches, from, to).Err? <==> NoRange(branches, from, to)
    ensures Ends(branches, from, to).Err? ==>
              Ends(branches, from, to).error
              == if from.None? && to.None? && |branches| > 0 then AttributeError else IndexError
  {
    if from.Some? && to.None? && |branches| > 0 {
      var f := if AtMost(from.value, branches[0].version) then branches[0].version else from.value;
      var n := FirstAtLeast(branches, f, 1);
      forall k | 0 < k < |branches|
        ensures Asked(branches[k].version, from, to) <==> AtMost(f, branches[k].version)
      {
        if AtMost(from.value, branches[0].version) {
          LowestStart(branches, from.value, k);
        }
      }
      if n < |branches| {
        OpenRange(branches, f, n);
        assert Asked(branches[n].version, from, to);
      }
    }
  }

  /** The releases of exactly the branches that were asked for, other than the lowest,
      in order and each from the branch right before it. */
  ghost predicate AreReleasesAsked(rs: seq<Release>, branches: seq<Branch>, from: Option<Version>,
                                   to: Option<Version>) {
    exists i, j | 0 < i <= j <= |branches| ::
      && rs == Consecutive(branches, i, j)
      && forall k | 0 < k < |branches| :: Asked(branches[k].version, from, to) <==> i <= k < j
  }

  /** What is returned, in terms of what was asked for. */
  ghost predicate AnswersAsked(r: Result<seq<Release>, Error>, branches: seq<Branch>, from: Option<Version>,
                               to: Option<Version>) {
    && (r.Err? <==> NoRange(branches, from, to) || LowestAsked(branches, from, to))
    && (r.Ok? ==> AreReleasesAsked(r.value, branches, from, to))
  }

  lemma ReleasesAreAsked(branches: seq<Branch>, from: Option<Version>, to: Option<Version>)
    requires Strict(branches) && Ends(branches, from, to).Ok?
    ensures AnswersAsked(ReleasesOrError(branches, Ends(branches, from, to).value), branches, from, to)
  {
    var ends := Ends(branches, from, to).value;
    NoRangeIff(branches, from, to);
    forall k | 0 <= k < |branches|
      ensures InRange(branches[k].version, ends)
         <==> if k == 0 then LowestAsked(branches, from, to) else Asked(branches[k].version, from, to)
    {
      RangeIsAsked(branches, from, to, k);
    }
    if !InRange(branches[0].version, ends) {
      var i := FirstAtLeast(branches, ends.0, 0);
      var j := FirstOver(branches, ends.1, i);
      RangeIsInterval(branches, ends.0, ends.1, i, j);
      if i == 0 {
        NothingBelow(branches, ends.0, ends.1);
        assert ReleasesInRange(branches, ends) == Consecutive(branches, 1, 1);
      } else {
        assert ReleasesInRange(branches, ends) == Consecutive(branches, i, j);
      }
    }
  }

  /** The releases are those of exactly the branches in range. */
  ghost predicate CoversRange(rs: seq<Release>, branches: seq<Branch>, ends: (Version, Version)) {
    && (forall k | 0 <= k < |rs| :: rs[k].current in branches && InRange(rs[k].current.version, ends))
    && (forall b | b in branches && InRange(b.version, ends) :: exists k | 0 <= k < |rs| :: rs[k].current == b)
  }

  /** Each starts from the branch that the one before it ended with, and versions
      go up. */
  ghost predicate GoesUp(rs: seq<Release>) {
    && (forall k | 0 <= k < |rs| :: Less(rs[k].previous.version, rs[k].current.version))
    && (forall k | 0 <= k < |rs| - 1 :: rs[k + 1].previous == rs[k].current)
    && (forall k, m | 0 <= k < m < |rs| :: Less(rs[k].current.version, rs[m].current.version))
  }

  lemma ConsecutiveCovers(branches: seq<Branch>, ends: (Version, Version), i: nat, j: nat)
    requires 0 < i <= j <= |branches|
    requires forall k | 0 <= k < |branches| :: InRange(branches[k].version, ends) <==> i <= k < j
    ensures CoversRange(Consecutive(branches, i, j), branches, ends)
  {
    var rs := Consecutive(branches, i, j);
    forall b | b in branches && InRange(b.version, ends)
      ensures exists k | 0 <= k < |rs| :: rs[k].current == b
    {
      var k :| 0 <= k < |branches| && branches[k] == b;
      assert rs[k - i].current == b;
    }
  }

  lemma ConsecutiveGoesUp(branches: seq<Branch>, i: nat, j: nat)
    requires Strict(branches) && 0 < i <= j <= |branches|
    ensures GoesUp(Consecutive(branches, i, j))
  {
  }

  /** So it is for the releases between two versions. */
  lemma ReleasesFormAChain(branches: seq<Branch>, ends: (Version, Version))
    requires Strict(branches) && |branches| > 0 && !InRange(branches[0].version, ends)
    ensures CoversRange(ReleasesInRange(branches, ends), branches, ends) && GoesUp(ReleasesInRange(branches, ends))
  {
    var i := FirstAtLeast(branches, ends.0, 0);
    var j := FirstOver(branches, ends.1, i);
    RangeIsInterval(branches, ends.0, ends.1, i, j);
    if i == 0 {
      NothingBelow(branches, ends.0, ends.1);
    } else {
      ConsecutiveCovers(branches, ends, i, j);
      ConsecutiveGoesUp(branches, i, j);
    }
  }
}
