/** Version numbers of releases: their order, their text, and the names of the
    files that are saved for them. */
module Versions {
  import opened Strings
  import opened Wrappers

  /** The release segment of a version. */
  type Version = seq<nat>

  // ---------------------------------------------------------------------------
  // Order
  // ---------------------------------------------------------------------------

  /** Versions are compared without their trailing zeros, as tuples. */
  function Strip(v: Version): Version {
    if |v| > 0 && v[|v| - 1] == 0 then Strip(v[..|v| - 1]) else v
  }

  predicate TupleLess(a: seq<nat>, b: seq<nat>) {
    if |b| == 0 then false
    else if |a| == 0 then true
    else if a[0] != b[0] then a[0] < b[0]
    else TupleLess(a[1..], b[1..])
  }

  predicate Less(a: Version, b: Version) {
    TupleLess(Strip(a), Strip(b))
  }

  /** The i-th component, with zeros after the last one. */
  function At(v: Version, i: nat): nat {
    if i < |v| then v[i] else 0
  }

  /** The order of PEP 440, "Final releases": the segments are padded with zeros
      to the same length and the first difference decides. */
  ghost predicate PaddedLessAt(a: Version, b: Version, i: nat) {
    At(a, i) < At(b, i) && forall j: nat | j < i :: At(a, j) == At(b, j)
  }

  ghost predicate PaddedLess(a: Version, b: Version) {
    exists i: nat :: PaddedLessAt(a, b, i)
  }

  ghost predicate Same(a: Version, b: Version) {
    forall i: nat :: At(a, i) == At(b, i)
  }

  lemma {:induction false} StripKeepsComponents(v: Version)
    ensures Same(Strip(v), v)
    ensures |Strip(v)| > 0 ==> Strip(v)[|Strip(v)| - 1] != 0
  {
    if |v| > 0 && v[|v| - 1] == 0 {
      StripKeepsComponents(v[..|v| - 1]);
      forall i: nat ensures At(Strip(v), i) == At(v, i) {
        assert At(Strip(v), i) == At(v[..|v| - 1], i);
      }
    }
  }

  ghost predicate NoTrailingZero(v: Version) {
    |v| > 0 ==> v[|v| - 1] != 0
  }

  lemma {:induction false} TupleLessIsPadded(a: seq<nat>, b: seq<nat>)
    requires NoTrailingZero(a) && NoTrailingZero(b)
    ensures TupleLess(a, b) <==> PaddedLess(a, b)
  {
    if |b| == 0 {
      assert forall i: nat :: At(b, i) == 0;
    } else if |a| == 0 {
      var i := FirstNonZero(b);
      assert PaddedLessAt(a, b, i);
    } else if a[0] != b[0] {
      assert At(a, 0) == a[0] && At(b, 0) == b[0];
      if a[0] < b[0] {
        assert PaddedLessAt(a, b, 0);
      }
    } else {
      TupleLessIsPadded(a[1..], b[1..]);
      PaddedLessTail(a, b);
    }
  }

  lemma {:induction false} FirstNonZero(v: Version) returns (i: nat)
    requires |v| > 0 && NoTrailingZero(v)
    ensures i < |v| && v[i] != 0 && forall j | 0 <= j < i :: v[j] == 0
  {
    i := 0;
    while v[i] == 0
      invariant i < |v| && forall j | 0 <= j < i :: v[j] == 0
      decreases |v| - i
    {
      i := i + 1;
    }
  }

  lemma PaddedLessTail(a: seq<nat>, b: seq<nat>)
    requires |a| > 0 && |b| > 0 && a[0] == b[0]
    ensures PaddedLess(a, b) <==> PaddedLess(a[1..], b[1..])
  {
    forall i: nat
      ensures At(a[1..], i) == At(a, i + 1) && At(b[1..], i) == At(b, i + 1)
    {
    }
    if i: nat :| PaddedLessAt(a, b, i) {
      assert i > 0;
      assert PaddedLessAt(a[1..], b[1..], i - 1);
    }
    if i: nat :| PaddedLessAt(a[1..], b[1..], i) {
      forall j: nat | j < i + 1 ensures At(a, j) == At(b, j) {
        if j > 0 {
          assert At(a[1..], j - 1) == At(b[1..], j - 1);
        }
      }
      assert PaddedLessAt(a, b, i + 1);
    }
  }

  lemma PaddedLessOnSame(a: Version, b: Version, a': Version, b': Version)
    requires Same(a, a') && Same(b, b') && PaddedLess(a, b)
    ensures PaddedLess(a', b')
  {
    var i: nat :| PaddedLessAt(a, b, i);
    assert PaddedLessAt(a', b', i);
  }

  /** Comparing without trailing zeros is the order of PEP 440. */
  lemma LessIsPaddedLess(a: Version, b: Version)
    ensures Less(a, b) <==> PaddedLess(a, b)
  {
    StripKeepsComponents(a);
    StripKeepsComponents(b);
    TupleLessIsPadded(Strip(a), Strip(b));
    if PaddedLess(a, b) {
      PaddedLessOnSame(a, b, Strip(a), Strip(b));
    } else if PaddedLess(Strip(a), Strip(b)) {
      PaddedLessOnSame(Strip(a), Strip(b), a, b);
    }
  }

  lemma {:induction false} FirstDifference(a: Version, b: Version, n: nat) returns (i: nat)
    ensures i <= n && (forall j: nat | j < i :: At(a, j) == At(b, j)) && (i < n ==> At(a, i) != At(b, i))
  {
    i := 0;
    while i < n && At(a, i) == At(b, i)
      invariant i <= n && forall j: nat | j < i :: At(a, j) == At(b, j)
    {
      i := i + 1;
    }
  }

  /** Of two versions, exactly one is below the other unless they are the same. */
  lemma Trichotomy(a: Version, b: Version)
    ensures Less(a, b) || Less(b, a) || Same(a, b)
    ensures !(Less(a, b) && Less(b, a)) && !(Same(a, b) && Less(a, b))
  {
    LessIsPaddedLess(a, b);
    LessIsPaddedLess(b, a);
    var n := if |a| < |b| then |b| else |a|;
    var i := FirstDifference(a, b, n);
    if i < n {
      assert if At(a, i) < At(b, i) then PaddedLessAt(a, b, i) else PaddedLessAt(b, a, i);
    }
    OneFirstDifference(a, b);
  }

  lemma OneFirstDifference(a: Version, b: Version)
    ensures !(PaddedLess(a, b) && PaddedLess(b, a))
  {
    if PaddedLess(a, b) {
      var k: nat :| PaddedLessAt(a, b, k);
      forall m: nat ensures !PaddedLessAt(b, a, m) {
      }
    }
  }

  lemma LessIsTransitive(a: Version, b: Version, c: Version)
    requires Less(a, b) && Less(b, c)
    ensures Less(a, c)
  {
    LessIsPaddedLess(a, b);
    LessIsPaddedLess(b, c);
    LessIsPaddedLess(a, c);
    var i: nat :| PaddedLessAt(a, b, i);
    var j: nat :| PaddedLessAt(b, c, j);
    assert PaddedLessAt(a, c, if i < j then i else j);
  }

  /** Not below is transitive too. */
  lemma NotLessIsTransitive(a: Version, b: Version, c: Version)
    requires !Less(b, a) && !Less(c, b)
    ensures !Less(c, a)
    ensures Less(a, b) || Less(b, c) ==> Less(a, c)
  {
    Trichotomy(a, b);
    Trichotomy(b, c);
    Trichotomy(a, c);
    Trichotomy(c, a);
    if Less(a, b) && Less(b, c) {
      LessIsTransitive(a, b, c);
    } else if Same(a, b) && Less(b, c) {
      SameIsInterchangeable(b, a, c);
    } else if Same(b, c) && Less(a, b) {
      SameIsInterchangeable(b, c, a);
    }
  }

  lemma SameIsInterchangeable(a: Version, a': Version, b: Version)
    requires Same(a, a')
    ensures Less(a, b) <==> Less(a', b)
    ensures Less(b, a) <==> Less(b, a')
  {
    LessIsPaddedLess(a, b);
    LessIsPaddedLess(a', b);
    LessIsPaddedLess(b, a);
    LessIsPaddedLess(b, a');
    if PaddedLess(a, b) { PaddedLessOnSame(a, b, a', b); }
    if PaddedLess(a', b) { PaddedLessOnSame(a', b, a, b); }
    if PaddedLess(b, a) { PaddedLessOnSame(b, a, b, a'); }
    if PaddedLess(b, a') { PaddedLessOnSame(b, a', b, a); }
  }

  // ---------------------------------------------------------------------------
  // Text
  // ---------------------------------------------------------------------------

  /** Two- and three-part versions are filled up to four parts. */
  function Pad(v: Version): Version {
    if |v| == 2 then v + [0, 0] else if |v| == 3 then v + [0] else v
  }

  lemma PadIsSame(v: Version)
    ensures Same(Pad(v), v)
  {
  }

  /** Padding preserves the order, whichever of the two versions it changes. */
  lemma PadKeepsOrder(a: Version, b: Version)
    ensures Less(Pad(a), Pad(b)) <==> Less(a, b)
  {
    PadIsSame(a);
    PadIsSame(b);
    SameIsInterchangeable(Pad(a), a, Pad(b));
    SameIsInterchangeable(Pad(b), b, a);
  }

  function ParseAll(parts: seq<string>): Version
    requires forall p | p in parts :: AllDigits(p)
  {
    seq(|parts|, i requires 0 <= i < |parts| => assert AllDigits(parts[i]); ParseNat(parts[i]))
  }

  /** Reads a version; None when a part is not a number. */
  function StrToVer(text: string): Option<Version> {
    var parts := Split(text, '.');
    if forall p | p in parts :: AllDigits(p) then Some(Pad(ParseAll(parts))) else None
  }

  function Texts(v: Version): seq<string> {
    seq(|v|, i requires 0 <= i < |v| => NatText(v[i]))
  }

  /** str(version) */
  function Render(v: Version): string {
    Join(Texts(v), '.')
  }

  lemma DigitsAreNoDot(s: string)
    requires AllDigits(s)
    ensures '.' !in s
  {
  }

  /** Reading what was printed gives the version, filled up to four parts. */
  lemma ReadOfRender(v: Version)
    requires |v| > 0
    ensures StrToVer(Render(v)) == Some(Pad(v)) && Split(Render(v), '.') == Texts(v)
  {
    var parts := Texts(v);
    forall i | 0 <= i < |v|
      ensures AllDigits(parts[i]) && '.' !in parts[i] && ParseNat(parts[i]) == v[i]
    {
      ParseOfText(v[i]);
      DigitsAreNoDot(parts[i]);
    }
    SplitOfJoin(parts, '.');
    assert ParseAll(parts) == v;
  }

  // ---------------------------------------------------------------------------
  // Changelog files
  // ---------------------------------------------------------------------------

  /** The stem and the suffix of a file name. */
  function StemAndSuffix(name: string): (string, string) {
    var i := LastIndex(name, '.');
    if 0 < i < |name| - 1 then (name[..i], name[i..]) else (name, "")
  }

  /** What the table of contents reads from a file name. */
  function VersionOfFile(name: string): Option<Version> {
    var (stem, suffix) := StemAndSuffix(name);
    if suffix == ".md" then StrToVer(stem) else None
  }

  function FileOf(v: Version): string { Render(v) + ".md" }

  lemma StemOfMarkdown(stem: string)
    requires |stem| > 0
    ensures StemAndSuffix(stem + ".md") == (stem, ".md")
  {
    var name := stem + ".md";
    var n := |name|;
    assert name[n - 1] == 'd' && name[..n - 1][n - 2] == 'm' && name[..n - 1][..n - 2][n - 3] == '.';
    assert LastIndex(name, '.') == LastIndex(name[..n - 1], '.') == LastIndex(name[..n - 1][..n - 2], '.') == n - 3;
    assert name[..n - 3] == stem && name[n - 3..] == ".md";
  }

  lemma RenderIsNotEmpty(v: Version)
    requires |v| > 0
    ensures |Render(v)| > 0
  {
    ParseOfText(v[0]);
    assert Texts(v)[0] == NatText(v[0]);
  }

  /** The file saved for a version is read back as that version: the same by the
      version order, and component by component unless it has two or three, when
      it gets four. */
  lemma SavedFileIsReadBack(v: Version)
    requires |v| > 0
    ensures VersionOfFile(FileOf(v)).Some?
    ensures Same(VersionOfFile(FileOf(v)).value, v)
    ensures |v| != 2 && |v| != 3 ==> VersionOfFile(FileOf(v)) == Some(v)
    ensures |v| == 2 || |v| == 3 ==> |VersionOfFile(FileOf(v)).value| == 4
    ensures VersionOfFile(Render(v) + ".md") == VersionOfFile(FileOf(v))
  {
    RenderIsNotEmpty(v);
    StemOfMarkdown(Render(v));
    ReadOfRender(v);
    PadIsSame(v);
  }

  lemma NoDotNoVersion(s: string, i: nat)
    requires i < |s| && '.' !in s && !IsDigit(s[i])
    ensures StrToVer(s) == None
  {
    SplitOfText(s, '.', "");
    assert s in Split(s, '.');
  }

  /** No other markdown file of the directory is taken for a version: a stem that
      is one word with a letter in it, as UNRELEASED and index are, is not read. */
  lemma WordsAreNoVersions(word: string, i: nat)
    requires i < |word| && '.' !in word && !IsDigit(word[i])
    ensures VersionOfFile(word + ".md") == None
  {
    StemOfMarkdown(word);
    NoDotNoVersion(word, i);
  }

  lemma OtherFilesAreNoVersions()
    ensures VersionOfFile("UNRELEASED" + ".md") == None && VersionOfFile("index" + ".md") == None
  {
    WordsAreNoVersions("UNRELEASED", 0);
    WordsAreNoVersions("index", 0);
  }
}
