/** Commit titles: the rule that accepts them and the pattern that takes them
    apart again.

    The rule wants a type in parentheses, a ticket of one of two projects with up
    to six digits, a colon and a text.  The changelog parses titles with a
    pattern of lazy groups; lazy matching means that the first split that works
    is taken.  Titles are single lines, and digits are ASCII. */
module TitleGrammar {
  import opened Strings
  import opened Wrappers

  const TYPES := {"build", "ci", "chore", "sus", "docs", "feat", "fix", "perf", "refactor", "style", "test", "loc"}
  const PROJECTS := {"THISISCVAH", "AFDCO"}

  /** Digits only, if anything. */
  predicate OnlyDigits(s: string) { forall c | c in s :: IsDigit(c) }

  // ---------------------------------------------------------------------------
  // The rule
  // ---------------------------------------------------------------------------

  /** A title with single spaces, put together from its parts. */
  function Title(kind: string, project: string, digits: string, text: string): string {
    "(" + kind + ") " + project + "-" + digits + ": " + text
  }

  /** What the rule accepts, with single spaces where it allows any one space. */
  ghost predicate RuleAccepts(title: string) {
    exists kind, project, digits, text ::
      && kind in TYPES && project in PROJECTS && OnlyDigits(digits) && |digits| <= 6
      && title == Title(kind, project, digits, text)
  }

  // ---------------------------------------------------------------------------
  // The pattern
  // ---------------------------------------------------------------------------

  datatype Parts = Parts(prefix: string, number: string, text: string)

  /** How many digits follow from position p on. */
  function DigitRun(s: string, p: nat): (n: nat)
    requires p <= |s|
    ensures p + n <= |s|
    ensures forall k | p <= k < p + n :: IsDigit(s[k])
    ensures p + n < |s| ==> !IsDigit(s[p + n])
    decreases |s| - p
  {
    if p < |s| && IsDigit(s[p]) then 1 + DigitRun(s, p + 1) else 0
  }

  predicate ParenAt(s: string, i: nat) {
    1 <= i && i + 1 < |s| && s[i] == ')' && s[i + 1] == ' '
  }

  /** A dash, digits, a colon and a space.  The digits before a colon are all of
      the run, so a shorter run never matches. */
  predicate NumberAt(s: string, j: nat) {
    && j < |s| && s[j] == '-' && DigitRun(s, j + 1) > 0
    && var e := j + 1 + DigitRun(s, j + 1);
       e + 1 < |s| && s[e] == ':' && s[e + 1] == ' '
  }

  /** The first place from j on where the number can be. */
  function FirstNumber(s: string, j: nat): (r: Option<nat>)
    ensures r.Some? ==> j <= r.value && NumberAt(s, r.value) && forall k | j <= k < r.value :: !NumberAt(s, k)
    ensures r.None? ==> forall k | j <= k < |s| :: !NumberAt(s, k)
    decreases |s| - j
  {
    if j >= |s| then None else if NumberAt(s, j) then Some(j) else FirstNumber(s, j + 1)
  }

  /** The pattern matches with its parenthesis closed at i and its number at j. */
  predicate Splits(s: string, i: nat, j: nat) {
    ParenAt(s, i) && i + 2 <= j && NumberAt(s, j)
  }

  /** The first split: the earliest parenthesis after which a number follows, and
      the earliest number after it. */
  function FirstSplit(s: string, i: nat): (r: Option<(nat, nat)>)
    ensures r.Some? ==> i <= r.value.0 && Splits(s, r.value.0, r.value.1)
    ensures r.Some? ==> forall k: nat, m: nat | i <= k < r.value.0 :: !Splits(s, k, m)
    ensures r.Some? ==> forall m: nat | m < r.value.1 :: !Splits(s, r.value.0, m)
    ensures r.None? ==> forall k: nat, m: nat | i <= k :: !Splits(s, k, m)
    decreases |s| - i
  {
    if i >= |s| then None
    else if ParenAt(s, i) && FirstNumber(s, i + 2).Some? then Some((i, FirstNumber(s, i + 2).value))
    else FirstSplit(s, i + 1)
  }

  function PartsAt(s: string, i: nat, j: nat): Parts
    requires Splits(s, i, j)
  {
    var e := j + 1 + DigitRun(s, j + 1);
    Parts(s[i + 2..j], s[j + 1..e], s[e + 2..])
  }

  function ParseTitle(s: string): Option<Parts> {
    if |s| == 0 || s[0] != '(' then None
    else
      match FirstSplit(s, 1)
      case None => None
      case Some((i, j)) => Some(PartsAt(s, i, j))
  }

  // ---------------------------------------------------------------------------
  // Titles of the rule are read back
  // ---------------------------------------------------------------------------

  lemma {:induction false} RunOf(s: string, p: nat, n: nat)
    requires p + n < |s| && (forall k | p <= k < p + n :: IsDigit(s[k])) && !IsDigit(s[p + n])
    ensures DigitRun(s, p) == n
    decreases n
  {
    if n > 0 {
      RunOf(s, p + 1, n - 1);
    }
  }

  /** Where things stand in a title. */
  lemma Layout(kind: string, project: string, digits: string, text: string)
    ensures var s, i := Title(kind, project, digits, text), 1 + |kind|;
            var j := i + 2 + |project|;
            var e := j + 1 + |digits|;
            && |s| == e + 2 + |text| && s[0] == '(' && s[1..i] == kind && s[i] == ')' && s[i + 1] == ' '
            && s[i + 2..j] == project && s[j] == '-' && s[j + 1..e] == digits
            && s[e] == ':' && s[e + 1] == ' ' && s[e + 2..] == text
  {
  }

  /** The only split that counts: nothing closes earlier than the type, and no
      number starts earlier than the project's. */
  lemma NoEarlierSplit(s: string, i: nat, j: nat)
    requires 1 <= i && i + 2 <= j && j < |s| && s[i + 1] == ' '
    requires ')' !in s[1..i] && '-' !in s[i + 2..j]
    ensures forall k: nat, m: nat | 1 <= k < i :: !Splits(s, k, m)
    ensures forall m: nat | m < j :: !Splits(s, i, m)
  {
    forall k | 1 <= k < i ensures s[k] != ')' {
      assert s[1..i][k - 1] == s[k];
    }
    forall m | i + 2 <= m < j ensures s[m] != '-' {
      assert s[i + 2..j][m - i - 2] == s[m];
    }
  }

  lemma {:induction false} NumberStands(kind: string, project: string, digits: string, text: string)
    requires OnlyDigits(digits) && |digits| > 0
    ensures var s, j := Title(kind, project, digits, text), 3 + |kind| + |project|;
            NumberAt(s, j) && DigitRun(s, j + 1) == |digits|
  {
    var s, j := Title(kind, project, digits, text), 3 + |kind| + |project|;
    Layout(kind, project, digits, text);
    forall k | j + 1 <= k < j + 1 + |digits| ensures IsDigit(s[k]) {
      assert s[k] == s[j + 1..j + 1 + |digits|][k - j - 1];
    }
    RunOf(s, j + 1, |digits|);
  }

  lemma FirstSplitIs(s: string, i: nat, j: nat)
    requires 1 <= i && Splits(s, i, j)
    requires forall k: nat, m: nat | 1 <= k < i :: !Splits(s, k, m)
    requires forall m: nat | m < j :: !Splits(s, i, m)
    ensures FirstSplit(s, 1) == Some((i, j))
  {
    var r := FirstSplit(s, 1);
    assert r.Some?;
    assert r.value.0 == i;
  }

  lemma {:induction false} SplitOfTitle(kind: string, project: string, digits: string, text: string)
    requires ')' !in kind && '-' !in project && OnlyDigits(digits) && |digits| > 0
    ensures FirstSplit(Title(kind, project, digits, text), 1) == Some((1 + |kind|, 3 + |kind| + |project|))
  {
    var s, i, j := Title(kind, project, digits, text), 1 + |kind|, 3 + |kind| + |project|;
    Layout(kind, project, digits, text);
    NumberStands(kind, project, digits, text);
    NoEarlierSplit(s, i, j);
    FirstSplitIs(s, i, j);
  }

  lemma PartsOfTitle(kind: string, project: string, digits: string, text: string)
    requires OnlyDigits(digits) && |digits| > 0
    ensures var s, i, j := Title(kind, project, digits, text), 1 + |kind|, 3 + |kind| + |project|;
            Splits(s, i, j) && PartsAt(s, i, j) == Parts(project, digits, text)
  {
    Layout(kind, project, digits, text);
    NumberStands(kind, project, digits, text);
  }

  lemma TitleIsReadBack(kind: string, project: string, digits: string, text: string)
    requires ')' !in kind && '-' !in project && OnlyDigits(digits) && |digits| > 0
    ensures ParseTitle(Title(kind, project, digits, text)) == Some(Parts(project, digits, text))
  {
    SplitOfTitle(kind, project, digits, text);
    PartsOfTitle(kind, project, digits, text);
    assert Title(kind, project, digits, text)[0] == '(';
  }

  /** The pattern, as it stands: some characters in parentheses, a space, some more, a
      dash, at least one digit, a colon, a space, and the rest. */
  ghost predicate Fits(s: string, kind: string, p: Parts) {
    OnlyDigits(p.number) && |p.number| > 0 && s == Title(kind, p.prefix, p.number, p.text)
  }

  lemma SplitFits(s: string, i: nat, j: nat)
    requires |s| > 0 && s[0] == '(' && Splits(s, i, j)
    ensures Fits(s, s[1..i], PartsAt(s, i, j))
  {
    var p, e := PartsAt(s, i, j), j + 1 + DigitRun(s, j + 1);
    assert p.number == s[j + 1..e];
    assert s == "(" + s[1..i] + s[i..i + 2] + s[i + 2..j] + s[j..j + 1] + s[j + 1..e] + s[e..e + 2] + s[e + 2..];
    assert s[i..i + 2] == ") " && s[j..j + 1] == "-" && s[e..e + 2] == ": ";
  }

  lemma FitsSplit(s: string, kind: string, p: Parts)
    requires Fits(s, kind, p)
    ensures s[0] == '(' && Splits(s, 1 + |kind|, 3 + |kind| + |p.prefix|)
  {
    PartsOfTitle(kind, p.prefix, p.number, p.text);
    assert s[0] == Title(kind, p.prefix, p.number, p.text)[0];
  }

  lemma FirstSplitIsLeast(s: string, i: nat, j: nat)
    requires 1 <= i && Splits(s, i, j)
    ensures FirstSplit(s, 1).Some?
    ensures var (k, m) := FirstSplit(s, 1).value; 1 <= k && (k < i || (k == i && m <= j))
  {
  }

  /** What is parsed fits, with the type that the split gives. */
  lemma ParsedFits(s: string) returns (kind: string)
    requires ParseTitle(s).Some?
    ensures Fits(s, kind, ParseTitle(s).value)
    ensures FirstSplit(s, 1).Some?
    ensures FirstSplit(s, 1).value == (|kind| + 1, |kind| + 3 + |ParseTitle(s).value.prefix|)
  {
    var (k, m) := FirstSplit(s, 1).value;
    kind := s[1..k];
    SplitFits(s, k, m);
  }

  /** Of all ways to fit the pattern, the lazy groups take the one with the shortest
      type, and among those the one with the shortest project; a title that fits in no
      way is not parsed. */
  lemma ParseTitleIsLazy(s: string, kind: string, p: Parts) returns (least: string)
    requires Fits(s, kind, p)
    ensures ParseTitle(s).Some? && Fits(s, least, ParseTitle(s).value)
    ensures |least| < |kind| || (|least| == |kind| && |ParseTitle(s).value.prefix| <= |p.prefix|)
  {
    FitsIsParsed(s, kind, p);
    least := ParsedFits(s);
  }

  lemma FitsIsParsed(s: string, kind: string, p: Parts)
    requires Fits(s, kind, p)
    ensures ParseTitle(s).Some? && FirstSplit(s, 1).Some?
    ensures var (k, m) := FirstSplit(s, 1).value; k < 1 + |kind| || (k == 1 + |kind| && m <= 3 + |kind| + |p.prefix|)
  {
    FitsSplit(s, kind, p);
    FirstSplitIsLeast(s, 1 + |kind|, 3 + |kind| + |p.prefix|);
  }

  /** Exactly the titles with a digit are taken apart into their own parts,
      whatever follows in the text: further parentheses, dashes, digits and
      colons included. */
  lemma TitleIsReadBackIff(kind: string, project: string, digits: string, text: string)
    requires ')' !in kind && '-' !in project && OnlyDigits(digits)
    ensures ParseTitle(Title(kind, project, digits, text)) == Some(Parts(project, digits, text)) <==> |digits| > 0
  {
    var s := Title(kind, project, digits, text);
    if |digits| > 0 {
      TitleIsReadBack(kind, project, digits, text);
    } else if ParseTitle(s).Some? {
      assert |ParseTitle(s).value.number| == DigitRun(s, FirstSplit(s, 1).value.1 + 1);
    }
  }

  /** A title that the rule accepts is put together again from what was parsed and
      its type, unless it has no digit. */
  lemma AcceptedTitlesAreTheirParts(title: string)
    requires RuleAccepts(title)
    ensures || (exists kind, project, text ::
                  kind in TYPES && project in PROJECTS && title == Title(kind, project, "", text))
            || (exists kind :: kind in TYPES && ParseTitle(title).Some?
                  && var p := ParseTitle(title).value;
                     p.prefix in PROJECTS && title == Title(kind, p.prefix, p.number, p.text))
  {
    var kind, project, digits, text :|
      && kind in TYPES && project in PROJECTS && OnlyDigits(digits) && |digits| <= 6
      && title == Title(kind, project, digits, text);
    KnownWords();
    if |digits| > 0 {
      TitleIsReadBack(kind, project, digits, text);
    } else {
      assert digits == "";
    }
  }

  lemma KnownWords()
    ensures forall kind | kind in TYPES :: ')' !in kind
    ensures forall project | project in PROJECTS :: '-' !in project
  {
  }

  // ---------------------------------------------------------------------------
  // The ticket
  // ---------------------------------------------------------------------------

  const BROWSE := "https://jira.levelup.cce.af.mil/browse/"

  function UpperChar(c: char): char {
    if 'a' <= c <= 'z' then (c as int - 'a' as int + 'A' as int) as char else c
  }

  function Upper(s: string): string {
    seq(|s|, i requires 0 <= i < |s| => UpperChar(s[i]))
  }

  datatype Ticket = Ticket(prefix: Option<string>, number: Option<string>, link: Option<string>)

  function MakeTicket(prefix: string, number: string): Ticket {
    var known := if Upper(prefix) in PROJECTS then Some(Upper(prefix)) else None;
    var valid := if AllDigits(number) && 5 <= |number| <= 6 then Some(number) else None;
    Ticket(known, valid, if known.Some? && valid.Some? then Some(BROWSE + prefix + "-" + number) else None)
  }

  function LowerChar(c: char): char {
    if 'A' <= c <= 'Z' then (c as int - 'A' as int + 'a' as int) as char else c
  }

  /** str.capitalize: the first character in upper case, all others in lower case. */
  function Capitalize(s: string): (r: string)
    ensures |r| == |s|
  {
    seq(|s|, i requires 0 <= i < |s| => if i == 0 then UpperChar(s[i]) else LowerChar(s[i]))
  }

  const CAPITALS := "ABCDEFGHIJKLMNOPQRSTUVWXYZ"
  const SMALL := "abcdefghijklmnopqrstuvwxyz"

  /** The same character, or the same letter in its two cases. */
  ghost predicate SameLetter(c: char, d: char) {
    c == d || exists k | 0 <= k < 26 :: (c == CAPITALS[k] && d == SMALL[k]) || (c == SMALL[k] && d == CAPITALS[k])
  }

  lemma Letters(k: nat)
    requires k < 26
    ensures CAPITALS[k] as int == 'A' as int + k && SMALL[k] as int == 'a' as int + k
  {
  }

  lemma LetterAt(c: char, k: nat)
    requires k < 26
    ensures c == CAPITALS[k] <==> c as int == 'A' as int + k
    ensures c == SMALL[k] <==> c as int == 'a' as int + k
  {
    Letters(k);
  }

  lemma UpperOfLetter(c: char)
    ensures SameLetter(c, UpperChar(c)) && UpperChar(c) !in SMALL
  {
    var u := UpperChar(c);
    forall k: nat | k < 26 {
      LetterAt(u, k);
    }
    if 'a' <= c <= 'z' {
      LetterAt(c, c as int - 'a' as int);
      LetterAt(u, c as int - 'a' as int);
    }
  }

  lemma LowerOfLetter(c: char)
    ensures SameLetter(c, LowerChar(c)) && LowerChar(c) !in CAPITALS
  {
    var l := LowerChar(c);
    forall k: nat | k < 26 {
      LetterAt(l, k);
    }
    if 'A' <= c <= 'Z' {
      LetterAt(c, c as int - 'A' as int);
      LetterAt(l, c as int - 'A' as int);
    }
  }

  lemma SameLetterSameUpper(c: char, d: char)
    requires SameLetter(c, d)
    ensures UpperChar(c) == UpperChar(d)
  {
    if k: nat :| k < 26 && ((c == CAPITALS[k] && d == SMALL[k]) || (c == SMALL[k] && d == CAPITALS[k])) {
      Letters(k);
    }
  }

  /** The title has the same letters as the text, the first one no small one and the
      others no capital ones. */
  lemma CapitalizeMeans(text: string)
    ensures var r := Capitalize(text);
            && |r| == |text|
            && (forall i | 0 <= i < |text| :: SameLetter(text[i], r[i]))
            && (forall i | 0 <= i < |text| :: if i == 0 then r[i] !in SMALL else r[i] !in CAPITALS)
  {
    var r := Capitalize(text);
    forall i | 0 <= i < |text|
      ensures SameLetter(text[i], r[i]) && if i == 0 then r[i] !in SMALL else r[i] !in CAPITALS
    {
      if i == 0 { UpperOfLetter(text[i]); } else { LowerOfLetter(text[i]); }
    }
  }

  /** The same word but for the case of its letters. */
  ghost predicate SameWord(s: string, t: string) {
    |s| == |t| && forall i | 0 <= i < |s| :: SameLetter(s[i], t[i])
  }

  lemma SameUpper(s: string, t: string)
    requires Upper(t) == t
    ensures Upper(s) == t <==> SameWord(s, t)
  {
    var u := Upper(s);
    forall i | 0 <= i < |s| && |s| == |t|
      ensures u[i] == t[i] <==> SameLetter(s[i], t[i])
    {
      UpperOfLetter(s[i]);
      if SameLetter(s[i], t[i]) {
        SameLetterSameUpper(s[i], t[i]);
      }
      assert UpperChar(t[i]) == Upper(t)[i];
    }
    if SameWord(s, t) {
      assert |u| == |t| && forall i | 0 <= i < |u| :: u[i] == t[i];
    }
  }

  /** A ticket has a project if its prefix is one of the two, in whatever case, and a
      number of five or six digits, and it has a link if it has both; the link has the
      prefix as it was written. */
  lemma TicketMeans(prefix: string, number: string)
    ensures var t := MakeTicket(prefix, number);
            && (t.prefix == Some("AFDCO") <==> SameWord(prefix, "AFDCO"))
            && (t.prefix == Some("THISISCVAH") <==> SameWord(prefix, "THISISCVAH"))
            && (t.prefix.Some? <==> SameWord(prefix, "AFDCO") || SameWord(prefix, "THISISCVAH"))
            && t.number == (if AllDigits(number) && (|number| == 5 || |number| == 6) then Some(number) else None)
            && t.link == (if t.prefix.Some? && t.number.Some?
                          then Some("https://jira.levelup.cce.af.mil/browse/" + prefix + "-" + number) else None)
  {
    UpperOfProject("AFDCO");
    UpperOfProject("THISISCVAH");
    SameUpper(prefix, "AFDCO");
    SameUpper(prefix, "THISISCVAH");
    assert |"AFDCO"| != |"THISISCVAH"|;
  }

  /** The text of a title is kept if and only if it has no capital letter after the
      first character and does not begin with a small one. */
  lemma TextIsKeptIff(text: string)
    ensures Capitalize(text) == text
       <==> forall i | 0 <= i < |text| :: if i == 0 then !('a' <= text[i] <= 'z') else !('A' <= text[i] <= 'Z')
  {
    var r := Capitalize(text);
    if r == text {
      forall i | 0 <= i < |text|
        ensures if i == 0 then !('a' <= text[i] <= 'z') else !('A' <= text[i] <= 'Z')
      {
        assert r[i] == text[i];
      }
    }
  }

  class MDCommit {
    var title: Option<string>
    var ticket: Option<Ticket>

    constructor ()
      ensures title == None && ticket == None
    {
      title, ticket := None, None;
    }

    /** Sets both fields, or leaves them alone if the pattern does not match. */
    method SetCommitTicketTitle(summary: string)
      modifies this
      ensures match ParseTitle(summary)
              case None => title == old(title) && ticket == old(ticket)
              case Some(p) => title == Some(Capitalize(p.text)) && ticket == Some(MakeTicket(p.prefix, p.number))
    {
      var m := ParseTitle(summary);
      if m.Some? {
        ticket := Some(MakeTicket(m.value.prefix, m.value.number));
        title := Some(Capitalize(m.value.text));
      }
    }
  }

  /** For every title that the rule accepts, the changelog gets the title's own
      ticket and text if the number has five or six digits; with fewer digits the
      ticket it gets has no number, and no link. */
  lemma AcceptedTitlesGiveTheirTicket(kind: string, project: string, digits: string, text: string)
    requires kind in TYPES && project in PROJECTS && OnlyDigits(digits) && 0 < |digits| <= 6
    ensures var p := ParseTitle(Title(kind, project, digits, text));
            && p == Some(Parts(project, digits, text))
            && MakeTicket(p.value.prefix, p.value.number)
               == if |digits| >= 5 then Ticket(Some(project), Some(digits), Some(BROWSE + project + "-" + digits))
                  else Ticket(Some(project), None, None)
  {
    KnownWords();
    TitleIsReadBackIff(kind, project, digits, text);
    UpperOfProject(project);
  }

  lemma UpperOfProject(project: string)
    requires project in PROJECTS
    ensures Upper(project) == project
  {
  }
}
