/** Natural sort order: text with numbers in it is compared number by number.

    A string is split at its runs of digits; the pieces are text and numbers in
    turn, and lists of pieces are compared one by one.  Digits are ASCII. */
module NaturalOrder {
  import StableSort
  import opened Strings

  datatype Piece = Text(s: string) | Num(n: nat)

  type Key = seq<Piece>

  // ---------------------------------------------------------------------------
  // Splitting
  // ---------------------------------------------------------------------------

  /** How far the characters from the start on are digits, or are not. */
  function RunLength(s: string, digits: bool): (n: nat)
    ensures n <= |s| && forall i | 0 <= i < n :: IsDigit(s[i]) == digits
    ensures n < |s| ==> IsDigit(s[n]) != digits
  {
    if |s| == 0 || IsDigit(s[0]) != digits then 0 else 1 + RunLength(s[1..], digits)
  }

  /** re.split on runs of digits, with the runs: text, run, text, ..., text. */
  function Parts(s: string): (r: seq<string>)
    ensures |r| % 2 == 1
    decreases |s|
  {
    var t := RunLength(s, false);
    if t == |s| then [s]
    else
      var d := RunLength(s[t..], true);
      assert IsDigit(s[t..][0]);
      [s[..t], s[t..t + d]] + Parts(s[t + d..])
  }

  function Convert(part: string): Piece {
    if AllDigits(part) then Num(ParseNat(part)) else Text(part)
  }

  function ConvertAll(parts: seq<string>): Key {
    seq(|parts|, i requires 0 <= i < |parts| => Convert(parts[i]))
  }

  function KeyOf(s: string): Key { ConvertAll(Parts(s)) }

  function Concat(parts: seq<string>): string {
    if |parts| == 0 then "" else parts[0] + Concat(parts[1..])
  }

  lemma ConcatTwo(a: string, b: string, rest: seq<string>)
    ensures Concat([a, b] + rest) == a + (b + Concat(rest))
  {
    var all := [a, b] + rest;
    assert all[1..][1..] == rest;
  }

  lemma CutInThree(s: string, t: nat, d: nat)
    requires t + d <= |s|
    ensures s[..t] + (s[t..t + d] + s[t + d..]) == s
  {
  }

  /** The parts are the string again. */
  lemma {:induction false} PartsConcat(s: string)
    ensures Concat(Parts(s)) == s
    decreases |s|
  {
    var t := RunLength(s, false);
    if t == |s| {
      assert [s][1..] == [];
    } else {
      var d := RunLength(s[t..], true);
      assert IsDigit(s[t..][0]);
      PartsConcat(s[t + d..]);
      ConcatTwo(s[..t], s[t..t + d], Parts(s[t + d..]));
      CutInThree(s, t, d);
    }
  }

  /** Text and numbers take turns, starting with the given kind. */
  predicate Alternates(k: Key, text: bool) {
    forall i | 0 <= i < |k| :: k[i].Text? == (if i % 2 == 0 then text else !text)
  }

  predicate NoDigits(s: string) { forall i | 0 <= i < |s| :: !IsDigit(s[i]) }

  predicate TakeTurns(parts: seq<string>) {
    forall i | 0 <= i < |parts| :: if i % 2 == 0 then NoDigits(parts[i]) else AllDigits(parts[i])
  }

  /** Every other part is a run of digits, the ones between have none. */
  lemma {:induction false} PartsTakeTurns(s: string)
    ensures TakeTurns(Parts(s))
    decreases |s|
  {
    var t := RunLength(s, false);
    if t < |s| {
      var d := RunLength(s[t..], true);
      assert IsDigit(s[t..][0]);
      PartsTakeTurns(s[t + d..]);
      RunsAreRuns(s, t, d);
      TwoMoreTakeTurns(s[..t], s[t..t + d], Parts(s[t + d..]));
      PartsUnfold(s, t, d);
    } else {
      OnePartTakesTurns(s);
    }
  }

  lemma {:induction false} PartsUnfold(s: string, t: nat, d: nat)
    requires t == RunLength(s, false) < |s| && d == RunLength(s[t..], true) > 0
    ensures Parts(s) == [s[..t], s[t..t + d]] + Parts(s[t + d..])
  {
    assert t != |s|;
  }

  lemma {:induction false} OnePartTakesTurns(s: string)
    requires RunLength(s, false) == |s|
    ensures TakeTurns([s])
  {
    assert [s][0] == s;
  }

  lemma RunIsRun(s: string, digits: bool)
    ensures var run := s[..RunLength(s, digits)]; forall i | 0 <= i < |run| :: IsDigit(run[i]) == digits
  {
  }

  lemma {:induction false} RunsAreRuns(s: string, t: nat, d: nat)
    requires t == RunLength(s, false) < |s| && d == RunLength(s[t..], true) > 0
    ensures NoDigits(s[..t]) && AllDigits(s[t..t + d])
  {
    RunIsRun(s, false);
    RunIsRun(s[t..], true);
    assert s[t..][..d] == s[t..t + d];
  }

  lemma TwoMoreTakeTurns(text: string, digits: string, rest: seq<string>)
    requires NoDigits(text) && AllDigits(digits)
    requires TakeTurns(rest)
    ensures TakeTurns([text, digits] + rest)
  {
    var all := [text, digits] + rest;
    forall i | 0 <= i < |all|
      ensures if i % 2 == 0 then NoDigits(all[i]) else AllDigits(all[i])
    {
      if i >= 2 {
        assert all[i] == rest[i - 2];
      }
    }
  }

  lemma NoDigitsIsText(part: string)
    requires NoDigits(part)
    ensures Convert(part) == Text(part)
  {
    assert |part| > 0 ==> !IsDigit(part[0]);
  }

  /** So keys start and end with text, and any two of them can be compared: where
      one has text the other has text. */
  lemma KeysTakeTurns(s: string)
    ensures Alternates(KeyOf(s), true) && |KeyOf(s)| % 2 == 1
  {
    PartsTakeTurns(s);
    forall i | 0 <= i < |KeyOf(s)|
      ensures KeyOf(s)[i].Text? == (i % 2 == 0)
    {
      if i % 2 == 0 {
        NoDigitsIsText(Parts(s)[i]);
      }
    }
  }

  // ---------------------------------------------------------------------------
  // Comparing
  // ---------------------------------------------------------------------------

  /** Strings by their characters. */
  predicate StringLess(a: string, b: string) {
    if |b| == 0 then false
    else if |a| == 0 then true
    else if a[0] != b[0] then a[0] < b[0]
    else StringLess(a[1..], b[1..])
  }

  /** Comparing text with a number raises; the requirement says it never happens. */
  predicate PieceLess(a: Piece, b: Piece)
    requires a.Text? == b.Text?
  {
    if a.Text? then StringLess(a.s, b.s) else a.n < b.n
  }

  /** Lists by their first difference. */
  predicate KeyLess(a: Key, b: Key, text: bool)
    requires Alternates(a, text) && Alternates(b, text)
    decreases |a|
  {
    if |b| == 0 then false
    else if |a| == 0 then true
    else if a[0] != b[0] then PieceLess(a[0], b[0])
    else
      TailAlternates(a, text);
      TailAlternates(b, text);
      KeyLess(a[1..], b[1..], !text)
  }

  lemma TailAlternates(k: Key, text: bool)
    requires |k| > 0 && Alternates(k, text)
    ensures Alternates(k[1..], !text)
  {
    forall i | 0 <= i < |k[1..]|
      ensures k[1..][i].Text? == (if i % 2 == 0 then !text else text)
    {
      assert k[1..][i] == k[i + 1];
    }
  }

  lemma {:induction false} StringLessIsTotal(a: string, b: string)
    ensures StringLess(a, b) || StringLess(b, a) || a == b
    ensures !(StringLess(a, b) && StringLess(b, a)) && !StringLess(a, a)
  {
    if |a| > 0 && |b| > 0 && a[0] == b[0] {
      StringLessIsTotal(a[1..], b[1..]);
      assert a == [a[0]] + a[1..] && b == [b[0]] + b[1..];
    }
    if |a| > 0 {
      StringLessIsTotal(a[1..], a[1..]);
    }
  }

  lemma {:induction false} StringLessIsTransitive(a: string, b: string, c: string)
    requires StringLess(a, b) && StringLess(b, c)
    ensures StringLess(a, c)
  {
    if |a| > 0 && a[0] == b[0] && b[0] == c[0] {
      StringLessIsTransitive(a[1..], b[1..], c[1..]);
    }
  }

  /** The first n characters are the same; then one string is at its end or has the
      lower character. */
  ghost predicate StringsDiffer(a: string, b: string, n: nat) {
    n <= |a| && n < |b| && a[..n] == b[..n] && (n == |a| || a[n] < b[n])
  }

  lemma StringsDifferTail(a: string, b: string, n: nat)
    requires |a| > 0 && |b| > 0 && a[0] == b[0] && n > 0
    ensures StringsDiffer(a, b, n) <==> StringsDiffer(a[1..], b[1..], n - 1)
  {
    if n <= |a| && n < |b| {
      assert a[..n] == [a[0]] + a[1..][..n - 1] && b[..n] == [b[0]] + b[1..][..n - 1];
      assert a[..n][1..] == a[1..][..n - 1] && b[..n][1..] == b[1..][..n - 1];
    }
  }

  lemma SameHeads<T>(a: seq<T>, b: seq<T>, n: nat)
    requires n <= |a| && n <= |b| && a[..n] == b[..n]
    ensures n > 0 ==> a[0] == b[0]
  {
    if n > 0 {
      assert a[0] == a[..n][0] == b[..n][0] == b[0];
    }
  }

  /** Text is compared as in a dictionary: at the first difference. */
  lemma {:induction false} StringLessIff(a: string, b: string)
    ensures StringLess(a, b) <==> exists n: nat :: StringsDiffer(a, b, n)
  {
    if |a| > 0 && |b| > 0 && a[0] == b[0] {
      StringLessIff(a[1..], b[1..]);
      if n: nat :| StringsDiffer(a, b, n) {
        StringsDifferTail(a, b, n);
      }
      if n: nat :| StringsDiffer(a[1..], b[1..], n) {
        StringsDifferTail(a, b, n + 1);
      }
    } else {
      if StringLess(a, b) {
        assert StringsDiffer(a, b, 0);
      }
      if n: nat :| StringsDiffer(a, b, n) {
        SameHeads(a, b, n);
      }
    }
  }

  lemma PieceLessIsOrder(a: Piece, b: Piece, c: Piece)
    requires a.Text? == b.Text? == c.Text?
    ensures PieceLess(a, b) || PieceLess(b, a) || a == b
    ensures !(PieceLess(a, b) && PieceLess(b, a)) && !PieceLess(a, a)
    ensures PieceLess(a, b) && PieceLess(b, c) ==> PieceLess(a, c)
  {
    if a.Text? {
      StringLessIsTotal(a.s, b.s);
      StringLessIsTotal(a.s, a.s);
      if PieceLess(a, b) && PieceLess(b, c) {
        StringLessIsTransitive(a.s, b.s, c.s);
      }
    }
  }

  /** Of two keys one is below the other, or they are equal, and not both. */
  lemma {:induction false} KeyLessIsTotal(a: Key, b: Key, text: bool)
    requires Alternates(a, text) && Alternates(b, text)
    ensures KeyLess(a, b, text) || KeyLess(b, a, text) || a == b
    ensures !(KeyLess(a, b, text) && KeyLess(b, a, text))
    ensures a == b ==> !KeyLess(a, b, text)
    decreases |a|
  {
    if |a| > 0 && |b| > 0 {
      assert a[0].Text? == b[0].Text?;
      PieceLessIsOrder(a[0], b[0], b[0]);
      if a[0] == b[0] {
        TailAlternates(a, text);
        TailAlternates(b, text);
        KeyLessIsTotal(a[1..], b[1..], !text);
        assert a == [a[0]] + a[1..] && b == [b[0]] + b[1..];
      }
    }
  }

  lemma {:induction false} KeyLessIsTransitive(a: Key, b: Key, c: Key, text: bool)
    requires Alternates(a, text) && Alternates(b, text) && Alternates(c, text)
    requires KeyLess(a, b, text) && KeyLess(b, c, text)
    ensures KeyLess(a, c, text)
    decreases |a|
  {
    if |a| > 0 {
      assert a[0].Text? == b[0].Text? == c[0].Text?;
      PieceLessIsOrder(a[0], b[0], c[0]);
      PieceLessIsOrder(b[0], a[0], a[0]);
      PieceLessIsOrder(c[0], b[0], b[0]);
      if a[0] == b[0] && b[0] == c[0] {
        TailAlternates(a, text);
        TailAlternates(b, text);
        TailAlternates(c, text);
        KeyLessIsTransitive(a[1..], b[1..], c[1..], !text);
      }
    }
  }

  /** A number is below another by value, text below other text as in a dictionary. */
  ghost predicate Below(a: Piece, b: Piece) {
    match (a, b)
    case (Num(m), Num(n)) => m < n
    case (Text(s), Text(t)) => exists n: nat :: StringsDiffer(s, t, n)
    case _ => false
  }

  /** The first n pieces are the same; then one key is at its end or has the lower
      piece. */
  ghost predicate KeysDiffer(a: Key, b: Key, n: nat) {
    n <= |a| && n < |b| && a[..n] == b[..n] && (n == |a| || Below(a[n], b[n]))
  }

  lemma KeysDifferTail(a: Key, b: Key, n: nat)
    requires |a| > 0 && |b| > 0 && a[0] == b[0] && n > 0
    ensures KeysDiffer(a, b, n) <==> KeysDiffer(a[1..], b[1..], n - 1)
  {
    if n <= |a| && n < |b| {
      assert a[..n] == [a[0]] + a[1..][..n - 1] && b[..n] == [b[0]] + b[1..][..n - 1];
      assert a[..n][1..] == a[1..][..n - 1] && b[..n][1..] == b[1..][..n - 1];
    }
  }

  lemma PieceLessIff(a: Piece, b: Piece)
    requires a.Text? == b.Text?
    ensures PieceLess(a, b) <==> Below(a, b)
    ensures Below(a, b) ==> a != b
  {
    if a.Text? {
      StringLessIff(a.s, b.s);
      StringLessIsTotal(a.s, b.s);
    }
  }

  /** Keys are compared at their first difference. */
  lemma {:induction false} KeyLessIff(a: Key, b: Key, text: bool)
    requires Alternates(a, text) && Alternates(b, text)
    ensures KeyLess(a, b, text) <==> exists n: nat :: KeysDiffer(a, b, n)
    decreases |a|
  {
    if |a| > 0 && |b| > 0 && a[0] == b[0] {
      TailAlternates(a, text);
      TailAlternates(b, text);
      KeyLessIff(a[1..], b[1..], !text);
      PieceLessIff(a[0], b[0]);
      if n: nat :| KeysDiffer(a, b, n) {
        KeysDifferTail(a, b, n);
      }
      if n: nat :| KeysDiffer(a[1..], b[1..], n) {
        KeysDifferTail(a, b, n + 1);
      }
    } else {
      if |a| > 0 && |b| > 0 {
        assert a[0].Text? == b[0].Text?;
        PieceLessIff(a[0], b[0]);
      }
      if KeyLess(a, b, text) {
        assert KeysDiffer(a, b, 0);
      }
      if n: nat :| KeysDiffer(a, b, n) {
        SameHeads(a, b, n);
      }
    }
  }

  /** The order that sorting uses. */
  predicate NaturalLess(a: string, b: string) {
    KeysTakeTurns(a);
    KeysTakeTurns(b);
    KeyLess(KeyOf(a), KeyOf(b), true)
  }

  /** It is a strict weak order, so sorting by it is defined: irreflexive,
      transitive, and so is being neither above nor below, which is having the
      same key. */
  lemma NaturalLessIsWeakOrder(a: string, b: string, c: string)
    ensures !NaturalLess(a, a)
    ensures NaturalLess(a, b) && NaturalLess(b, c) ==> NaturalLess(a, c)
    ensures !NaturalLess(a, b) && !NaturalLess(b, a) <==> KeyOf(a) == KeyOf(b)
  {
    KeysTakeTurns(a);
    KeysTakeTurns(b);
    KeysTakeTurns(c);
    KeyLessIsTotal(KeyOf(a), KeyOf(a), true);
    KeyLessIsTotal(KeyOf(a), KeyOf(b), true);
    if NaturalLess(a, b) && NaturalLess(b, c) {
      KeyLessIsTransitive(KeyOf(a), KeyOf(b), KeyOf(c), true);
    }
  }

  /** One string comes before another if, up to some piece, their pieces are the same
      and then it ends or has the lower number or text. */
  lemma NaturalLessIff(a: string, b: string)
    ensures NaturalLess(a, b) <==> exists n: nat :: KeysDiffer(KeyOf(a), KeyOf(b), n)
  {
    KeysTakeTurns(a);
    KeysTakeTurns(b);
    KeyLessIff(KeyOf(a), KeyOf(b), true);
  }

  lemma NotBelowIsTransitive(a: string, b: string, c: string)
    requires !NaturalLess(b, a) && !NaturalLess(c, b)
    ensures !NaturalLess(c, a)
  {
    NaturalLessIsWeakOrder(a, b, c);
    NaturalLessIsWeakOrder(b, c, a);
    NaturalLessIsWeakOrder(c, a, b);
  }

  lemma NaturalLessIsOrder()
    ensures StableSort.IsOrder(NaturalLess) && StableSort.IsOrder(NaturalMore)
  {
    forall a, b ensures NaturalLess(a, b) ==> !NaturalLess(b, a) {
      NaturalLessIsWeakOrder(a, b, a);
    }
    forall a, b, c | !NaturalLess(b, a) && !NaturalLess(c, b) ensures !NaturalLess(c, a) {
      NotBelowIsTransitive(a, b, c);
    }
  }

  predicate NaturalMore(a: string, b: string) { NaturalLess(b, a) }

  function Sort(values: seq<string>): seq<string> { StableSort.Sort(NaturalLess, values) }

  function ReverseSort(values: seq<string>): seq<string> { StableSort.Sort(NaturalMore, values) }

  /** Both sorts keep all values, put them in the natural order or against it, and
      leave values with the same key in the order they had. */
  lemma SortsAreNatural(values: seq<string>, key: Key)
    ensures var up, down, has := Sort(values), ReverseSort(values), (s: string) => KeyOf(s) == key;
            && multiset(up) == multiset(values) == multiset(down)
            && (forall i, j | 0 <= i < j < |up| :: !NaturalLess(up[j], up[i]))
            && (forall i, j | 0 <= i < j < |down| :: !NaturalLess(down[i], down[j]))
            && StableSort.Those(has, up, |up|) == StableSort.Those(has, values, |values|)
            && StableSort.Those(has, down, |down|) == StableSort.Those(has, values, |values|)
  {
    NaturalLessIsOrder();
    StableSort.SortSorts(NaturalLess, values);
    StableSort.SortSorts(NaturalMore, values);
    var has := (s: string) => KeyOf(s) == key;
    forall a, b | has(a) && has(b) ensures !NaturalLess(a, b) && !NaturalMore(a, b) {
      NaturalLessIsWeakOrder(a, b, a);
    }
    StableSort.SortIsStable(NaturalLess, has, values);
    StableSort.SortIsStable(NaturalMore, has, values);
    var down := ReverseSort(values);
    assert forall i, j | 0 <= i < j < |down| :: !NaturalMore(down[j], down[i]);
  }

  // ---------------------------------------------------------------------------
  // The order people expect
  // ---------------------------------------------------------------------------

  lemma {:induction false} RunOf(a: string, b: string, digits: bool)
    requires forall i | 0 <= i < |a| :: IsDigit(a[i]) == digits
    requires |b| > 0 ==> IsDigit(b[0]) != digits
    ensures RunLength(a + b, digits) == |a|
  {
    if |a| > 0 {
      assert (a + b)[1..] == a[1..] + b;
      RunOf(a[1..], b, digits);
    } else {
      assert a + b == b;
    }
  }

  lemma KeyOfNumbered(text: string, n: nat, more: string)
    requires NoDigits(text) && (|more| > 0 ==> !IsDigit(more[0]))
    ensures KeyOf(text + NatText(n) + more) == [Text(text), Num(n)] + KeyOf(more)
  {
    ParseOfText(n);
    var digits, s := NatText(n), text + NatText(n) + more;
    assert s == text + (digits + more) && (digits + more)[0] == digits[0];
    RunOf(text, digits + more, false);
    assert s[|text|..] == digits + more;
    RunOf(digits, more, true);
    assert s[..|text|] == text && s[|text|..|text| + |digits|] == digits && s[|text| + |digits|..] == more;
    assert Parts(s) == [text, digits] + Parts(more);
    NoDigitsIsText(text);
    KeyOfParts(s, text, digits, more);
  }

  lemma KeyOfParts(s: string, text: string, digits: string, more: string)
    requires Parts(s) == [text, digits] + Parts(more)
    ensures KeyOf(s) == [Convert(text), Convert(digits)] + KeyOf(more)
  {
    ConvertTwoMore(text, digits, Parts(more));
  }

  lemma ConvertTwoMore(a: string, b: string, parts: seq<string>)
    ensures ConvertAll([a, b] + parts) == [Convert(a), Convert(b)] + ConvertAll(parts)
  {
  }

  /** After the same text, names are in the order of their numbers, whatever
      follows: node2 comes before node10. */
  lemma NumbersCompareByValue(text: string, m: nat, n: nat, a: string, b: string)
    requires NoDigits(text) && (|a| > 0 ==> !IsDigit(a[0])) && (|b| > 0 ==> !IsDigit(b[0]))
    requires m != n
    ensures NaturalLess(text + NatText(m) + a, text + NatText(n) + b) <==> m < n
  {
    var s, t := text + NatText(m) + a, text + NatText(n) + b;
    KeyOfNumbered(text, m, a);
    KeyOfNumbered(text, n, b);
    KeysTakeTurns(s);
    KeysTakeTurns(t);
    NumbersDecide(KeyOf(s), KeyOf(t), m, n);
  }

  lemma NumbersDecide(a: Key, b: Key, m: nat, n: nat)
    requires Alternates(a, true) && Alternates(b, true) && |a| > 1 && |b| > 1 && m != n
    requires a[0] == b[0] && a[1] == Num(m) && b[1] == Num(n)
    ensures KeyLess(a, b, true) <==> m < n
  {
    TailAlternates(a, true);
    TailAlternates(b, true);
    assert KeyLess(a, b, true) == KeyLess(a[1..], b[1..], false);
    assert a[1..][0] == Num(m) && b[1..][0] == Num(n);
  }
}
