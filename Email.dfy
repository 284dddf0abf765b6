/**
 * The structural e-mail pattern of the contact form,
 * `^[^\s@]+@[^\s@]+\.[^\s@]+$`, tested on the raw (untrimmed) value.
 */
module Email {
  import opened Text

  /** A character of the class `[^\s@]`. */
  predicate PartChar(c: char) {
    !IsSpace(c) && c != '@'
  }

  /** `s` is a (possibly empty) run of `[^\s@]`. */
  predicate AllPart(s: string) {
    forall i :: 0 <= i < |s| ==> PartChar(s[i])
  }

  /** Reading of the pattern as a split: `s[..at]`, `s[at+1..dot]` and
      `s[dot+1..]` are non-empty runs of `[^\s@]`, with an `@` at `at` and a
      `.` at `dot` between them. */
  ghost predicate EmailSplit(s: string, at: int, dot: int) {
    0 < at && at + 1 < dot && dot + 1 < |s| &&
    s[at] == '@' && s[dot] == '.' &&
    AllPart(s[..at]) && AllPart(s[at + 1..dot]) && AllPart(s[dot + 1..])
  }

  /** `s` matches the e-mail pattern. */
  ghost predicate EmailShape(s: string) {
    exists at, dot :: EmailSplit(s, at, dot)
  }

  /** The position of the first `c` in `s`, or `|s|` if there is none. */
  function FirstIndex(s: string, c: char): (r: nat)
    ensures r <= |s|
    ensures r < |s| ==> s[r] == c
    ensures forall i :: 0 <= i < r ==> s[i] != c
    decreases |s|
  {
    if s == [] || s[0] == c then 0 else 1 + FirstIndex(s[1..], c)
  }

  /** `d` matches `[^\s@]+\.[^\s@]+`: no whitespace and no `@`, with a dot
      that has at least one character on each side. */
  predicate MatchesDomain(d: string) {
    AllPart(d) && 3 <= |d| && '.' in d[1..|d| - 1]
  }

  /** The matcher: the local part runs up to the first `@`. */
  predicate MatchesEmail(s: string)
    ensures MatchesEmail(s) ==> 5 <= |s|
  {
    var at := FirstIndex(s, '@');
    0 < at < |s| && AllPart(s[..at]) && MatchesDomain(s[at + 1..])
  }

  /** The pattern is tested on the untrimmed value, so a value with leading
      or trailing whitespace never matches. */
  lemma MatchHasNoOuterSpace(s: string)
    requires MatchesEmail(s)
    ensures !IsSpace(s[0]) && !IsSpace(s[|s| - 1])
  {
    var at := FirstIndex(s, '@');
    assert s[0] == s[..at][0];
    assert s[|s| - 1] == s[at + 1..][|s| - at - 2];
  }

  /** What the matcher accepts splits as the pattern describes. */
  lemma MatchIsShaped(s: string)
    requires MatchesEmail(s)
    ensures EmailShape(s)
  {
    var at := FirstIndex(s, '@');
    var d := s[at + 1..];
    var j :| 0 <= j < |d| - 2 && d[1..|d| - 1][j] == '.';
    var dot := at + 2 + j;
    assert s[dot] == d[j + 1];
    assert s[at + 1..dot] == d[..j + 1];
    assert s[dot + 1..] == d[j + 2..];
    assert EmailSplit(s, at, dot);
  }

  /** Every split the pattern describes is found by the matcher: the `@`
      of the split is the first `@`. */
  lemma ShapedIsMatched(s: string, at: int, dot: int)
    requires EmailSplit(s, at, dot)
    ensures MatchesEmail(s)
  {
    assert forall i :: 0 <= i < at ==> s[i] != '@' by {
      forall i | 0 <= i < at ensures s[i] != '@' { assert s[..at][i] == s[i]; }
    }
    assert FirstIndex(s, '@') == at;
    var d := s[at + 1..];
    assert d == s[at + 1..dot] + ['.'] + s[dot + 1..];
    assert d[1..|d| - 1][dot - at - 2] == '.';
    assert MatchesDomain(d);
  }

  /** The matcher accepts exactly the strings the pattern describes. */
  lemma MatchesEmailIff(s: string)
    ensures MatchesEmail(s) <==> EmailShape(s)
  {
    if MatchesEmail(s) {
      MatchIsShaped(s);
    }
    if EmailShape(s) {
      var at, dot :| EmailSplit(s, at, dot);
      ShapedIsMatched(s, at, dot);
    }
  }

  /** "a@b.co" matches. */
  lemma AcceptsShortAddress()
    ensures MatchesEmail("a@b.co")
  {
    var s := "a@b.co";
    assert FirstIndex(s, '@') == 1;
    assert AllPart(s[..1]);
    assert s[2..] == "b.co" && "b.co"[1..3][0] == '.';
    assert AllPart("b.co");
  }

  /** "a@b" has no dot after the `@`. */
  lemma RejectsMissingDot()
    ensures !MatchesEmail("a@b")
  {
    assert FirstIndex("a@b", '@') == 1;
    assert |"a@b"[2..]| == 1;
  }

  /** "ab.com" has no `@`. */
  lemma RejectsMissingAt()
    ensures !MatchesEmail("ab.com")
  {
    assert FirstIndex("ab.com", '@') == 6;
  }

  /** "a b@c.com" has a space in its local part. */
  lemma RejectsInnerSpace()
    ensures !MatchesEmail("a b@c.com")
  {
    assert FirstIndex("a b@c.com", '@') == 3;
    assert "a b@c.com"[..3][1] == ' ';
  }

  /** A leading space is not trimmed away before the pattern is tested. */
  lemma RejectsLeadingSpace()
    ensures !MatchesEmail(" a@b.co")
  {
    assert FirstIndex(" a@b.co", '@') == 2;
    assert " a@b.co"[..2][0] == ' ';
  }
}
