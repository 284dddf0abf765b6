/**
 * String primitives the validation rules rely on: the whitespace class that
 * both `String.prototype.trim` and the regular-expression escape `\s` use,
 * trimming, and the length JavaScript reports for a string.
 */
module Text {

  /** JavaScript's WhiteSpace and LineTerminator characters; `trim` strips
      exactly these and `\s` matches exactly these. */
  predicate IsSpace(c: char) {
    c == '\t' || c == '\n' || c == '\U{000B}' || c == '\U{000C}' || c == '\r' ||
    c == ' ' || c == '\U{00A0}' || c == '\U{1680}' ||
    ('\U{2000}' <= c <= '\U{200A}') ||
    c == '\U{2028}' || c == '\U{2029}' || c == '\U{202F}' || c == '\U{205F}' ||
    c == '\U{3000}' || c == '\U{FEFF}'
  }

  /** Every whitespace character lies in the Basic Multilingual Plane, so
      `\s` tested on UTF-16 code units and on characters agree. */
  lemma SpaceIsBmp(c: char)
    requires IsSpace(c)
    ensures c as int <= 0xFFFF
  {
  }

  /** Every character of `s` is whitespace (this includes the empty string). */
  predicate AllSpace(s: string) {
    forall i :: 0 <= i < |s| ==> IsSpace(s[i])
  }

  /** Whitespace around whitespace is whitespace. */
  lemma SpaceAround(a: string, t: string, b: string)
    requires AllSpace(a) && AllSpace(t) && AllSpace(b)
    ensures AllSpace(a + t + b)
  {
  }

  /** `r` occurs in `s` starting at position `i`. */
  predicate InfixAt(r: string, s: string, i: int) {
    0 <= i <= |s| - |r| && r == s[i..i + |r|]
  }

  /** `s` with its leading whitespace removed. */
  function TrimStart(s: string): (r: string)
    ensures |r| <= |s| && r == s[|s| - |r|..]
    ensures AllSpace(s[..|s| - |r|])
    ensures r == [] || !IsSpace(r[0])
    decreases |s|
  {
    if s != [] && IsSpace(s[0]) then
      var r := TrimStart(s[1..]);
      var n := |s| - |r|;
      assert s[..n] == [s[0]] + s[1..][..n - 1] + [];
      SpaceAround([s[0]], s[1..][..n - 1], []);
      assert s[n..] == s[1..][n - 1..];
      r
    else s
  }

  /** `s` with its trailing whitespace removed. */
  function TrimEnd(s: string): (r: string)
    ensures |r| <= |s| && r == s[..|r|]
    ensures AllSpace(s[|r|..])
    ensures r == [] || !IsSpace(r[|r| - 1])
    decreases |s|
  {
    if s != [] && IsSpace(s[|s| - 1]) then
      var r := TrimEnd(s[..|s| - 1]);
      assert s[|r|..] == [] + s[..|s| - 1][|r|..] + [s[|s| - 1]];
      SpaceAround([], s[..|s| - 1][|r|..], [s[|s| - 1]]);
      r
    else s
  }

  /** `String.prototype.trim`: the infix of `s` left after removing the
      whitespace at both ends. */
  function Trim(s: string): (r: string)
    ensures exists i :: InfixAt(r, s, i)
    ensures r == [] || (!IsSpace(r[0]) && !IsSpace(r[|r| - 1]))
  {
    var t := TrimStart(s);
    var r := TrimEnd(t);
    StripInTwoSteps(s, t, r);
    assert r == [] || r[0] == t[0];
    r
  }

  /** `r` occurs in `s` at position `i` and everything around it is
      whitespace. */
  ghost predicate StripsAt(s: string, r: string, i: int) {
    InfixAt(r, s, i) && AllSpace(s[..i]) && AllSpace(s[i + |r|..])
  }

  /** Reference reading of trimming: `r` is what is left of `s` after
      removing whitespace at both ends, and it neither starts nor ends with
      whitespace. */
  ghost predicate IsTrimOf(s: string, r: string) {
    (exists i :: StripsAt(s, r, i)) &&
    (r == [] || (!IsSpace(r[0]) && !IsSpace(r[|r| - 1])))
  }

  /** A trimmed value is empty (falsy in JavaScript) exactly when the value
      consists of whitespace only. */
  lemma TrimEmptyIffBlank(s: string)
    ensures Trim(s) == [] <==> AllSpace(s)
  {
  }

  /** Taking `n` characters after dropping `i` is the slice `[i..i + n]`. */
  lemma TakeOfDrop(s: string, i: nat, n: nat)
    requires i + n <= |s|
    ensures s[i..][..n] == s[i..i + n]
  {
  }

  /** Removing a whitespace prefix and then a whitespace suffix strips `s`. */
  lemma StripInTwoSteps(s: string, t: string, r: string)
    requires |t| <= |s| && t == s[|s| - |t|..] && AllSpace(s[..|s| - |t|])
    requires |r| <= |t| && r == t[..|r|] && AllSpace(t[|r|..])
    ensures StripsAt(s, r, |s| - |t|)
  {
    var i := |s| - |t|;
    TakeOfDrop(s, i, |r|);
    assert s[i + |r|..] == t[|r|..];
  }

  /** `Trim` strips only whitespace. */
  lemma TrimStripsSpace(s: string)
    ensures StripsAt(s, Trim(s), |s| - |TrimStart(s)|)
  {
    var t := TrimStart(s);
    var r := TrimEnd(t);
    assert Trim(s) == r;
    StripInTwoSteps(s, t, r);
  }

  /** Two strippings of `s` that both start and end with a non-whitespace
      character are the same. */
  lemma SameStrip(s: string, r: string, i: int, r': string, i': int)
    requires StripsAt(s, r, i) && r != [] && !IsSpace(r[0]) && !IsSpace(r[|r| - 1])
    requires StripsAt(s, r', i') && r' != [] && !IsSpace(r'[0]) && !IsSpace(r'[|r'| - 1])
    ensures r == r'
  {
    var j, j' := i + |r|, i' + |r'|;
    assert s[i] == r[0] && s[i'] == r'[0];
    assert s[j - 1] == r[|r| - 1] && s[j' - 1] == r'[|r'| - 1];
    assert forall k :: 0 <= k < i ==> IsSpace(s[k]) by {
      forall k | 0 <= k < i ensures IsSpace(s[k]) { assert s[..i][k] == s[k]; }
    }
    assert forall k :: 0 <= k < i' ==> IsSpace(s[k]) by {
      forall k | 0 <= k < i' ensures IsSpace(s[k]) { assert s[..i'][k] == s[k]; }
    }
    assert forall k :: j <= k < |s| ==> IsSpace(s[k]) by {
      forall k | j <= k < |s| ensures IsSpace(s[k]) { assert s[j..][k - j] == s[k]; }
    }
    assert forall k :: j' <= k < |s| ==> IsSpace(s[k]) by {
      forall k | j' <= k < |s| ensures IsSpace(s[k]) { assert s[j'..][k - j'] == s[k]; }
    }
    assert i == i' && j == j';
  }

  /** Only a whitespace-only string strips to the empty string, and its
      trimmed form is empty. */
  lemma EmptyStrip(s: string, i: int)
    requires StripsAt(s, [], i)
    ensures AllSpace(s) && Trim(s) == []
  {
    forall k | 0 <= k < |s| ensures IsSpace(s[k]) {
      if k < i { assert s[..i][k] == s[k]; } else { assert s[i..][k - i] == s[k]; }
    }
    TrimEmptyIffBlank(s);
  }

  /** A non-empty stripping of `s` with non-whitespace ends is `Trim(s)`. */
  lemma NonEmptyStrip(s: string, r: string, i: int)
    requires StripsAt(s, r, i) && r != [] && !IsSpace(r[0]) && !IsSpace(r[|r| - 1])
    ensures r == Trim(s)
  {
    var t, j := Trim(s), |s| - |TrimStart(s)|;
    assert t != [] by {
      assert s[i] == r[0];
      TrimEmptyIffBlank(s);
    }
    assert StripsAt(s, t, j) by {
      TrimStripsSpace(s);
    }
    SameStrip(s, r, i, t, j);
  }

  /** A reference trimming of `s` is `Trim(s)`. */
  lemma TrimOfIsTrim(s: string, r: string)
    requires IsTrimOf(s, r)
    ensures r == Trim(s)
  {
    var i :| StripsAt(s, r, i);
    if r == [] {
      EmptyStrip(s, i);
    } else {
      NonEmptyStrip(s, r, i);
    }
  }

  /** `Trim` agrees with the reference reading, and nothing else does. */
  lemma TrimIff(s: string, r: string)
    ensures IsTrimOf(s, r) <==> r == Trim(s)
  {
    TrimStripsSpace(s);
    if IsTrimOf(s, r) {
      TrimOfIsTrim(s, r);
    }
  }

  /** The number of UTF-16 code units in one character: characters beyond
      the Basic Multilingual Plane are a surrogate pair. */
  function CodeUnits(c: char): (n: nat)
    ensures 1 <= n <= 2
    ensures n == 2 <==> c as int > 0xFFFF
  {
    if c as int > 0xFFFF then 2 else 1
  }

  /** `String.prototype.length`, which counts UTF-16 code units. */
  function JsLength(s: string): (n: nat)
    ensures |s| <= n <= 2 * |s|
    decreases |s|
  {
    if s == [] then 0 else CodeUnits(s[0]) + JsLength(s[1..])
  }

  /** Within the Basic Multilingual Plane (which holds every letter the name
      rule accepts) the JavaScript length is the number of characters. */
  lemma {:induction false} JsLengthOfBmp(s: string)
    requires forall i :: 0 <= i < |s| ==> s[i] as int <= 0xFFFF
    ensures JsLength(s) == |s|
    decreases |s|
  {
    if s != [] {
      assert forall i :: 0 <= i < |s[1..]| ==> s[1..][i] == s[i + 1];
      JsLengthOfBmp(s[1..]);
    }
  }

  /** The JavaScript length of a concatenation is the sum of the lengths;
      with `JsLength([c]) == CodeUnits(c)` this fixes the length of every
      string as its number of characters plus its number of characters
      beyond the Basic Multilingual Plane. */
  lemma {:induction false} JsLengthAppend(a: string, b: string)
    ensures JsLength(a + b) == JsLength(a) + JsLength(b)
    decreases |a|
  {
    if a == [] {
      assert a + b == b;
    } else {
      assert (a + b)[1..] == a[1..] + b;
      JsLengthAppend(a[1..], b);
    }
  }

  /** One character has the JavaScript length of its code units. */
  lemma JsLengthOfChar(c: char)
    ensures JsLength([c]) == CodeUnits(c)
  {
    assert [c][1..] == [];
  }
}
