/**
 The two string operations the scraper applies to scraped and stored
 columns: Python's `str.strip()` with no argument and `str.lower()`.
 */
module Text {

  /** Python's `str.isspace()` for one character: exactly the characters
      that `str.strip()` with no argument removes from either end. */
  predicate IsSpace(c: char) {
    || c == ' '
    || ('\t' <= c <= '\r')
    || ('\U{1C}' <= c <= '\U{1F}')
    || c == '\U{85}' || c == '\U{A0}' || c == '\U{1680}'
    || ('\U{2000}' <= c <= '\U{200A}')
    || c == '\U{2028}' || c == '\U{2029}' || c == '\U{202F}'
    || c == '\U{205F}' || c == '\U{3000}'
  }

  predicate AllSpace(s: string) {
    forall i :: 0 <= i < |s| ==> IsSpace(s[i])
  }

  /** No whitespace at either end: what `strip()` produces. */
  predicate IsStripped(s: string) {
    s == [] || (!IsSpace(s[0]) && !IsSpace(s[|s| - 1]))
  }

  /** `r` is `s` with only whitespace removed: `i` characters in front and
      the rest after `r`. */
  predicate PaddedBy(s: string, r: string, i: int) {
    0 <= i && i + |r| <= |s| && s[i..i + |r|] == r && AllSpace(s[..i]) && AllSpace(s[i + |r|..])
  }

  /** `lstrip()`. */
  function TrimLeft(s: string): string {
    if s != [] && IsSpace(s[0]) then TrimLeft(s[1..]) else s
  }

  /** `rstrip()`. */
  function TrimRight(s: string): string {
    if s != [] && IsSpace(s[|s| - 1]) then TrimRight(s[..|s| - 1]) else s
  }

  /** `strip()`. */
  function Strip(s: string): string {
    TrimRight(TrimLeft(s))
  }

  /** `r` is what is left of `s` after removing the longest run of
      whitespace in front. */
  predicate LeftTrimmed(s: string, r: string) {
    |r| <= |s| && r == s[|s| - |r|..] && AllSpace(s[..|s| - |r|]) && (r == [] || !IsSpace(r[0]))
  }

  /** `r` is what is left of `s` after removing the longest run of
      whitespace at the end. */
  predicate RightTrimmed(s: string, r: string) {
    |r| <= |s| && r == s[..|r|] && AllSpace(s[|r|..]) && (r == [] || !IsSpace(r[|r| - 1]))
  }

  /** `lstrip()` removes the longest run of whitespace in front and nothing
      else. */
  lemma {:induction false} TrimLeftSpec(s: string)
    ensures LeftTrimmed(s, TrimLeft(s))
    decreases |s|
  {
    if s != [] && IsSpace(s[0]) {
      var t := s[1..];
      var r := TrimLeft(t);
      TrimLeftSpec(t);
      var k := |s| - |r|;
      assert r == s[k..];
      forall i | 0 <= i < k ensures IsSpace(s[..k][i]) {
        if i > 0 {
          assert s[i] == t[..k - 1][i - 1];
        }
      }
    } else {
      assert s[..0] == [];
    }
  }

  /** `rstrip()` removes the longest run of whitespace at the end and
      nothing else. */
  lemma {:induction false} TrimRightSpec(s: string)
    ensures RightTrimmed(s, TrimRight(s))
    decreases |s|
  {
    if s != [] && IsSpace(s[|s| - 1]) {
      var r := TrimRight(s[..|s| - 1]);
      TrimRightSpec(s[..|s| - 1]);
      assert s[|r|..] == s[..|s| - 1][|r|..] + [s[|s| - 1]];
    }
  }

  /** `strip()` leaves no whitespace at either end and removes nothing but
      whitespace, from both ends. */
  lemma StripSpec(s: string)
    ensures IsStripped(Strip(s))
    ensures PaddedBy(s, Strip(s), |s| - |TrimLeft(s)|)
  {
    var t := TrimLeft(s);
    var r := TrimRight(t);
    TrimLeftSpec(s);
    TrimRightSpec(t);
    assert r != [] ==> r[0] == t[0];
    assert s[|s| - |t|..][..|r|] == s[|s| - |t|..|s| - |t| + |r|];
    assert s[|s| - |t| + |r|..] == t[|r|..];
  }

  /** Python's `str.lower()` restricted to ASCII: `A`..`Z` become `a`..`z`. */
  function LowerChar(c: char): char {
    if 'A' <= c <= 'Z' then (c as int + 32) as char else c
  }

  predicate IsLower(s: string) {
    forall i :: 0 <= i < |s| ==> !('A' <= s[i] <= 'Z')
  }

  /** `lower()`. */
  function Lower(s: string): string {
    seq(|s|, i requires 0 <= i < |s| => LowerChar(s[i]))
  }

  /** `lower()` leaves no capital letter, and changes a character only when
      it is a capital letter, into its small letter. */
  lemma LowerSpec(s: string)
    ensures |Lower(s)| == |s| && IsLower(Lower(s))
    ensures forall i :: 0 <= i < |s| && Lower(s)[i] != s[i] ==>
      'A' <= s[i] <= 'Z' && Lower(s)[i] as int == s[i] as int + 32
  {
  }

  /** A string with no capital letter is its own `lower()`. */
  lemma LowerOfLower(s: string)
    requires IsLower(s)
    ensures Lower(s) == s
  {
  }

  /** Lower-casing never turns whitespace into non-whitespace or back. */
  lemma LowerKeepsSpace(s: string)
    ensures forall i :: 0 <= i < |s| ==> (IsSpace(Lower(s)[i]) <==> IsSpace(s[i]))
  {
  }

  /** `strip()` leaves an already stripped string alone. */
  lemma StripOfStripped(s: string)
    ensures IsStripped(s) ==> Strip(s) == s
  {
  }

  lemma {:induction false} TrimLeftLower(s: string)
    ensures TrimLeft(Lower(s)) == Lower(TrimLeft(s))
    decreases |s|
  {
    if s != [] && IsSpace(s[0]) {
      assert Lower(s)[1..] == Lower(s[1..]);
      TrimLeftLower(s[1..]);
    }
  }

  lemma {:induction false} TrimRightLower(s: string)
    ensures TrimRight(Lower(s)) == Lower(TrimRight(s))
    decreases |s|
  {
    if s != [] && IsSpace(s[|s| - 1]) {
      assert Lower(s)[..|s| - 1] == Lower(s[..|s| - 1]);
      TrimRightLower(s[..|s| - 1]);
    }
  }

  /** Stripping and lower-casing commute, so `s.strip().lower()` is the
      same key as `s.lower().strip()`. */
  lemma StripLowerCommute(s: string)
    ensures Strip(Lower(s)) == Lower(Strip(s))
  {
    TrimLeftLower(s);
    TrimRightLower(TrimLeft(s));
  }

  lemma {:induction false} TrimLeftPadded(p: string, s: string)
    requires AllSpace(p)
    ensures TrimLeft(p + s) == TrimLeft(s)
    decreases |p|
  {
    if p != [] {
      assert (p + s)[1..] == p[1..] + s;
      TrimLeftPadded(p[1..], s);
    } else {
      assert p + s == s;
    }
  }

  lemma {:induction false} TrimRightPadded(s: string, q: string)
    requires AllSpace(q)
    ensures TrimRight(s + q) == TrimRight(s)
    decreases |q|
  {
    if q != [] {
      assert (s + q)[..|s + q| - 1] == s + q[..|q| - 1];
      TrimRightPadded(s, q[..|q| - 1]);
    } else {
      assert s + q == s;
    }
  }

  lemma {:induction false} TrimLeftSpaceTail(s: string, q: string)
    requires AllSpace(q)
    ensures TrimLeft(s + q) == TrimLeft(s) + q || (TrimLeft(s) == [] && AllSpace(TrimLeft(s + q)))
    decreases |s|
  {
    if s == [] {
      assert s + q == q;
      TrimLeftSpec(q);
    } else if IsSpace(s[0]) {
      assert (s + q)[1..] == s[1..] + q;
      TrimLeftSpaceTail(s[1..], q);
    } else {
      assert (s + q)[0] == s[0];
    }
  }

  /** Surrounding a string with whitespace does not change what `strip()`
      makes of it. */
  lemma PaddingIgnored(p: string, s: string, q: string)
    requires AllSpace(p) && AllSpace(q)
    ensures Strip(p + s + q) == Strip(s)
  {
    assert p + s + q == p + (s + q);
    TrimLeftPadded(p, s + q);
    TrimLeftSpaceTail(s, q);
    if TrimLeft(s + q) == TrimLeft(s) + q {
      TrimRightPadded(TrimLeft(s), q);
    } else {
      TrimLeftSpec(s + q);
    }
  }
}
