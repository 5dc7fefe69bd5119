/**
 * The handful of Python string operations the bot's handlers rely on
 * (`strip`, `upper`, `lower`, `isdigit`, `int`, `str`, `split`, `join`, `in`),
 * restricted to ASCII: case mapping, white space and digits outside ASCII are
 * not modelled.
 */
module Text {

  /** The ASCII characters Python's argument-less `strip()` removes: those `str.isspace()`
      accepts, which include the four information separators U+001C to U+001F. */
  const Whitespace: set<char> :=
    {' ', '\t', '\n', '\r', '\U{0B}', '\U{0C}', '\U{1C}', '\U{1D}', '\U{1E}', '\U{1F}'}

  /** Drops the leading characters that belong to `cs`. */
  function TrimStart(s: string, cs: set<char>): (r: string)
    ensures |r| <= |s| && r == s[|s| - |r|..]
    ensures r == [] || r[0] !in cs
    ensures forall i :: 0 <= i < |s| - |r| ==> s[i] in cs
  {
    if s != [] && s[0] in cs then TrimStart(s[1..], cs) else s
  }

  /** Drops the trailing characters that belong to `cs`. */
  function TrimEnd(s: string, cs: set<char>): (r: string)
    ensures |r| <= |s| && r == s[..|r|]
    ensures r == [] || r[|r| - 1] !in cs
    ensures forall i :: |r| <= i < |s| ==> s[i] in cs
  {
    if s != [] && s[|s| - 1] in cs then TrimEnd(s[..|s| - 1], cs) else s
  }

  /** Python's `s.strip(chars)`. */
  function StripChars(s: string, cs: set<char>): string {
    TrimEnd(TrimStart(s, cs), cs)
  }

  /** Python's `s.strip()`. */
  function Strip(s: string): string {
    StripChars(s, Whitespace)
  }

  /** What stripping leaves neither starts nor ends with a stripped character. */
  lemma StripCharsEnds(s: string, cs: set<char>)
    ensures var r := StripChars(s, cs);
      r == [] || (r[0] !in cs && r[|r| - 1] !in cs)
  {
    var t := TrimStart(s, cs);
    var r := TrimEnd(t, cs);
    if r != [] {
      assert r[0] == t[0];
    }
  }

  /** What stripping leaves is a slice of the input, starting after the stripped prefix. */
  lemma StripCharsSlice(s: string, cs: set<char>)
    ensures var r := StripChars(s, cs); var a := |s| - |TrimStart(s, cs)|;
      0 <= a <= |s| - |r| && r == s[a..a + |r|]
  {
    var t := TrimStart(s, cs);
    var a := |s| - |t|;
    var r := TrimEnd(t, cs);
    assert t == s[a..] && r == t[..|r|];
  }

  /** Everything stripping drops, before and after what it leaves, is a stripped character. */
  lemma StripCharsDropsOnly(s: string, cs: set<char>)
    ensures var r := StripChars(s, cs); var a := |s| - |TrimStart(s, cs)|;
      && 0 <= a <= |s| - |r|
      && (forall i :: 0 <= i < a ==> s[i] in cs)
      && (forall i :: a + |r| <= i < |s| ==> s[i] in cs)
  {
    var t := TrimStart(s, cs);
    var a := |s| - |t|;
    var r := TrimEnd(t, cs);
    assert forall i :: a <= i < |s| ==> s[i] == t[i - a];
  }

  /** A string that neither starts nor ends with a stripped character is left as it is. */
  lemma StripCharsNothingToStrip(s: string, cs: set<char>)
    requires s == [] || (s[0] !in cs && s[|s| - 1] !in cs)
    ensures StripChars(s, cs) == s
  {
    assert TrimStart(s, cs) == s;
    assert TrimEnd(s, cs) == s;
  }

  /** A leading stripped character makes no difference to what stripping leaves. */
  lemma StripCharsAfterStripped(s: string, c: char, cs: set<char>)
    requires c in cs
    ensures StripChars([c] + s, cs) == StripChars(s, cs)
  {
    assert ([c] + s)[1..] == s;
  }

  /** Stripping twice strips nothing more. */
  lemma StripCharsIdempotent(s: string, cs: set<char>)
    ensures StripChars(StripChars(s, cs), cs) == StripChars(s, cs)
  {
    StripCharsEnds(s, cs);
    StripCharsNothingToStrip(StripChars(s, cs), cs);
  }

  function UpperChar(c: char): char {
    if 'a' <= c <= 'z' then (c as int - 32) as char else c
  }

  function LowerChar(c: char): char {
    if 'A' <= c <= 'Z' then (c as int + 32) as char else c
  }

  /** Python's `s.upper()`. */
  function Upper(s: string): (r: string)
    ensures |r| == |s| && forall i :: 0 <= i < |s| ==> r[i] == UpperChar(s[i])
  {
    seq(|s|, i requires 0 <= i < |s| => UpperChar(s[i]))
  }

  /** Python's `s.lower()`. */
  function Lower(s: string): (r: string)
    ensures |r| == |s| && forall i :: 0 <= i < |s| ==> r[i] == LowerChar(s[i])
  {
    seq(|s|, i requires 0 <= i < |s| => LowerChar(s[i]))
  }

  /** Python's `s.replace(c, "")` for a one-character `c`. */
  function RemoveChar(s: string, c: char): (r: string)
    ensures c !in r
    ensures forall x :: x in r <==> x in s && x != c
  {
    if s == [] then [] else (if s[0] == c then [] else [s[0]]) + RemoveChar(s[1..], c)
  }

  predicate IsDigit(c: char) {
    '0' <= c <= '9'
  }

  /** Python's `s.isdigit()` over ASCII: non-empty and digits only. */
  predicate IsDigits(s: string) {
    s != [] && forall i :: 0 <= i < |s| ==> IsDigit(s[i])
  }

  /** Python's `int(s)` for a string of ASCII digits (leading zeros allowed). */
  function DigitsValue(s: string): nat
    requires forall i :: 0 <= i < |s| ==> IsDigit(s[i])
  {
    if s == [] then 0 else assert IsDigit(s[|s| - 1]); 10 * DigitsValue(s[..|s| - 1]) + (s[|s| - 1] as int - '0' as int)
  }

  function DigitChar(d: nat): (c: char)
    requires d < 10
    ensures IsDigit(c) && c as int - '0' as int == d
  {
    ('0' as int + d) as char
  }

  /** Python's `str(n)` for a non-negative integer. */
  function NatToString(n: nat): (s: string)
    ensures IsDigits(s)
    ensures |s| > 1 ==> s[0] != '0'
  {
    if n < 10 then [DigitChar(n)] else NatToString(n / 10) + [DigitChar(n % 10)]
  }

  /** `int(str(n)) == n`. */
  lemma {:induction false} DigitsValueOfNatToString(n: nat)
    ensures DigitsValue(NatToString(n)) == n
  {
    if n >= 10 {
      var s := NatToString(n);
      DigitsValueOfNatToString(n / 10);
      assert s[..|s| - 1] == NatToString(n / 10);
    }
  }

  /** Distinct numbers render as distinct strings. */
  lemma NatToStringInjective(a: nat, b: nat)
    requires NatToString(a) == NatToString(b)
    ensures a == b
  {
    DigitsValueOfNatToString(a);
    DigitsValueOfNatToString(b);
  }

  /** The first position of `d` in `s`. */
  function IndexOf(s: string, d: char): (i: nat)
    requires d in s
    ensures i < |s| && s[i] == d && d !in s[..i]
  {
    if s[0] == d then 0 else 1 + IndexOf(s[1..], d)
  }

  /** Python's `s.split(d)` for a one-character separator: never empty, no part holds `d`. */
  function Split(s: string, d: char): (parts: seq<string>)
    ensures |parts| >= 1
    ensures forall k :: 0 <= k < |parts| ==> d !in parts[k]
    decreases |s|
  {
    if d in s then
      var i := IndexOf(s, d);
      [s[..i]] + Split(s[i + 1..], d)
    else
      [s]
  }

  /** Python's `d.join(parts)` for a one-character separator. */
  function Join(parts: seq<string>, d: char): string {
    if |parts| == 0 then ""
    else if |parts| == 1 then parts[0]
    else parts[0] + [d] + Join(parts[1..], d)
  }

  /** `IndexOf` finds the first occurrence: any position of `d` with no `d` before it. */
  lemma {:induction false} IndexOfFirst(s: string, d: char, j: nat)
    requires j < |s| && s[j] == d && d !in s[..j]
    ensures IndexOf(s, d) == j
  {
    if s[0] != d {
      assert s[1..][..j - 1] == s[1..j];
      IndexOfFirst(s[1..], d, j - 1);
    }
  }

  /** Splitting what was joined gives the parts back, when no part holds the separator. */
  lemma {:induction false} SplitJoin(parts: seq<string>, d: char)
    requires |parts| >= 1
    requires forall k :: 0 <= k < |parts| ==> d !in parts[k]
    ensures Split(Join(parts, d), d) == parts
  {
    if |parts| > 1 {
      var rest := Join(parts[1..], d);
      var s := parts[0] + [d] + rest;
      var n := |parts[0]|;
      assert s[..n] == parts[0];
      IndexOfFirst(s, d, n);
      assert s[n + 1..] == rest;
      SplitJoin(parts[1..], d);
    }
  }

  /** Joining what was split gives the text back. */
  lemma {:induction false} JoinSplit(s: string, d: char)
    ensures Join(Split(s, d), d) == s
    decreases |s|
  {
    if d in s {
      var i := IndexOf(s, d);
      var rest := Split(s[i + 1..], d);
      JoinSplit(s[i + 1..], d);
      var parts := [s[..i]] + rest;
      assert Split(s, d) == parts;
      assert parts[1..] == rest;
      assert Join(parts, d) == s[..i] + [d] + Join(rest, d);
      assert s == s[..i] + [d] + s[i + 1..];
    }
  }

  /** Python's `needle in hay` for strings. */
  predicate IsSubstring(needle: string, hay: string)
    decreases |hay|
  {
    |needle| <= |hay| && (hay[..|needle|] == needle || IsSubstring(needle, hay[1..]))
  }

  /** `needle` occurs in `hay` starting at position `i`. */
  predicate OccursAt(needle: string, hay: string, i: int) {
    0 <= i <= |hay| - |needle| && hay[i..i + |needle|] == needle
  }

  /** `needle in hay` holds exactly when `needle` occurs at some position of `hay`. */
  lemma {:induction false} IsSubstringIffOccurs(needle: string, hay: string)
    ensures IsSubstring(needle, hay) <==> exists i :: OccursAt(needle, hay, i)
    decreases |hay|
  {
    if |needle| <= |hay| && hay[..|needle|] != needle {
      IsSubstringIffOccurs(needle, hay[1..]);
      if IsSubstring(needle, hay[1..]) {
        var i :| OccursAt(needle, hay[1..], i);
        assert hay[1..][i..i + |needle|] == hay[i + 1..i + 1 + |needle|];
        assert OccursAt(needle, hay, i + 1);
      }
      if exists i :: OccursAt(needle, hay, i) {
        var i :| OccursAt(needle, hay, i);
        assert i != 0;
        assert hay[1..][i - 1..i - 1 + |needle|] == hay[i..i + |needle|];
        assert OccursAt(needle, hay[1..], i - 1);
      }
    } else if |needle| <= |hay| {
      assert OccursAt(needle, hay, 0);
    }
  }
}
