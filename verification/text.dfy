/** JavaScript string helpers the hooks and routes rely on: `.length` in UTF-16
    code units, `String.prototype.trim` with the ECMAScript white-space set, and
    the truthiness of a string. */
module Text {

  /** A character counts as white space for `trim()` when it is an ECMAScript
      WhiteSpace or LineTerminator code point (including the ideographic space
      U+3000 that Japanese input produces). */
  predicate IsJsSpace(c: char) {
    || c == '\t' || c == '\n' || c == '\U{000B}' || c == '\U{000C}' || c == '\r'
    || c == ' ' || c == '\U{00A0}' || c == '\U{1680}'
    || ('\U{2000}' <= c <= '\U{200A}')
    || c == '\U{2028}' || c == '\U{2029}' || c == '\U{202F}' || c == '\U{205F}'
    || c == '\U{3000}' || c == '\U{FEFF}'
  }

  /** Number of UTF-16 code units a code point occupies. */
  function Units(c: char): (n: nat)
    ensures 1 <= n <= 2
    ensures n == 2 <==> c as int >= 0x10000
  {
    if c as int >= 0x10000 then 2 else 1
  }

  /** `s.length` as JavaScript measures it: UTF-16 code units. */
  function Utf16Len(s: string): nat {
    if s == [] then 0 else Units(s[0]) + Utf16Len(s[1..])
  }

  lemma {:induction false} Utf16LenBounds(s: string)
    ensures |s| <= Utf16Len(s) <= 2 * |s|
    ensures Utf16Len(s) == 0 <==> s == []
  {
    if s != [] {
      Utf16LenBounds(s[1..]);
    }
  }

  /** Lengths add up under concatenation. */
  lemma {:induction false} Utf16LenAppend(a: string, b: string)
    ensures Utf16Len(a + b) == Utf16Len(a) + Utf16Len(b)
  {
    if a == [] {
      assert a + b == b;
    } else {
      assert (a + b)[1..] == a[1..] + b;
      Utf16LenAppend(a[1..], b);
    }
  }

  predicate AllSpace(s: string) {
    forall k | 0 <= k < |s| :: IsJsSpace(s[k])
  }

  /** Length of the longest all-white-space prefix. */
  function Leading(s: string): (n: nat)
    ensures n <= |s|
    ensures AllSpace(s[..n])
    ensures n < |s| ==> !IsJsSpace(s[n])
  {
    if s == [] || !IsJsSpace(s[0]) then 0
    else
      var m := Leading(s[1..]);
      assert forall k | 1 <= k < 1 + m :: s[k] == s[1..][k - 1];
      1 + m
  }

  /** Length of the longest all-white-space suffix. */
  function Trailing(s: string): (n: nat)
    ensures n <= |s|
    ensures AllSpace(s[|s| - n..])
    ensures n < |s| ==> !IsJsSpace(s[|s| - 1 - n])
  {
    if s == [] || !IsJsSpace(s[|s| - 1]) then 0
    else
      var init := s[..|s| - 1];
      var m := Trailing(init);
      assert forall k | |s| - 1 - m <= k < |s| - 1 :: s[k] == init[k];
      1 + m
  }

  /** `s.trim()`: drop the white-space prefix, then the white-space suffix. */
  function Trim(s: string): string {
    var t := s[Leading(s)..];
    t[..|t| - Trailing(t)]
  }

  /** `trim()` removes white space from both ends and nothing else: the result
      is the substring of `s` that starts at the first non-space character, it is
      followed in `s` by white space only, and it neither starts nor ends with
      white space. */
  lemma TrimSpec(s: string)
    ensures Leading(s) + |Trim(s)| <= |s|
    ensures Trim(s) == s[Leading(s)..Leading(s) + |Trim(s)|]
    ensures AllSpace(s[Leading(s) + |Trim(s)|..])
    ensures Trim(s) != [] ==> !IsJsSpace(Trim(s)[0]) && !IsJsSpace(Trim(s)[|Trim(s)| - 1])
  {
    var a := Leading(s);
    var t := s[a..];
    var b := Trailing(t);
    var r := t[..|t| - b];
    assert r == Trim(s);
    assert s[a + |r|..] == t[|t| - b..];
    if r != [] {
      assert r[0] == t[0] == s[a];
      assert r[|r| - 1] == t[|t| - 1 - b];
    }
  }

  /** Only an all-white-space string trims to the empty string. */
  lemma TrimEmptyIff(s: string)
    ensures Trim(s) == [] <==> AllSpace(s)
  {
    var a := Leading(s);
    if Trim(s) == [] {
      forall k | 0 <= k < |s| ensures IsJsSpace(s[k]) {
        assert s[..a][k] == s[k];
      }
    }
  }

  /** A string is blank when `trim()` leaves nothing, i.e. `!s.trim()` holds. */
  predicate IsBlank(s: string) {
    Trim(s) == []
  }

  lemma BlankMeansAllSpace(s: string)
    ensures IsBlank(s) <==> forall k | 0 <= k < |s| :: IsJsSpace(s[k])
  {
    TrimEmptyIff(s);
  }

  /** `sub` occurs in `s` starting at position `i`. */
  predicate OccursAt(s: string, sub: string, i: int) {
    0 <= i <= |s| - |sub| && s[i..i + |sub|] == sub
  }

  /** `s.includes(sub)`. */
  predicate Includes(s: string, sub: string) {
    exists i | 0 <= i <= |s| :: OccursAt(s, sub, i)
  }

  /** A string lacking one of the characters of `sub` cannot include it. */
  lemma MissingCharExcludes(s: string, sub: string, k: nat)
    requires k < |sub|
    requires forall i | 0 <= i < |s| :: s[i] != sub[k]
    ensures !Includes(s, sub)
  {
    forall i ensures !OccursAt(s, sub, i) {
      if 0 <= i <= |s| - |sub| {
        assert s[i..i + |sub|][k] == s[i + k];
      }
    }
  }
}
