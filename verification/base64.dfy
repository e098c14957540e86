/** The byte encodings under the TTS route's token: UTF-8 (what
    `Buffer.from(string)` produces), base64 with the standard alphabet and
    padding of section 4 of RFC 4648 (what `toString("base64")` writes), and
    the route's post-processing into the URL-safe alphabet of section 5 of
    RFC 4648 with the padding dropped. Each encoding comes with the decoder
    that inverts it. */
module Base64 {
  import opened Wrappers

  type Byte = b: int | 0 <= b < 256

  // --- UTF-8 -------------------------------------------------------------------

  /** The UTF-8 bytes of one Unicode scalar value. */
  function Utf8Char(c: char): (bs: seq<Byte>)
    ensures 1 <= |bs| <= 4
    ensures (|bs| == 1) <==> c as int < 0x80
  {
    var n := c as int;
    if n < 0x80 then [n]
    else if n < 0x800 then [0xC0 + n / 64, 0x80 + n % 64]
    else if n < 0x10000 then [0xE0 + n / 4096, 0x80 + (n / 64) % 64, 0x80 + n % 64]
    else [0xF0 + n / 262144, 0x80 + (n / 4096) % 64, 0x80 + (n / 64) % 64, 0x80 + n % 64]
  }

  function Utf8(s: string): seq<Byte> {
    if s == [] then [] else Utf8Char(s[0]) + Utf8(s[1..])
  }

  predicate IsContinuation(b: Byte) {
    0x80 <= b < 0xC0
  }

  /** The scalar value with code `n`, if it is one. */
  function ScalarOf(n: int): Option<char> {
    if 0 <= n < 0xD800 || 0xE000 <= n < 0x110000 then Some(n as char) else None
  }

  /** The length of the sequence a lead byte starts, 0 for a byte that cannot lead. */
  function SequenceLength(b: Byte): nat {
    if b < 0x80 then 1
    else if 0xC0 <= b < 0xE0 then 2
    else if 0xE0 <= b < 0xF0 then 3
    else if 0xF0 <= b < 0xF8 then 4
    else 0
  }

  /** The character the first bytes of `bs` encode, with its length; only the
      shortest form of a scalar value is accepted. */
  function DecodeChar(bs: seq<Byte>): (r: Option<(char, nat)>)
    ensures r.Some? ==> 1 <= r.value.1 <= |bs| && r.value.1 <= 4
  {
    if bs == [] then None
    else
      var len := SequenceLength(bs[0]);
      if len == 0 || len > |bs| then None
      else if exists i | 1 <= i < len :: !IsContinuation(bs[i]) then None
      else
        var n: int :=
          if len == 1 then bs[0] as int
          else if len == 2 then (bs[0] as int - 0xC0) * 64 + (bs[1] as int - 0x80)
          else if len == 3 then (bs[0] as int - 0xE0) * 4096 + (bs[1] as int - 0x80) * 64 + (bs[2] as int - 0x80)
          else (bs[0] as int - 0xF0) * 262144 + (bs[1] as int - 0x80) * 4096 + (bs[2] as int - 0x80) * 64 + (bs[3] as int - 0x80);
        var least: int := if len == 1 then 0 else if len == 2 then 0x80 else if len == 3 then 0x800 else 0x10000;
        if n < least then None
        else match ScalarOf(n)
          case None => None
          case Some(c) => Some((c, len))
  }

  function Utf8Decode(bs: seq<Byte>): Option<string>
    decreases |bs|
  {
    if bs == [] then Some([])
    else match DecodeChar(bs)
      case None => None
      case Some((c, len)) =>
        match Utf8Decode(bs[len..])
        case None => None
        case Some(rest) => Some([c] + rest)
  }

  lemma DecodeCharInverts(c: char, rest: seq<Byte>)
    ensures DecodeChar(Utf8Char(c) + rest) == Some((c, |Utf8Char(c)|))
  {
    var n := c as int;
    if n < 0x80 {
      assert (Utf8Char(c) + rest)[0] == n;
    } else if n < 0x800 {
      InvertsTwo(c, rest);
    } else if n < 0x10000 {
      InvertsThree(c, rest);
    } else {
      InvertsFour(c, rest);
    }
  }

  lemma InvertsTwo(c: char, rest: seq<Byte>)
    requires 0x80 <= c as int < 0x800
    ensures DecodeChar(Utf8Char(c) + rest) == Some((c, 2))
  {
    var n := c as int;
    var bs := Utf8Char(c) + rest;
    assert bs[0] == 0xC0 + n / 64 && bs[1] == 0x80 + n % 64;
    assert (bs[0] as int - 0xC0) * 64 + (bs[1] as int - 0x80) == n;
  }

  lemma InvertsThree(c: char, rest: seq<Byte>)
    requires 0x800 <= c as int < 0x10000
    ensures DecodeChar(Utf8Char(c) + rest) == Some((c, 3))
  {
    var n := c as int;
    var bs := Utf8Char(c) + rest;
    assert bs[0] == 0xE0 + n / 4096 && bs[1] == 0x80 + (n / 64) % 64 && bs[2] == 0x80 + n % 64;
    assert (bs[0] as int - 0xE0) * 4096 + (bs[1] as int - 0x80) * 64 + (bs[2] as int - 0x80) == n by {
      Recombine3(n);
    }
  }

  lemma InvertsFour(c: char, rest: seq<Byte>)
    requires 0x10000 <= c as int
    ensures DecodeChar(Utf8Char(c) + rest) == Some((c, 4))
  {
    var n := c as int;
    var bs := Utf8Char(c) + rest;
    assert bs[0] == 0xF0 + n / 262144 && bs[1] == 0x80 + (n / 4096) % 64;
    assert bs[2] == 0x80 + (n / 64) % 64 && bs[3] == 0x80 + n % 64;
    assert (bs[0] as int - 0xF0) * 262144 + (bs[1] as int - 0x80) * 4096 + (bs[2] as int - 0x80) * 64 + (bs[3] as int - 0x80) == n by {
      Recombine4(n);
    }
  }

  lemma Recombine3(n: int)
    requires 0 <= n
    ensures (n / 4096) * 4096 + ((n / 64) % 64) * 64 + n % 64 == n
  {
    var q := n / 64;
    assert q * 64 + n % 64 == n;
    assert (q / 64) * 64 + q % 64 == q;
    assert n / 4096 == q / 64;
  }

  lemma Recombine4(n: int)
    requires 0 <= n
    ensures (n / 262144) * 262144 + ((n / 4096) % 64) * 4096 + ((n / 64) % 64) * 64 + n % 64 == n
  {
    var q := n / 64;
    var r := q / 64;
    assert q * 64 + n % 64 == n;
    assert r * 64 + q % 64 == q;
    assert (r / 64) * 64 + r % 64 == r;
    assert n / 4096 == r;
    assert n / 262144 == r / 64;
  }

  /** Decoding the UTF-8 of a string gives the string back. */
  lemma {:induction false} Utf8RoundTrip(s: string)
    ensures Utf8Decode(Utf8(s)) == Some(s)
  {
    if s != [] {
      var e := Utf8Char(s[0]);
      DecodeCharInverts(s[0], Utf8(s[1..]));
      assert (e + Utf8(s[1..]))[|e|..] == Utf8(s[1..]);
      Utf8RoundTrip(s[1..]);
      assert [s[0]] + s[1..] == s;
    }
  }

  /** ASCII text is its own UTF-8. */
  lemma {:induction false} Utf8Ascii(s: string)
    requires forall i | 0 <= i < |s| :: s[i] as int < 0x80
    ensures |Utf8(s)| == |s|
    ensures forall i | 0 <= i < |s| :: Utf8(s)[i] == s[i] as int
  {
    if s != [] {
      Utf8Ascii(s[1..]);
      assert forall i | 1 <= i < |s| :: s[1..][i - 1] == s[i];
    }
  }

  // --- Base64 ------------------------------------------------------------------

  /** The character for a 6-bit value: Table 1 of RFC 4648 (standard) or
      Table 2 (URL- and filename-safe), which differ only at 62 and 63. */
  function Sextet(v: nat, url: bool): (c: char)
    requires v < 64
  {
    if v < 26 then ('A' as int + v) as char
    else if v < 52 then ('a' as int + v - 26) as char
    else if v < 62 then ('0' as int + v - 52) as char
    else if v == 62 then (if url then '-' else '+')
    else (if url then '_' else '/')
  }

  /** The 6-bit value of a character of the URL-safe alphabet. */
  function UrlValue(c: char): (v: Option<nat>)
    ensures v.Some? ==> v.value < 64 && Sextet(v.value, true) == c
  {
    if 'A' <= c <= 'Z' then Some(c as int - 'A' as int)
    else if 'a' <= c <= 'z' then Some(c as int - 'a' as int + 26)
    else if '0' <= c <= '9' then Some(c as int - '0' as int + 52)
    else if c == '-' then Some(62)
    else if c == '_' then Some(63)
    else None
  }

  lemma UrlValueInverts(v: nat)
    requires v < 64
    ensures UrlValue(Sextet(v, true)) == Some(v)
  {
  }

  /** The alphabet characters for `bs`, three bytes to four characters, with a
      final group of one or two bytes giving two or three characters. */
  function Sextets(bs: seq<Byte>, url: bool): (s: string)
    ensures |s| == (4 * |bs| + 2) / 3
    decreases |bs|
  {
    if |bs| == 0 then []
    else if |bs| == 1 then [Sextet(bs[0] / 4, url), Sextet((bs[0] % 4) * 16, url)]
    else if |bs| == 2 then
      [Sextet(bs[0] / 4, url), Sextet((bs[0] % 4) * 16 + bs[1] / 16, url), Sextet((bs[1] % 16) * 4, url)]
    else
      [Sextet(bs[0] / 4, url), Sextet((bs[0] % 4) * 16 + bs[1] / 16, url),
       Sextet((bs[1] % 16) * 4 + bs[2] / 64, url), Sextet(bs[2] % 64, url)]
      + Sextets(bs[3..], url)
  }

  /** `=` characters completing the last group of four. */
  function Padding(n: nat): (s: string)
    ensures |s| == (3 - n % 3) % 3
    ensures forall i | 0 <= i < |s| :: s[i] == '='
  {
    if n % 3 == 1 then "==" else if n % 3 == 2 then "=" else ""
  }

  /** `Buffer.toString("base64")`: section 4 of RFC 4648, padded. */
  function Encode(bs: seq<Byte>): (s: string)
    ensures |s| % 4 == 0 && |s| == 4 * ((|bs| + 2) / 3)
  {
    PaddedLength(|bs|);
    Sextets(bs, false) + Padding(|bs|)
  }

  lemma PaddedLength(n: nat)
    ensures (4 * n + 2) / 3 + (3 - n % 3) % 3 == 4 * ((n + 2) / 3)
  {
    var q := n / 3;
    if n % 3 == 0 {
      assert n == 3 * q;
      assert (4 * n + 2) / 3 == 4 * q;
      assert (n + 2) / 3 == q;
    } else if n % 3 == 1 {
      assert n == 3 * q + 1;
      assert (4 * n + 2) / 3 == 4 * q + 2;
      assert (n + 2) / 3 == q + 1;
    } else {
      assert n == 3 * q + 2;
      assert (4 * n + 2) / 3 == 4 * q + 3;
      assert (n + 2) / 3 == q + 1;
    }
  }

  // --- The URL-safe post-processing --------------------------------------------

  /** `s.replace(/c/g, r)` for a single-character pattern. */
  function ReplaceAll(s: string, c: char, r: string): (t: string)
    ensures (forall i | 0 <= i < |r| :: r[i] != c) ==> forall i | 0 <= i < |t| :: t[i] != c
  {
    if s == [] then []
    else
      var rest := ReplaceAll(s[1..], c, r);
      if s[0] == c then r + rest else [s[0]] + rest
  }

  lemma {:induction false} ReplaceAllAppend(a: string, b: string, c: char, r: string)
    ensures ReplaceAll(a + b, c, r) == ReplaceAll(a, c, r) + ReplaceAll(b, c, r)
  {
    if a == [] {
      assert a + b == b;
    } else {
      assert (a + b)[0] == a[0];
      assert (a + b)[1..] == a[1..] + b;
      ReplaceAllAppend(a[1..], b, c, r);
    }
  }

  /** A replacement whose pattern is absent changes nothing. */
  lemma {:induction false} ReplaceAllAbsent(s: string, c: char, r: string)
    requires forall i | 0 <= i < |s| :: s[i] != c
    ensures ReplaceAll(s, c, r) == s
  {
    if s != [] {
      ReplaceAllAbsent(s[1..], c, r);
    }
  }

  /** A replacement by a string lacking `d` adds no `d`. */
  lemma {:induction false} ReplaceAllKeepsAbsent(s: string, c: char, r: string, d: char)
    requires forall i | 0 <= i < |s| :: s[i] != d
    requires forall i | 0 <= i < |r| :: r[i] != d
    ensures forall i | 0 <= i < |ReplaceAll(s, c, r)| :: ReplaceAll(s, c, r)[i] != d
  {
    if s != [] {
      ReplaceAllKeepsAbsent(s[1..], c, r, d);
    }
  }

  /** The route's post-processing: `+` to `-`, then `/` to `_`, then drop `=`. */
  function ToUrl(s: string): string {
    ReplaceAll(ReplaceAll(ReplaceAll(s, '+', "-"), '/', "_"), '=', "")
  }

  /** What the chain does to one character, as a single-pass reference. */
  function UrlChar(c: char): string {
    if c == '+' then "-" else if c == '/' then "_" else if c == '=' then "" else [c]
  }

  function MapUrl(s: string): string {
    if s == [] then [] else UrlChar(s[0]) + MapUrl(s[1..])
  }

  lemma ToUrlAppend(a: string, b: string)
    ensures ToUrl(a + b) == ToUrl(a) + ToUrl(b)
  {
    ReplaceAllAppend(a, b, '+', "-");
    ReplaceAllAppend(ReplaceAll(a, '+', "-"), ReplaceAll(b, '+', "-"), '/', "_");
    ReplaceAllAppend(ReplaceAll(ReplaceAll(a, '+', "-"), '/', "_"),
                     ReplaceAll(ReplaceAll(b, '+', "-"), '/', "_"), '=', "");
  }

  /** The three replacements act character by character: `+` becomes `-`, `/`
      becomes `_`, `=` disappears, and every other character stays, in order. */
  lemma {:induction false} ToUrlIsCharMap(s: string)
    ensures ToUrl(s) == MapUrl(s)
  {
    if s != [] {
      assert s == [s[0]] + s[1..];
      ToUrlAppend([s[0]], s[1..]);
      ToUrlIsCharMap(s[1..]);
    }
  }

  /** The output has no `+`, `/` or `=`. */
  lemma ToUrlAlphabet(s: string)
    ensures forall i | 0 <= i < |ToUrl(s)| :: ToUrl(s)[i] != '+' && ToUrl(s)[i] != '/' && ToUrl(s)[i] != '='
  {
    var a := ReplaceAll(s, '+', "-");
    var b := ReplaceAll(a, '/', "_");
    ReplaceAllKeepsAbsent(a, '/', "_", '+');
    ReplaceAllKeepsAbsent(b, '=', "", '+');
    ReplaceAllKeepsAbsent(b, '=', "", '/');
  }

  /** A string without `+`, `/` or `=` passes through unchanged. */
  lemma ToUrlKeepsPlain(s: string)
    requires forall i | 0 <= i < |s| :: s[i] != '+' && s[i] != '/' && s[i] != '='
    ensures ToUrl(s) == s
  {
    ReplaceAllAbsent(s, '+', "-");
    ReplaceAllAbsent(s, '/', "_");
    ReplaceAllAbsent(s, '=', "");
  }

  lemma ReplaceAllOne(x: char, c: char, r: string)
    ensures ReplaceAll([x], c, r) == if x == c then r else [x]
  {
    assert [x][1..] == [];
  }

  lemma ToUrlOne(x: char)
    ensures ToUrl([x]) == UrlChar(x)
  {
    ReplaceAllOne(x, '+', "-");
    var a := ReplaceAll([x], '+', "-");
    if x == '+' {
      ReplaceAllOne('-', '/', "_");
      ReplaceAllOne('-', '=', "");
    } else {
      ReplaceAllOne(x, '/', "_");
      if x == '/' {
        ReplaceAllOne('_', '=', "");
      } else {
        ReplaceAllOne(x, '=', "");
      }
    }
  }

  lemma ToUrlSextet(v: nat)
    requires v < 64
    ensures ToUrl([Sextet(v, false)]) == [Sextet(v, true)]
  {
    ToUrlOne(Sextet(v, false));
  }

  /** Post-processing standard base64 gives the unpadded URL-safe encoding. */
  lemma {:induction false} ToUrlOfEncode(bs: seq<Byte>)
    ensures ToUrl(Encode(bs)) == Sextets(bs, true)
  {
    ToUrlAppend(Sextets(bs, false), Padding(|bs|));
    ToUrlPadding(|bs|);
    ToUrlOfSextets(bs);
  }

  lemma ToUrlPadding(n: nat)
    ensures ToUrl(Padding(n)) == []
  {
    ToUrlOne('=');
    if n % 3 == 1 {
      assert Padding(n) == "=" + "=";
      ToUrlAppend("=", "=");
    } else if n % 3 == 0 {
      assert ToUrl([]) == [];
    }
  }

  lemma {:induction false} ToUrlOfSextets(bs: seq<Byte>)
    ensures ToUrl(Sextets(bs, false)) == Sextets(bs, true)
    decreases |bs|
  {
    var s := Sextets(bs, false);
    var u := Sextets(bs, true);
    if |bs| == 0 {
    } else if |bs| <= 2 {
      ToUrlEach(s, u);
    } else {
      var head := s[..4];
      assert s == head + Sextets(bs[3..], false);
      assert u == u[..4] + Sextets(bs[3..], true);
      ToUrlAppend(head, Sextets(bs[3..], false));
      ToUrlEach(head, u[..4]);
      ToUrlOfSextets(bs[3..]);
    }
  }

  /** Character-wise translation of a group. */
  lemma {:induction false} ToUrlEach(s: string, u: string)
    requires |s| == |u|
    requires forall i | 0 <= i < |s| :: exists v | 0 <= v < 64 :: s[i] == Sextet(v, false) && u[i] == Sextet(v, true)
    ensures ToUrl(s) == u
  {
    if s != [] {
      var v :| 0 <= v < 64 && s[0] == Sextet(v, false) && u[0] == Sextet(v, true);
      ToUrlSextet(v);
      assert s == [s[0]] + s[1..];
      assert u == [u[0]] + u[1..];
      ToUrlAppend([s[0]], s[1..]);
      ToUrlEach(s[1..], u[1..]);
    }
  }

  // --- Decoding the URL-safe form -----------------------------------------------

  function DecodeUrl(u: string): (r: Option<seq<Byte>>)
    decreases |u|
  {
    if |u| == 0 then Some([])
    else if |u| == 1 then None
    else
      var a := UrlValue(u[0]);
      var b := UrlValue(u[1]);
      var c := if |u| >= 3 then UrlValue(u[2]) else Some(0);
      var d := if |u| >= 4 then UrlValue(u[3]) else Some(0);
      if a.None? || b.None? || c.None? || d.None? then None
      else
        var b0 := a.value * 4 + b.value / 16;
        var b1 := (b.value % 16) * 16 + c.value / 4;
        var b2 := (c.value % 4) * 64 + d.value;
        if |u| == 2 then Some([b0])
        else if |u| == 3 then Some([b0, b1])
        else match DecodeUrl(u[4..])
          case None => None
          case Some(rest) => Some([b0, b1, b2] + rest)
  }

  /** The four URL-safe characters of three bytes. */
  function Group(x0: Byte, x1: Byte, x2: Byte): (g: string)
    ensures |g| == 4
  {
    [Sextet(x0 / 4, true), Sextet((x0 % 4) * 16 + x1 / 16, true),
     Sextet((x1 % 16) * 4 + x2 / 64, true), Sextet(x2 % 64, true)]
  }

  /** A full group decodes to its three bytes ahead of whatever follows. */
  lemma DecodeGroup(x0: Byte, x1: Byte, x2: Byte, tail: string)
    ensures DecodeUrl(Group(x0, x1, x2) + tail)
      == (match DecodeUrl(tail) case None => None case Some(rest) => Some([x0, x1, x2] + rest))
  {
    var u := Group(x0, x1, x2) + tail;
    UrlValueInverts(x0 / 4);
    UrlValueInverts((x0 % 4) * 16 + x1 / 16);
    UrlValueInverts((x1 % 16) * 4 + x2 / 64);
    UrlValueInverts(x2 % 64);
    Regroup(x0, x1, x2);
    assert u[4..] == tail;
  }

  /** Two bytes give three characters, which decode back to them. */
  lemma DecodeTwo(x0: Byte, x1: Byte)
    ensures DecodeUrl(Sextets([x0, x1], true)) == Some([x0, x1])
  {
    UrlValueInverts(x0 / 4);
    UrlValueInverts((x0 % 4) * 16 + x1 / 16);
    UrlValueInverts((x1 % 16) * 4);
    Regroup(x0, x1, 0);
  }

  /** One byte gives two characters, which decode back to it. */
  lemma DecodeOne(x0: Byte)
    ensures DecodeUrl(Sextets([x0], true)) == Some([x0])
  {
    UrlValueInverts(x0 / 4);
    UrlValueInverts((x0 % 4) * 16);
    Regroup(x0, 0, 0);
  }

  /** Decoding the URL-safe encoding of `bs` gives `bs` back. */
  lemma {:induction false} SextetsRoundTrip(bs: seq<Byte>)
    ensures DecodeUrl(Sextets(bs, true)) == Some(bs)
    decreases |bs|
  {
    if |bs| >= 3 {
      assert Sextets(bs, true) == Group(bs[0], bs[1], bs[2]) + Sextets(bs[3..], true);
      DecodeGroup(bs[0], bs[1], bs[2], Sextets(bs[3..], true));
      SextetsRoundTrip(bs[3..]);
      assert bs == [bs[0], bs[1], bs[2]] + bs[3..];
    } else if |bs| == 2 {
      assert bs == [bs[0], bs[1]];
      DecodeTwo(bs[0], bs[1]);
    } else if |bs| == 1 {
      assert bs == [bs[0]];
      DecodeOne(bs[0]);
    }
  }

  /** Reading the four 6-bit values back as bytes gives the three bytes. */
  lemma Regroup(b0: Byte, b1: Byte, b2: Byte)
    ensures (b0 / 4) * 4 + ((b0 % 4) * 16 + b1 / 16) / 16 == b0
    ensures (((b0 % 4) * 16 + b1 / 16) % 16) * 16 + ((b1 % 16) * 4 + b2 / 64) / 4 == b1
    ensures (((b1 % 16) * 4 + b2 / 64) % 4) * 64 + b2 % 64 == b2
  {
    assert ((b0 % 4) * 16 + b1 / 16) / 16 == b0 % 4;
    assert ((b0 % 4) * 16 + b1 / 16) % 16 == b1 / 16;
    assert ((b1 % 16) * 4 + b2 / 64) / 4 == b1 % 16;
    assert ((b1 % 16) * 4 + b2 / 64) % 4 == b2 / 64;
  }

  /** The whole pipeline inverts: URL-safe decoding undoes the post-processed
      standard encoding. */
  lemma EncodeRoundTrip(bs: seq<Byte>)
    ensures DecodeUrl(ToUrl(Encode(bs))) == Some(bs)
  {
    ToUrlOfEncode(bs);
    SextetsRoundTrip(bs);
  }

  /** Every character of the URL-safe encoding is a letter, a digit, `-` or `_`. */
  lemma {:induction false} SextetsAlphabet(bs: seq<Byte>)
    ensures forall i | 0 <= i < |Sextets(bs, true)| :: UrlValue(Sextets(bs, true)[i]).Some?
    decreases |bs|
  {
    var u := Sextets(bs, true);
    if |bs| >= 3 {
      SextetsAlphabet(bs[3..]);
      assert forall i | 4 <= i < |u| :: u[i] == Sextets(bs[3..], true)[i - 4];
    }
    forall i | 0 <= i < |u| && i < 4 ensures UrlValue(u[i]).Some? {
      assert exists v | 0 <= v < 64 :: u[i] == Sextet(v, true);
      var v :| 0 <= v < 64 && u[i] == Sextet(v, true);
      UrlValueInverts(v);
    }
  }
}
