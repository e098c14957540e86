/** The service-account token the TTS route builds: a JSON Web Token in the
    compact serialization of section 7.1 of RFC 7515, whose header and claims
    are base64url-encoded JSON and whose signature comes from an RSA-SHA256
    signer this model takes as a parameter. */
module Jwt {
  import opened Wrappers
  import opened Json
  import opened Base64

  const Scope: string := "https://www.googleapis.com/auth/cloud-platform"
  const Audience: string := "https://oauth2.googleapis.com/token"
  /** Seconds between `iat` and `exp`. */
  const Lifetime: int := 3600

  const Header: Json := JObj([("alg", JStr("RS256")), ("typ", JStr("JWT"))])

  /** `Math.floor(Date.now() / 1000)`: whole seconds of a millisecond clock. */
  function IssuedAt(nowMs: int): (iat: int)
    ensures iat * 1000 <= nowMs < iat * 1000 + 1000
  {
    nowMs / 1000
  }

  /** The claims object, members in source order; an undefined `iss` (no
      `client_email` in the credentials) is left out, as `JSON.stringify`
      leaves out undefined members. */
  function Claims(iss: Option<Json>, iat: int): (c: Json)
    ensures c.JObj?
  {
    JObj((if iss.Some? then [("iss", iss.value)] else [])
         + [("scope", JStr(Scope)), ("aud", JStr(Audience)), ("exp", JNum(iat + Lifetime)), ("iat", JNum(iat))])
  }

  /** `base64UrlEncode`: UTF-8, standard base64, then the URL-safe replacements. */
  function Segment(text: string): string {
    ToUrl(Encode(Utf8(text)))
  }

  /** `signWithRSA`'s result for raw signature bytes. */
  function SignatureSegment(signature: seq<Byte>): string {
    ToUrl(Encode(signature))
  }

  function SigningInput(iss: Option<Json>, iat: int): string {
    Segment(Stringify(Header)) + "." + Segment(Stringify(Claims(iss, iat)))
  }

  /** `createJWT(credentials)` at clock reading `nowMs`. `sign(data, key)` is
      the RSA-SHA256 signature of `data` under `key`, or None when signing
      throws (no usable `private_key`). */
  function CreateJwt(credentials: Json, nowMs: int, sign: (string, Option<Json>) -> Option<seq<Byte>>): Option<string> {
    var input := SigningInput(Member(Some(credentials), "client_email"), IssuedAt(nowMs));
    var signature := sign(input, Member(Some(credentials), "private_key"));
    if signature.None? then None else Some(input + "." + SignatureSegment(signature.value))
  }

  // --- Splitting a token ---------------------------------------------------------

  /** `s.split(c)`. */
  function SplitOn(s: string, c: char): (parts: seq<string>)
    ensures |parts| >= 1
  {
    if s == [] then [[]]
    else
      var rest := SplitOn(s[1..], c);
      if s[0] == c then [[]] + rest else [[s[0]] + rest[0]] + rest[1..]
  }

  predicate Lacks(s: string, c: char) {
    forall i | 0 <= i < |s| :: s[i] != c
  }

  lemma {:induction false} SplitLacking(a: string, c: char)
    requires Lacks(a, c)
    ensures SplitOn(a, c) == [a]
  {
    if a != [] {
      SplitLacking(a[1..], c);
      assert [a[0]] + a[1..] == a;
    }
  }

  lemma {:induction false} SplitAt(a: string, c: char, b: string)
    requires Lacks(a, c)
    ensures SplitOn(a + [c] + b, c) == [a] + SplitOn(b, c)
  {
    var s := a + [c] + b;
    if a == [] {
      assert s[1..] == b;
    } else {
      assert s[0] == a[0];
      assert s[1..] == a[1..] + [c] + b;
      SplitAt(a[1..], c, b);
      assert [a[0]] + a[1..] == a;
    }
  }

  lemma SegmentHasNoDot(bs: seq<Byte>)
    ensures Lacks(ToUrl(Encode(bs)), '.')
  {
    ToUrlOfEncode(bs);
    SextetsAlphabet(bs);
  }

  /** Three dot-free parts joined by dots split back into those parts. */
  lemma SplitThree(h: string, p: string, g: string)
    requires Lacks(h, '.') && Lacks(p, '.') && Lacks(g, '.')
    ensures SplitOn(h + "." + p + "." + g, '.') == [h, p, g]
  {
    assert h + "." + p + "." + g == h + ['.'] + (p + ['.'] + g);
    SplitAt(h, '.', p + ['.'] + g);
    SplitAt(p, '.', g);
    SplitLacking(g, '.');
  }

  /** The token is three base64url segments joined by the only two dots in it:
      splitting it at `.` gives back header, claims and signature. */
  lemma TokenShape(credentials: Json, nowMs: int, sign: (string, Option<Json>) -> Option<seq<Byte>>)
    ensures var iss := Member(Some(credentials), "client_email");
      var iat := IssuedAt(nowMs);
      var signed := sign(SigningInput(iss, iat), Member(Some(credentials), "private_key"));
      && (CreateJwt(credentials, nowMs, sign).Some? <==> signed.Some?)
      && (signed.Some? ==>
            SplitOn(CreateJwt(credentials, nowMs, sign).value, '.')
              == [Segment(Stringify(Header)), Segment(Stringify(Claims(iss, iat))), SignatureSegment(signed.value)])
  {
    var iss := Member(Some(credentials), "client_email");
    var iat := IssuedAt(nowMs);
    var signed := sign(SigningInput(iss, iat), Member(Some(credentials), "private_key"));
    if signed.Some? {
      var ht, pt := Stringify(Header), Stringify(Claims(iss, iat));
      SegmentHasNoDot(Utf8(ht));
      SegmentHasNoDot(Utf8(pt));
      SegmentHasNoDot(signed.value);
      SplitThree(Segment(ht), Segment(pt), SignatureSegment(signed.value));
    }
  }

  /** Each of the first two segments decodes back to the JSON text it encodes. */
  lemma SegmentRoundTrip(text: string)
    ensures DecodeUrl(Segment(text)).Some?
    ensures Utf8Decode(DecodeUrl(Segment(text)).value) == Some(text)
  {
    EncodeRoundTrip(Utf8(text));
    Utf8RoundTrip(text);
  }

  /** The claims expire one hour after they are issued, and `iat` is the
      clock in whole seconds. */
  lemma ExpiresInAnHour(iss: Option<Json>, nowMs: int)
    ensures var c := Claims(iss, IssuedAt(nowMs));
      && Get(c, "exp") == Some(JNum(IssuedAt(nowMs) + 3600))
      && Get(c, "iat") == Some(JNum(IssuedAt(nowMs)))
      && Get(c, "aud") == Some(JStr(Audience))
      && Get(c, "scope") == Some(JStr(Scope))
      && Get(c, "iss") == iss
  {
    var iat := IssuedAt(nowMs);
    var head := if iss.Some? then [("iss", iss.value)] else [];
    assert Claims(iss, iat).members == ClaimList(head, iat);
    LaterClaims(head, iat);
    IssuerClaim(iss, iat);
  }

  function ClaimList(head: seq<(string, Json)>, iat: int): seq<(string, Json)> {
    head + [("scope", JStr(Scope)), ("aud", JStr(Audience)), ("exp", JNum(iat + Lifetime)), ("iat", JNum(iat))]
  }

  /** The four fixed claims are found whatever comes before them. */
  lemma LaterClaims(head: seq<(string, Json)>, iat: int)
    ensures var ms := ClaimList(head, iat);
      && Lookup(ms, "iat") == Some(JNum(iat))
      && Lookup(ms, "exp") == Some(JNum(iat + Lifetime))
      && Lookup(ms, "aud") == Some(JStr(Audience))
      && Lookup(ms, "scope") == Some(JStr(Scope))
  {
    var ms1 := head + [("scope", JStr(Scope))];
    var ms2 := ms1 + [("aud", JStr(Audience))];
    var ms3 := ms2 + [("exp", JNum(iat + Lifetime))];
    assert ClaimList(head, iat) == ms3 + [("iat", JNum(iat))];
    LookupHit(ms3, ("iat", JNum(iat)));
    LookupSkip(ms3, ("iat", JNum(iat)), "exp");
    LookupHit(ms2, ("exp", JNum(iat + Lifetime)));
    LookupSkip(ms3, ("iat", JNum(iat)), "aud");
    LookupSkip(ms2, ("exp", JNum(iat + Lifetime)), "aud");
    LookupHit(ms1, ("aud", JStr(Audience)));
    LookupSkip(ms3, ("iat", JNum(iat)), "scope");
    LookupSkip(ms2, ("exp", JNum(iat + Lifetime)), "scope");
    LookupSkip(ms1, ("aud", JStr(Audience)), "scope");
    LookupHit(head, ("scope", JStr(Scope)));
  }

  /** `iss` is present exactly when the credentials had a `client_email`. */
  lemma IssuerClaim(iss: Option<Json>, iat: int)
    ensures Lookup(ClaimList(if iss.Some? then [("iss", iss.value)] else [], iat), "iss") == iss
  {
    var head := if iss.Some? then [("iss", iss.value)] else [];
    var ms1 := head + [("scope", JStr(Scope))];
    var ms2 := ms1 + [("aud", JStr(Audience))];
    var ms3 := ms2 + [("exp", JNum(iat + Lifetime))];
    assert ClaimList(head, iat) == ms3 + [("iat", JNum(iat))];
    LookupSkip(ms3, ("iat", JNum(iat)), "iss");
    LookupSkip(ms2, ("exp", JNum(iat + Lifetime)), "iss");
    LookupSkip(ms1, ("aud", JStr(Audience)), "iss");
    LookupSkip(head, ("scope", JStr(Scope)), "iss");
    if iss.Some? {
      LookupHit([], ("iss", iss.value));
      assert [] + [("iss", iss.value)] == head;
    }
  }
}

/** The speech route `POST /api/tts`: checks the text and the service-account
    credentials before any network call, exchanges a signed token for an
    access token, and asks the synthesis service for audio. Each network
    call, `JSON.parse` and the signer are inputs. */
module TtsRoute {
  import opened Wrappers
  import opened Json
  import Base64
  import Jwt

  /** How the token exchange went: it threw (or its body was unreadable), it
      answered with a non-2xx status, or it answered with a JSON body. */
  datatype TokenOutcome = TokenFailed | TokenNotOk | TokenBody(data: Json)

  /** Likewise for the synthesis call. */
  datatype SynthOutcome = SynthFailed | SynthNotOk | SynthBody(data: Json)

  /** What is sent to the synthesis service: the bearer token and the text. */
  datatype SynthRequest = SynthRequest(accessToken: Option<Json>, text: Json)

  /** The audio (`audioContent`, dropped from the JSON when undefined) or an
      error status with its message; the `details` of the final catch are
      not modelled. */
  datatype Response = Audio(content: Option<Json>) | Failure(status: int, error: string)

  /** The token assertion posted, the synthesis request made, and the response. */
  datatype Handled = Handled(assertion: Option<string>, synth: Option<SynthRequest>, response: Response)

  const NoTextMessage: string := "テキストが指定されていません"
  const NoCredentialsMessage: string := "Google Cloud認証情報が設定されていません"
  const BadCredentialsMessage: string := "認証情報の形式が不正です"
  const AuthFailedMessage: string := "認証に失敗しました"
  const SynthesisFailedMessage: string := "音声合成に失敗しました"

  const SynthesisFailed: Response := Failure(500, SynthesisFailedMessage)

  function Status(r: Response): int {
    if r.Audio? then 200 else r.status
  }

  /** Everything after the credentials are parsed: sign, exchange, synthesize. */
  function Exchange(text: Json, credentials: Json, nowMs: int, sign: (string, Option<Json>) -> Option<seq<Base64.Byte>>,
                    token: TokenOutcome, synth: SynthOutcome): (h: Handled)
    ensures h.synth.Some? ==> h.assertion.Some? && h.synth.value.text == text
    ensures h.assertion == Jwt.CreateJwt(credentials, nowMs, sign)
  {
    var assertion := Jwt.CreateJwt(credentials, nowMs, sign);
    if assertion.None? then Handled(None, None, SynthesisFailed)
    else match token
      case TokenFailed => Handled(assertion, None, SynthesisFailed)
      case TokenNotOk => Handled(assertion, None, Failure(500, AuthFailedMessage))
      case TokenBody(data) =>
        if data == JNull then Handled(assertion, None, SynthesisFailed)   // destructuring null throws
        else
          var request := SynthRequest(Get(data, "access_token"), text);
          match synth
          case SynthFailed => Handled(assertion, Some(request), SynthesisFailed)
          case SynthNotOk => Handled(assertion, Some(request), SynthesisFailed)
          case SynthBody(audio) =>
            if audio == JNull then Handled(assertion, Some(request), SynthesisFailed)
            else Handled(assertion, Some(request), Audio(Get(audio, "audioContent")))
  }

  /** `POST`. `body` is what `request.json()` gave (None: it threw);
      `credentials` the `GOOGLE_CLOUD_CREDENTIALS` variable; `parsed` what
      `JSON.parse` made of it (None: it threw); `nowMs` the clock. */
  function Post(body: Option<Json>, credentials: Option<string>, parsed: Option<Json>, nowMs: int,
                sign: (string, Option<Json>) -> Option<seq<Base64.Byte>>,
                token: TokenOutcome, synth: SynthOutcome): (h: Handled)
    ensures Status(h.response) in {200, 400, 500}
    ensures h.synth.Some? ==> h.assertion.Some?
  {
    if body.None? || body.value == JNull then Handled(None, None, SynthesisFailed)
    else
      var text := Get(body.value, "text");
      if !Truthy(text) then Handled(None, None, Failure(400, NoTextMessage))
      else if credentials.None? || credentials.value == [] then Handled(None, None, Failure(500, NoCredentialsMessage))
      // reading `project_id` of a parsed `null` throws inside the same try
      else if parsed.None? || parsed.value == JNull then Handled(None, None, Failure(500, BadCredentialsMessage))
      else Exchange(text.value, parsed.value, nowMs, sign, token, synth)
  }

  /** A missing or falsy `text` is a 400 before the credentials are read and
      before any network call. */
  lemma TextCheckedFirst(j: Json, credentials: Option<string>, parsed: Option<Json>, nowMs: int,
                         sign: (string, Option<Json>) -> Option<seq<Base64.Byte>>, token: TokenOutcome, synth: SynthOutcome)
    requires j != JNull && !Truthy(Get(j, "text"))
    ensures Post(Some(j), credentials, parsed, nowMs, sign, token, synth) == Handled(None, None, Failure(400, NoTextMessage))
  {
  }

  /** With a text, missing or unparsable credentials are a 500 and nothing is sent. */
  lemma CredentialsChecked(j: Json, credentials: Option<string>, parsed: Option<Json>, nowMs: int,
                           sign: (string, Option<Json>) -> Option<seq<Base64.Byte>>, token: TokenOutcome, synth: SynthOutcome)
    requires j != JNull && Truthy(Get(j, "text"))
    ensures var h := Post(Some(j), credentials, parsed, nowMs, sign, token, synth);
      && (credentials.None? || credentials.value == [] ==> h == Handled(None, None, Failure(500, NoCredentialsMessage)))
      && (credentials.Some? && credentials.value != [] && (parsed.None? || parsed.value == JNull) ==>
            h == Handled(None, None, Failure(500, BadCredentialsMessage)))
      && (h.assertion.Some? <==> credentials.Some? && credentials.value != [] && parsed.Some? && parsed.value != JNull
                                 && Jwt.CreateJwt(parsed.value, nowMs, sign).Some?)
  {
  }

  /** When the token exchange is attempted, the assertion is the signed JWT for
      the parsed credentials, and a synthesis request carries the text as given. */
  lemma RequestsCarryInputs(j: Json, credentials: Option<string>, parsed: Option<Json>, nowMs: int,
                            sign: (string, Option<Json>) -> Option<seq<Base64.Byte>>, token: TokenOutcome, synth: SynthOutcome)
    ensures var h := Post(Some(j), credentials, parsed, nowMs, sign, token, synth);
      h.assertion.Some? ==>
        && parsed.Some? && h.assertion == Jwt.CreateJwt(parsed.value, nowMs, sign)
        && (h.synth.Some? ==> Get(j, "text").Some? && h.synth.value.text == Get(j, "text").value)
  {
    var h := Post(Some(j), credentials, parsed, nowMs, sign, token, synth);
    if j == JNull {
    } else if !Truthy(Get(j, "text")) {
      TextCheckedFirst(j, credentials, parsed, nowMs, sign, token, synth);
    } else if credentials.None? || credentials.value == [] || parsed.None? || parsed.value == JNull {
      CredentialsChecked(j, credentials, parsed, nowMs, sign, token, synth);
    } else {
      assert h == Exchange(Get(j, "text").value, parsed.value, nowMs, sign, token, synth);
    }
  }

  /** Audio is returned only when both calls succeeded. */
  lemma AudioNeedsBothCalls(body: Option<Json>, credentials: Option<string>, parsed: Option<Json>, nowMs: int,
                            sign: (string, Option<Json>) -> Option<seq<Base64.Byte>>, token: TokenOutcome, synth: SynthOutcome)
    ensures Post(body, credentials, parsed, nowMs, sign, token, synth).response.Audio? ==>
      && token.TokenBody? && token.data != JNull && synth.SynthBody? && synth.data != JNull
      && Post(body, credentials, parsed, nowMs, sign, token, synth).response == Audio(Get(synth.data, "audioContent"))
  {
  }
}
