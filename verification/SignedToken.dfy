/**
 Signed file-system tokens (merger/repoground/adapters/filesystem.py): base64url without padding
 (section 5 of RFC 4648), one dot, and a payload that expires.

 HMAC and JSON are parameters.
 */
module SignedToken {
  import opened Wrappers
  import opened PythonText

  // ----- base64url -----

  type Sextet = d: int | 0 <= d < 64

  function Digit(d: Sextet): char {
    if d < 26 then ('A' as int + d) as char
    else if d < 52 then ('a' as int + d - 26) as char
    else if d < 62 then ('0' as int + d - 52) as char
    else if d == 62 then '-' else '_'
  }

  /** The decoder translates `-` and `_`, and takes `+` and `/` as they are. */
  function DigitValue(c: char): Option<Sextet> {
    if 'A' <= c <= 'Z' then Some(c as int - 'A' as int)
    else if 'a' <= c <= 'z' then Some(c as int - 'a' as int + 26)
    else if '0' <= c <= '9' then Some(c as int - '0' as int + 52)
    else if c == '-' || c == '+' then Some(62)
    else if c == '_' || c == '/' then Some(63)
    else None
  }

  // The six-bit pieces of three bytes in a row.

  function First(a: Byte): Sextet { a / 4 }

  function Second(a: Byte, b: Byte): Sextet { a % 4 * 16 + b / 16 }

  function Third(b: Byte, c: Byte): Sextet { b % 16 * 4 + c / 64 }

  function Fourth(c: Byte): Sextet { c % 64 }

  /** Three bytes to four digits, and padding at the end. */
  function Encode64(data: Bytes): string {
    if data == [] then ""
    else if |data| == 1 then [Digit(First(data[0])), Digit(Second(data[0], 0))] + Padding(2)
    else if |data| == 2 then
      [Digit(First(data[0])), Digit(Second(data[0], data[1])), Digit(Third(data[1], 0))] + Padding(1)
    else Group(data[0], data[1], data[2]) + Encode64(data[3..])
  }

  function Group(a: Byte, b: Byte, c: Byte): string {
    [Digit(First(a)), Digit(Second(a, b)), Digit(Third(b, c)), Digit(Fourth(c))]
  }

  function Padding(n: nat): string { if n == 0 then "" else "=" + Padding(n - 1) }

  function StripPadding(s: string): string {
    if s != "" && s[|s| - 1] == '=' then StripPadding(s[..|s| - 1]) else s
  }

  function Base64Url(data: Bytes): string { StripPadding(Encode64(data)) }

  function Before(b: Byte, rest: Option<Bytes>): Option<Bytes> {
    if rest.None? then None else Some([b] + rest.value)
  }

  /**
   The lenient decoder: `quad` digits of a group of four have been read, of which the bits in
   `left` are still to be used; characters outside the alphabet are skipped.
   */
  function Feed(s: string, quad: nat, left: Sextet, pads: nat): Option<Bytes>
    requires quad < 4 && (quad == 2 ==> left < 16) && (quad == 3 ==> left < 4)
  {
    if s == "" then if quad == 0 then Some([]) else None
    else if s[0] == '=' then
      if quad >= 2 && quad + pads + 1 >= 4 then Some([])
      else Feed(s[1..], quad, left, if quad >= 2 then pads + 1 else pads)
    else
      match DigitValue(s[0])
      case None => Feed(s[1..], quad, left, pads)
      case Some(d) =>
        if quad == 0 then Feed(s[1..], 1, d, 0)
        else if quad == 1 then Before(left * 4 + d / 16, Feed(s[1..], 2, d % 16, 0))
        else if quad == 2 then Before(left * 16 + d / 4, Feed(s[1..], 3, d % 4, 0))
        else Before(left * 64 + d, Feed(s[1..], 0, 0, 0))
  }

  /** Pads to a multiple of four, then decodes. */
  function Base64UrlDecode(s: string): Option<Bytes> {
    Feed(s + Padding((4 - |s| % 4) % 4), 0, 0, 0)
  }

  lemma DigitHasValue(d: Sextet)
    ensures DigitValue(Digit(d)) == Some(d) && Digit(d) != '=' && Digit(d) != '.'
  {}

  /** The pieces put together again. */
  lemma PiecesMakeBytes(a: Byte, b: Byte, c: Byte)
    ensures First(a) * 4 + Second(a, b) / 16 == a
    ensures Second(a, b) % 16 * 16 + Third(b, c) / 4 == b
    ensures Third(b, c) % 4 * 64 + Fourth(c) == c
  {
    assert Second(a, b) / 16 == a % 4 && Second(a, b) % 16 == b / 16;
    assert Third(b, c) / 4 == b % 16 && Third(b, c) % 4 == c / 64;
  }

  /** One digit, in each of the four positions. */
  lemma FeedDigit(d: Sextet, rest: string, quad: nat, left: Sextet, pads: nat)
    requires quad < 4 && (quad == 2 ==> left < 16) && (quad == 3 ==> left < 4)
    ensures Feed([Digit(d)] + rest, quad, left, pads) ==
            if quad == 0 then Feed(rest, 1, d, 0)
            else if quad == 1 then Before(left * 4 + d / 16, Feed(rest, 2, d % 16, 0))
            else if quad == 2 then Before(left * 16 + d / 4, Feed(rest, 3, d % 4, 0))
            else Before(left * 64 + d, Feed(rest, 0, 0, 0))
  {
    DigitHasValue(d);
    var s := [Digit(d)] + rest;
    assert s[0] == Digit(d) && s[1..] == rest;
  }

  /** The first two digits give a byte, and leave four bits over. */
  lemma FeedTwo(d0: Sextet, d1: Sextet, rest: string)
    ensures Feed([Digit(d0)] + ([Digit(d1)] + rest), 0, 0, 0) == Before(d0 * 4 + d1 / 16, Feed(rest, 2, d1 % 16, 0))
  {
    FeedDigit(d0, [Digit(d1)] + rest, 0, 0, 0);
    FeedDigit(d1, rest, 1, d0, 0);
  }

  lemma FeedFour(d0: Sextet, d1: Sextet, d2: Sextet, d3: Sextet, rest: string)
    ensures Feed([Digit(d0), Digit(d1), Digit(d2), Digit(d3)] + rest, 0, 0, 0)
         == Before(d0 * 4 + d1 / 16, Before(d1 % 16 * 16 + d2 / 4, Before(d2 % 4 * 64 + d3, Feed(rest, 0, 0, 0))))
  {
    var s3 := [Digit(d3)] + rest;
    var s2 := [Digit(d2)] + s3;
    FeedTwo(d0, d1, s2);
    FeedDigit(d2, s3, 2, d1 % 16, 0);
    FeedDigit(d3, rest, 3, d2 % 4, 0);
    assert [Digit(d0), Digit(d1), Digit(d2), Digit(d3)] + rest == [Digit(d0)] + ([Digit(d1)] + s2);
  }

  /** Four digits are read as the three bytes they were made of. */
  lemma FeedGroup(a: Byte, b: Byte, c: Byte, rest: string)
    ensures Feed(Group(a, b, c) + rest, 0, 0, 0) == Before(a, Before(b, Before(c, Feed(rest, 0, 0, 0))))
  {
    FeedFour(First(a), Second(a, b), Third(b, c), Fourth(c), rest);
    PiecesMakeBytes(a, b, c);
  }

  lemma FeedPair(a: Byte, b: Byte)
    ensures Feed([Digit(First(a)), Digit(Second(a, b)), Digit(Third(b, 0))] + Padding(1), 0, 0, 0) == Some([a, b])
  {
    var d2 := Third(b, 0);
    var s2 := [Digit(d2)] + Padding(1);
    PiecesMakeBytes(a, b, 0);
    FeedTwo(First(a), Second(a, b), s2);
    FeedDigit(d2, Padding(1), 2, Second(a, b) % 16, 0);
    assert Padding(1) == "=" + Padding(0);
    assert Feed(Padding(1), 3, d2 % 4, 0) == Some([]);
    assert [Digit(First(a)), Digit(Second(a, b)), Digit(d2)] + Padding(1)
        == [Digit(First(a))] + ([Digit(Second(a, b))] + s2);
    assert [a] + ([b] + []) == [a, b];
  }

  lemma FeedOne(a: Byte)
    ensures Feed([Digit(First(a)), Digit(Second(a, 0))] + Padding(2), 0, 0, 0) == Some([a])
  {
    PiecesMakeBytes(a, 0, 0);
    FeedTwo(First(a), Second(a, 0), Padding(2));
    assert Padding(2)[1..] == Padding(1) && Padding(1)[0] == '=';
    assert Feed(Padding(1), 2, Second(a, 0) % 16, 1) == Some([]);
    assert Feed(Padding(2), 2, Second(a, 0) % 16, 0) == Some([]);
    assert [Digit(First(a)), Digit(Second(a, 0))] + Padding(2)
        == [Digit(First(a))] + ([Digit(Second(a, 0))] + Padding(2));
    assert [a] + [] == [a];
  }

  /** Decoding inverts encoding with padding. */
  lemma {:induction false} DecodeInvertsEncode64(data: Bytes)
    ensures Feed(Encode64(data), 0, 0, 0) == Some(data)
  {
    if |data| == 1 {
      FeedOne(data[0]);
      assert data == [data[0]];
    } else if |data| == 2 {
      FeedPair(data[0], data[1]);
      assert data == [data[0], data[1]];
    } else if |data| > 2 {
      DecodeInvertsEncode64(data[3..]);
      FeedGroup(data[0], data[1], data[2], Encode64(data[3..]));
      assert data == [data[0]] + ([data[1]] + ([data[2]] + data[3..]));
    }
  }

  /** Neither `=` nor a dot. */
  predicate AreDigits(s: string) { forall c <- s :: c != '=' && c != '.' }

  lemma DigitsThenDigit(s: string, d: Sextet)
    requires AreDigits(s)
    ensures AreDigits(s + [Digit(d)])
  {
    DigitHasValue(d);
  }

  lemma FewDigits(d0: Sextet, d1: Sextet, d2: Sextet, d3: Sextet)
    ensures AreDigits([Digit(d0), Digit(d1)]) && AreDigits([Digit(d0), Digit(d1), Digit(d2)])
    ensures AreDigits([Digit(d0), Digit(d1), Digit(d2), Digit(d3)])
  {
    DigitsThenDigit([], d0);
    DigitsThenDigit([Digit(d0)], d1);
    DigitsThenDigit([Digit(d0), Digit(d1)], d2);
    DigitsThenDigit([Digit(d0), Digit(d1), Digit(d2)], d3);
    assert [] + [Digit(d0)] == [Digit(d0)];
    assert [Digit(d0)] + [Digit(d1)] == [Digit(d0), Digit(d1)];
    assert [Digit(d0), Digit(d1)] + [Digit(d2)] == [Digit(d0), Digit(d1), Digit(d2)];
    assert [Digit(d0), Digit(d1), Digit(d2)] + [Digit(d3)] == [Digit(d0), Digit(d1), Digit(d2), Digit(d3)];
  }

  /** An encoding is digits and then the padding to a multiple of four. */
  lemma {:induction false} EncodingIsPadded(data: Bytes) returns (digits: string, n: nat)
    ensures Encode64(data) == digits + Padding(n) && n == (4 - |digits| % 4) % 4
    ensures AreDigits(digits)
  {
    if |data| == 0 {
      digits, n := "", 0;
    } else if |data| == 1 {
      digits, n := [Digit(First(data[0])), Digit(Second(data[0], 0))], 2;
      FewDigits(First(data[0]), Second(data[0], 0), 0, 0);
    } else if |data| == 2 {
      digits, n := [Digit(First(data[0])), Digit(Second(data[0], data[1])), Digit(Third(data[1], 0))], 1;
      FewDigits(First(data[0]), Second(data[0], data[1]), Third(data[1], 0), 0);
    } else {
      var front, rest := Group(data[0], data[1], data[2]), "";
      FewDigits(First(data[0]), Second(data[0], data[1]), Third(data[1], data[2]), Fourth(data[2]));
      rest, n := EncodingIsPadded(data[3..]);
      digits := front + rest;
      assert |digits| == 4 + |rest| && (4 + |rest|) % 4 == |rest| % 4;
      assert front + (rest + Padding(n)) == digits + Padding(n);
    }
  }

  lemma {:induction false} StrippingPadding(digits: string, n: nat)
    requires forall c <- digits :: c != '='
    ensures StripPadding(digits + Padding(n)) == digits
    decreases n
  {
    if n == 0 {
      assert digits + "" == digits;
      if digits != "" { assert digits[|digits| - 1] in digits; }
    } else {
      PaddingEnds(n);
      StrippingPadding(digits, n - 1);
      assert (digits + Padding(n))[..|digits + Padding(n)| - 1] == digits + Padding(n - 1);
    }
  }

  lemma {:induction false} PaddingEnds(n: nat)
    requires n > 0
    ensures |Padding(n)| == n && Padding(n) == Padding(n - 1) + "="
  {
    if n > 1 { PaddingEnds(n - 1); }
  }

  /** For every byte string, decoding inverts encoding, and the encoding holds no dot. */
  lemma Base64UrlRoundTrip(data: Bytes)
    ensures Base64UrlDecode(Base64Url(data)) == Some(data)
    ensures '.' !in Base64Url(data)
  {
    var digits, n := EncodingIsPadded(data);
    StrippingPadding(digits, n);
    DecodeInvertsEncode64(data);
  }

  // ----- tokens -----

  datatype Payload = Malformed | Payload(path: Option<string>, expires: int)

  datatype TokenError = BadRequest | Forbidden | Unconfigured | DecodeFailure | OutsideRoots

  /** What the tokens are made with; `validate` gives the resolved path, if it is allowed. */
  datatype Service = Service(
    secret: Option<Bytes>,
    hmac: (Bytes, Bytes) -> Bytes,
    dump: (string, int) -> Bytes,
    load: Bytes -> Payload,
    validate: string -> Option<string>)

  /** The JSON that is written is read back. */
  ghost predicate ReadsItsPayloads(s: Service) {
    forall path, expires :: s.load(s.dump(path, expires)) == Payload(Some(path), expires)
  }

  const MAX_PATH := 4096

  function FirstDot(s: string): (k: nat)
    ensures k <= |s|
  {
    if s == "" || s[0] == '.' then 0 else 1 + FirstDot(s[1..])
  }

  function IssueToken(s: Service, path: string, ttl: int, now: int): Result<string, TokenError> {
    if s.secret.None? || s.secret.value == [] then Err(Unconfigured)
    else
      var body := s.dump(path, now + ttl);
      Ok(Base64Url(body) + "." + Base64Url(s.hmac(s.secret.value, body)))
  }

  function ParseToken(s: Service, token: string, now: int): Result<(string, int), TokenError> {
    var k := FirstDot(token);
    if k == |token| then Err(BadRequest)
    else
      var body, sig := Base64UrlDecode(token[..k]), Base64UrlDecode(token[k + 1..]);
      if body.None? || sig.None? then Err(DecodeFailure)
      else if s.secret.None? || s.secret.value == [] then Err(Unconfigured)
      else if sig.value != s.hmac(s.secret.value, body.value) then Err(Forbidden)
      else
        match s.load(body.value)
        case Malformed => Err(BadRequest)
        case Payload(None, _) => Err(BadRequest)
        case Payload(Some(path), expires) =>
          if IsBlankText(path) || |path| > MAX_PATH || '\0' in path then Err(BadRequest)
          else if now > expires then Err(Forbidden)
          else if s.validate(path).None? then Err(OutsideRoots)
          else Ok((s.validate(path).value, expires))
  }

  lemma {:induction false} FirstDotIsAt(front: string, back: string)
    requires '.' !in front
    ensures FirstDot(front + "." + back) == |front|
  {
    if front != "" {
      FirstDotIsAt(front[1..], back);
      assert (front + "." + back)[1..] == front[1..] + "." + back;
    }
  }

  /**
   An issued token is accepted exactly when its path is one that may be named, the roots allow it
   and it has not expired, and then it gives back that path and the expiry it was issued with.
   */
  lemma IssuedTokenIsAcceptedIff(s: Service, path: string, ttl: int, issuedAt: int, now: int)
    requires ReadsItsPayloads(s) && IssueToken(s, path, ttl, issuedAt).Ok?
    ensures var r := ParseToken(s, IssueToken(s, path, ttl, issuedAt).value, now);
            && (r.Ok? <==> && !IsBlankText(path) && |path| <= MAX_PATH && '\0' !in path
                           && now <= issuedAt + ttl && s.validate(path).Some?)
            && (r.Ok? ==> r.value == (s.validate(path).value, issuedAt + ttl))
  {
    var body := s.dump(path, issuedAt + ttl);
    var sig := s.hmac(s.secret.value, body);
    var token := Base64Url(body) + "." + Base64Url(sig);
    Base64UrlRoundTrip(body);
    Base64UrlRoundTrip(sig);
    FirstDotIsAt(Base64Url(body), Base64Url(sig));
    assert token[..|Base64Url(body)|] == Base64Url(body) && token[|Base64Url(body)| + 1..] == Base64Url(sig);
  }

  /** Different payloads give different tokens, so one token never stands for two paths or expiries. */
  lemma TokensDetermineTheirPayload(s: Service, path: string, ttl: int, now: int, path': string, ttl': int, now': int)
    requires ReadsItsPayloads(s)
    requires IssueToken(s, path, ttl, now).Ok? && IssueToken(s, path, ttl, now) == IssueToken(s, path', ttl', now')
    ensures path == path' && now + ttl == now' + ttl'
  {
    var body, body' := s.dump(path, now + ttl), s.dump(path', now' + ttl');
    var token := IssueToken(s, path, ttl, now).value;
    Base64UrlRoundTrip(body);
    Base64UrlRoundTrip(body');
    FirstDotIsAt(Base64Url(body), Base64Url(s.hmac(s.secret.value, body)));
    FirstDotIsAt(Base64Url(body'), Base64Url(s.hmac(s.secret.value, body')));
    assert token[..FirstDot(token)] == Base64Url(body) && token[..FirstDot(token)] == Base64Url(body');
  }

  // ----- which tokens are accepted, and why others are not -----

  lemma {:induction false} NoDotIff(token: string)
    ensures FirstDot(token) == |token| <==> '.' !in token
    ensures '.' !in token[..FirstDot(token)] && (FirstDot(token) < |token| ==> token[FirstDot(token)] == '.')
  {
    if token != "" && token[0] != '.' {
      NoDotIff(token[1..]);
      assert token == [token[0]] + token[1..];
      assert token[..FirstDot(token)] == [token[0]] + token[1..][..FirstDot(token[1..])];
    }
  }

  /** A path that a payload may name: a text that is not blank, not too long and without NUL. */
  predicate IsNameable(path: string) {
    (exists c <- path :: !IsSpaceChar(c)) && |path| <= 4096 && '\0' !in path
  }

  /** The token is split at its first dot, and both parts decode. */
  predicate IsMadeOf(token: string, front: string, back: string, body: Bytes, sig: Bytes) {
    && token == front + "." + back && '.' !in front
    && Base64UrlDecode(front) == Some(body) && Base64UrlDecode(back) == Some(sig)
  }

  /** The body is signed with the secret, and its payload names an allowed path that has not expired. */
  predicate IsGood(s: Service, body: Bytes, sig: Bytes, now: int, path: string, expires: int) {
    && s.secret.Some? && s.secret.value != [] && sig == s.hmac(s.secret.value, body)
    && s.load(body) == Payload(Some(path), expires) && IsNameable(path) && now <= expires
    && s.validate(path).Some?
  }

  lemma SplitAtFirstDot(token: string, front: string, back: string)
    requires token == front + "." + back && '.' !in front
    ensures FirstDot(token) == |front| < |token| && token[..|front|] == front && token[|front| + 1..] == back
  {
    FirstDotIsAt(front, back);
  }

  lemma BlankIff(s: string)
    ensures IsBlankText(s) <==> !exists c <- s :: !IsSpaceChar(c)
  {}

  lemma GoodIsAccepted(s: Service, token: string, now: int, front: string, back: string, body: Bytes, sig: Bytes,
                       path: string, expires: int)
    requires IsMadeOf(token, front, back, body, sig) && IsGood(s, body, sig, now, path, expires)
    ensures ParseToken(s, token, now) == Ok((s.validate(path).value, expires))
  {
    SplitAtFirstDot(token, front, back);
    BlankIff(path);
  }

  lemma AcceptedIsGood(s: Service, token: string, now: int)
      returns (front: string, back: string, body: Bytes, sig: Bytes, path: string, expires: int)
    requires ParseToken(s, token, now).Ok?
    ensures IsMadeOf(token, front, back, body, sig) && IsGood(s, body, sig, now, path, expires)
  {
    var k := FirstDot(token);
    NoDotIff(token);
    front, back := token[..k], token[k + 1..];
    body, sig := Base64UrlDecode(front).value, Base64UrlDecode(back).value;
    path, expires := s.load(body).path.value, s.load(body).expires;
    BlankIff(path);
    assert token == front + "." + back;
  }

  /**
   A token is accepted exactly when it is two parts around a dot, of which the second is the HMAC of
   the first, and the signed payload is good; and then it gives that payload's path and expiry.
   */
  lemma TokenIsAcceptedIff(s: Service, token: string, now: int, resolved: string, expires: int)
    ensures ParseToken(s, token, now) == Ok((resolved, expires)) <==>
            exists front, back, body, sig, path ::
              && IsMadeOf(token, front, back, body, sig) && IsGood(s, body, sig, now, path, expires)
              && s.validate(path) == Some(resolved)
  {
    if ParseToken(s, token, now) == Ok((resolved, expires)) {
      var front, back, body, sig, path, exp := AcceptedIsGood(s, token, now);
      GoodIsAccepted(s, token, now, front, back, body, sig, path, exp);
    }
    forall front, back, body, sig, path |
        && IsMadeOf(token, front, back, body, sig) && IsGood(s, body, sig, now, path, expires)
        && s.validate(path) == Some(resolved)
      ensures ParseToken(s, token, now) == Ok((resolved, expires))
    {
      GoodIsAccepted(s, token, now, front, back, body, sig, path, expires);
    }
  }

  /** No one without the secret's HMAC gets past the signature, whatever the payload says. */
  lemma WrongSignatureIsForbidden(s: Service, token: string, now: int, front: string, back: string, body: Bytes,
                                  sig: Bytes)
    requires IsMadeOf(token, front, back, body, sig) && s.secret.Some? && s.secret.value != []
    ensures sig != s.hmac(s.secret.value, body) ==> ParseToken(s, token, now) == Err(Forbidden)
    ensures sig == s.hmac(s.secret.value, body) ==>
              var r := ParseToken(s, token, now);
              match s.load(body)
              case Malformed => r == Err(BadRequest)
              case Payload(None, _) => r == Err(BadRequest)
              case Payload(Some(path), expires) =>
                && (!IsNameable(path) ==> r == Err(BadRequest))
                && (IsNameable(path) && now > expires ==> r == Err(Forbidden))
                && (IsNameable(path) && now <= expires && s.validate(path).None? ==> r == Err(OutsideRoots))
  {
    SplitAtFirstDot(token, front, back);
    if s.load(body).Payload? && s.load(body).path.Some? { BlankIff(s.load(body).path.value); }
  }

  /** Without a dot, undecodable, or without a secret to check against. */
  lemma UnreadableTokens(s: Service, token: string, now: int, front: string, back: string)
    ensures '.' !in token ==> ParseToken(s, token, now) == Err(BadRequest)
    ensures token == front + "." + back && '.' !in front
              && (Base64UrlDecode(front).None? || Base64UrlDecode(back).None?)
            ==> ParseToken(s, token, now) == Err(DecodeFailure)
    ensures token == front + "." + back && '.' !in front
              && Base64UrlDecode(front).Some? && Base64UrlDecode(back).Some?
              && (s.secret.None? || s.secret.value == [])
            ==> ParseToken(s, token, now) == Err(Unconfigured)
    ensures IssueToken(s, token, 0, now).Err? <==> s.secret.None? || s.secret.value == []
  {
    NoDotIff(token);
    if token == front + "." + back && '.' !in front { SplitAtFirstDot(token, front, back); }
  }

  // ----- the alphabet and the vectors of RFC 4648 -----

  /** The digits at the ends of the ranges in table 2 of RFC 4648. */
  lemma DigitsAre()
    ensures Digit(0) == 'A' && Digit(25) == 'Z' && Digit(26) == 'a' && Digit(51) == 'z'
    ensures Digit(52) == '0' && Digit(61) == '9' && Digit(62) == '-' && Digit(63) == '_'
    ensures DigitValue('+') == Some(62) && DigitValue('/') == Some(63) && DigitValue('=') == None
  {}

  lemma OneByte(a: Byte)
    ensures Base64Url([a]) == [Digit(First(a)), Digit(Second(a, 0))]
  {
    FewDigits(First(a), Second(a, 0), 0, 0);
    StrippingPadding([Digit(First(a)), Digit(Second(a, 0))], 2);
  }

  lemma TwoBytes(a: Byte, b: Byte)
    ensures Base64Url([a, b]) == [Digit(First(a)), Digit(Second(a, b)), Digit(Third(b, 0))]
  {
    FewDigits(First(a), Second(a, b), Third(b, 0), 0);
    StrippingPadding([Digit(First(a)), Digit(Second(a, b)), Digit(Third(b, 0))], 1);
  }

  lemma ThreeBytes(a: Byte, b: Byte, c: Byte)
    ensures Base64Url([a, b, c]) == Group(a, b, c)
  {
    FewDigits(First(a), Second(a, b), Third(b, c), Fourth(c));
    StrippingPadding(Group(a, b, c), 0);
    assert Encode64([a, b, c][3..]) == "" && Group(a, b, c) + "" == Group(a, b, c);
  }

  /** Vectors of section 10 of RFC 4648, without padding, and one for the two digits of section 5. */
  lemma Vectors()
    ensures Base64Url([]) == "" && Base64Url([102]) == "Zg" && Base64Url([102, 111]) == "Zm8"
    ensures Base64Url([102, 111, 111]) == "Zm9v" && Base64Url([251, 255]) == "-_8"
  {
    OneByte(102);
    TwoBytes(102, 111);
    ThreeBytes(102, 111, 111);
    TwoBytes(251, 255);
  }
}
