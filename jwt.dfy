/**
 * The token service (jsonwebtoken in the service). A token is a string of
 * three dot-separated segments, as in the JWS compact serialisation
 * (section 7.1 of RFC 7515): the subject, the expiry time (the "exp" claim,
 * section 4.1.4 of RFC 7519) and the signature. The claims are written as
 * decimal numerals instead of base64url-encoded JSON, and Mac stands in for
 * HMAC-SHA256 under the process secret.
 */
module Jwt {
  import opened Wrappers
  import opened Decimal

  /** Seconds since the epoch, the unit of the "exp" claim. */
  type Time = nat

  /** expiresIn: 86400, that is 24 hours. */
  const Ttl: nat := 86400

  /** Stand-in for the keyed signature over the claims. */
  function Mac(key: nat, sub: nat, exp: nat): nat {
    (key * 1_000_003 + sub * 1_009 + exp) % 4_294_967_291
  }

  /** The compact form of a token with the given claims and signature. */
  function Compact(sub: nat, exp: nat, sig: nat): string {
    Digits(sub) + "." + Digits(exp) + "." + Digits(sig)
  }

  /** jwt.sign({ id: sub }, key, { expiresIn: 86400 }) at time iat. */
  function Sign(key: nat, sub: nat, iat: Time): (token: string)
    ensures token != ""
  {
    var exp := iat + Ttl;
    Compact(sub, exp, Mac(key, sub, exp))
  }

  /** The position of the first occurrence of c in s, if any. */
  function IndexOf(s: string, c: char): (r: Option<nat>)
    ensures r.Some? ==> r.value < |s| && s[r.value] == c && c !in s[..r.value]
    ensures r.None? ==> c !in s
  {
    if s == [] then None
    else if s[0] == c then Some(0)
    else match IndexOf(s[1..], c)
      case None => None
      case Some(i) => Some(i + 1)
  }

  /** The three dot-separated segments of a token, if it has at least two dots. */
  function Segments(token: string): (r: Option<(string, string, string)>)
    ensures r.Some? ==> token == r.value.0 + "." + r.value.1 + "." + r.value.2
    ensures r.Some? ==> '.' !in r.value.0 && '.' !in r.value.1
  {
    match IndexOf(token, '.')
    case None => None
    case Some(i) =>
      var rest := token[i + 1..];
      assert token == token[..i] + "." + rest;
      match IndexOf(rest, '.')
      case None => None
      case Some(j) =>
        assert rest == rest[..j] + "." + rest[j + 1..];
        Some((token[..i], rest[..j], rest[j + 1..]))
  }

  /**
   * jwt.verify(token, key): the subject of a well-formed token whose signature
   * matches the key and which has not expired at time now; None for every
   * other string (the error callback of the service). Only tokens signed with
   * the key and not yet expired are accepted.
   */
  function Verify(key: nat, now: Time, token: string): (r: Option<nat>)
    ensures r.Some? ==> exists exp :: now < exp && token == Compact(r.value, exp, Mac(key, r.value, exp))
  {
    match Segments(token)
    case None => None
    case Some((subText, expText, sigText)) =>
      if !IsNumeral(subText) || !IsNumeral(expText) || !IsNumeral(sigText) then None
      else if Parse(sigText) != Mac(key, Parse(subText), Parse(expText)) then None
      else if now >= Parse(expText) then None
      else
        DigitsParse(subText);
        DigitsParse(expText);
        DigitsParse(sigText);
        assert token == Compact(Parse(subText), Parse(expText), Parse(sigText));
        Some(Parse(subText))
  }

  lemma {:induction false} IndexOfAfter(a: string, c: char, b: string)
    requires c !in a
    ensures IndexOf(a + [c] + b, c) == Some(|a|)
  {
    if a != [] {
      assert (a + [c] + b)[1..] == a[1..] + [c] + b;
      IndexOfAfter(a[1..], c, b);
    }
  }

  /** Joining three segments, the first two free of dots, and splitting again gives them back. */
  lemma SegmentsJoin(a: string, b: string, c: string)
    requires '.' !in a && '.' !in b
    ensures Segments(a + "." + b + "." + c) == Some((a, b, c))
  {
    var token := a + "." + b + "." + c;
    var rest := b + "." + c;
    assert token == a + ['.'] + rest;
    IndexOfAfter(a, '.', rest);
    assert token[..|a|] == a && token[|a| + 1..] == rest;
    assert rest == b + ['.'] + c;
    IndexOfAfter(b, '.', c);
    assert rest[..|b|] == b && rest[|b| + 1..] == c;
  }

  lemma DigitsHaveNoDot(n: nat)
    ensures '.' !in Digits(n)
  {
  }

  /** A compact token is accepted exactly when its signature is right and it has not expired. */
  lemma VerifyCompact(key: nat, now: Time, sub: nat, exp: nat, sig: nat)
    ensures Verify(key, now, Compact(sub, exp, sig))
            == if sig == Mac(key, sub, exp) && now < exp then Some(sub) else None
  {
    DigitsHaveNoDot(sub);
    DigitsHaveNoDot(exp);
    SegmentsJoin(Digits(sub), Digits(exp), Digits(sig));
    ParseDigits(sub);
    ParseDigits(exp);
    ParseDigits(sig);
  }

  /** Round trip: a signed token yields its subject until it expires, and nothing after. */
  lemma VerifySign(key: nat, now: Time, sub: nat, iat: Time)
    ensures Verify(key, now, Sign(key, sub, iat)) == if now < iat + Ttl then Some(sub) else None
  {
    VerifyCompact(key, now, sub, iat + Ttl, Mac(key, sub, iat + Ttl));
  }

  /** A string without the segment separator, such as "invalidtoken", never verifies. */
  lemma VerifyNeedsSegments(key: nat, now: Time, token: string)
    requires '.' !in token
    ensures Verify(key, now, token) == None
  {
  }
}
