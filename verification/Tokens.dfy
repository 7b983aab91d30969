/**
 Token claims and their checks: app/core/security.py, with the signature kept abstract.

 Wall-clock times are seconds since the epoch, as reals; `int(...)` of such a time is its floor.
 */
module Tokens {

  import opened Wrappers

  datatype TokenType = Access | Refresh | Verify | Reset

  /** The `exp` claim: absent, an integer, or another number whose integer part is `seconds`. */
  datatype Expiry = NoExpiry | IntExpiry(seconds: int) | OtherExpiry(seconds: int)

  datatype Payload = Payload(
    subject: Option<string>, kind: Option<TokenType>, jti: Option<string>, iat: Option<int>, exp: Expiry)

  /** `authentic` says that the signature and the form of every claim check out. */
  datatype Token = Token(authentic: bool, payload: Payload)

  datatype TokenError = Expired | Invalid | WrongType | NoSubject | Revoked | NoAccount

  datatype Result<+T> = Ok(value: T) | Err(error: TokenError)

  /** Section 4.1.4 of RFC 7519: not accepted on or after the expiration time. */
  predicate ExpiredAt(p: Payload, now: real) {
    p.exp != NoExpiry && p.exp.seconds as real <= now
  }

  /** Issued in the future: the JWT library refuses it for the time being. */
  predicate ImmatureAt(p: Payload, now: real) {
    p.iat.Some? && p.iat.value as real > now
  }

  function Decode(t: Token, expected: TokenType, now: real): Result<Payload> {
    if !t.authentic || ImmatureAt(t.payload, now) then Err(Invalid)
    else if ExpiredAt(t.payload, now) then Err(Expired)
    else if t.payload.kind != Some(expected) then Err(WrongType)
    else if t.payload.subject.None? then Err(NoSubject)
    else Ok(t.payload)
  }

  /** `_create_token`; `jti` is the fresh identifier. */
  function CreateToken(subject: string, kind: TokenType, ttl: int, jti: string, now: real): Token {
    Token(true, Payload(Some(subject), Some(kind), Some(jti), Some(now.Floor), IntExpiry((now + ttl as real).Floor)))
  }

  /** A refused token stays refused, except one that was refused for being issued in the future: once a
      token has come of age, time only takes it away. */
  lemma RefusalIsFinal(t: Token, expected: TokenType, now: real, later: real)
    requires now <= later && Decode(t, expected, now).Err?
    ensures Decode(t, expected, later).Ok? ==> ImmatureAt(t.payload, now)
    ensures ImmatureAt(t.payload, later) ==> ImmatureAt(t.payload, now)
  {
  }

  /** A minted token decodes as its own type only, from the second of its minting until a moment that is
      at most one second earlier than its nominal lifetime says, never before or later. */
  lemma MintedTokenLifetime(subject: string, kind: TokenType, ttl: int, jti: string, minted: real,
                            expected: TokenType, now: real)
    ensures
      var t := CreateToken(subject, kind, ttl, jti, minted);
      && t.payload.jti == Some(jti) && t.payload.subject == Some(subject)
      && (Decode(t, expected, now).Ok? ==> expected == kind && minted - 1.0 < now < minted + ttl as real)
      && (expected == kind && minted.Floor as real <= now <= minted + ttl as real - 1.0 ==>
            Decode(t, expected, now) == Ok(t.payload))
  {
  }
}
