/** The part of the JOSE library the service relies on: claim sets, their
    signed encoding, and the claim checks `jwt.decode` makes by default.
    Signing and signature verification are not modelled; the codec stands
    for them. */
module Jwt {
  import opened Common

  /** A JSON claim value, in the shapes the service can tell apart. */
  datatype ClaimValue = Str(s: string) | Num(n: int) | Null

  type Claims = map<string, ClaimValue>

  /** jwt.encode, and the signature and format layer of jwt.decode, under the
      configured secret key and algorithm: `decode` yields None where a bad
      signature or a malformed token makes the library raise JWTError. */
  datatype Codec = Codec(encode: Claims -> string, decode: string -> Option<Claims>)

  /** A token minted by `encode` passes the signature layer, giving back the
      claims it was minted from. */
  ghost predicate RoundTrips(codec: Codec) {
    forall c: Claims :: codec.decode(codec.encode(c)) == Some(c)
  }

  /** The registered claims jwt.decode validates by default on a signed
      payload, at time `now`: an `exp` must be a number that is not before
      `now`, and a `sub` must be a string. */
  predicate ClaimsValid(claims: Claims, now: int) {
    && ("exp" in claims ==> claims["exp"].Num? && now <= claims["exp"].n)
    && ("sub" in claims ==> claims["sub"].Str?)
  }

  /** jwt.decode(token, key, algorithms) at time `now`: None exactly where the
      library raises JWTError (a bad signature or format, an expired or
      non-numeric `exp`, a `sub` that is not a string). */
  function Decode(codec: Codec, token: string, now: int): (r: Option<Claims>)
    ensures r.Some? <==> codec.decode(token).Some? && ClaimsValid(codec.decode(token).value, now)
    ensures r.Some? ==> r == codec.decode(token)
  {
    match codec.decode(token)
    case None => None
    case Some(claims) => if ClaimsValid(claims, now) then Some(claims) else None
  }

  /** A minted token decodes to its claims for as long as they are valid, and
      is refused once they are not. */
  lemma MintedTokenDecodes(codec: Codec, claims: Claims, now: int)
    requires RoundTrips(codec)
    ensures Decode(codec, codec.encode(claims), now) == Some(claims) <==> ClaimsValid(claims, now)
    ensures !ClaimsValid(claims, now) ==> Decode(codec, codec.encode(claims), now).None?
  {
  }

  /** payload.get("sub") on a decoded payload, where `sub` is a string when
      present: None when the claim is missing. */
  function Subject(payload: Claims): (r: Option<string>)
    ensures r.Some? <==> "sub" in payload && payload["sub"].Str?
    ensures r.Some? ==> payload["sub"] == Str(r.value)
  {
    if "sub" in payload && payload["sub"].Str? then Some(payload["sub"].s) else None
  }

  /** Decode a bearer or refresh token at `now` and read its subject; None when
      either step fails. */
  function TokenSubject(codec: Codec, token: string, now: int): (r: Option<string>)
    ensures r.Some? <==> Decode(codec, token, now).Some? && "sub" in Decode(codec, token, now).value
    ensures r.Some? ==> Decode(codec, token, now).value["sub"] == Str(r.value)
  {
    match Decode(codec, token, now)
    case None => None
    case Some(payload) => Subject(payload)
  }
}
