/** Which ID tokens are accepted. Base64, JSON and the signature schemes themselves are parameters;
    everything around them is here. */
module TokenChecking {
  import opened KeyBytes
  import opened Text
  import opened TokenClaims
  import opened Wrappers

  datatype Header = Header(alg: string, kid: string)

  datatype Key = Key(kty: string, kid: string, alg: string, crv: string, n: string, e: string, x: string, y: string)

  datatype Lib = Lib(
    decode: string -> Option<Bytes>, header: Bytes -> Option<Header>, claims: Bytes -> Option<Claims>,
    hmac: (string, string, string, Bytes) -> bool,            // algorithm, secret, input, signature
    rsa: (nat, int, string, string, Bytes) -> bool,           // modulus, exponent, algorithm, input, signature
    onCurve: (string, nat, nat) -> bool,                      // algorithm, x, y
    ecdsa: (string, nat, nat, string, nat, nat) -> bool,      // algorithm, x, y, input, r, s
    ed25519: (Bytes, string, Bytes) -> bool)                  // key, input, signature

  /** What the server expects of a token. */
  datatype Verifier = Verifier(keys: seq<Key>, issuer: string, audience: string, secret: string, algs: seq<string>)

  const DEFAULT_ALGS := ["RS256", "RS384", "RS512", "ES256", "ES384", "ES512", "EdDSA"]

  function Permitted(algs: seq<string>): seq<string> {
    if algs == [] then DEFAULT_ALGS else algs
  }

  predicate IsHMAC(alg: string) {
    alg == "HS256" || alg == "HS384" || alg == "HS512"
  }

  /** The type of key an algorithm needs. */
  function Family(alg: string): string {
    if alg == "RS256" || alg == "RS384" || alg == "RS512" then "RSA"
    else if alg == "ES256" || alg == "ES384" || alg == "ES512" then "EC"
    else if alg == "EdDSA" then "OKP"
    else ""
  }

  function FieldBytes(alg: string): nat {
    ((if alg == "ES256" then 256 else if alg == "ES384" then 384 else 521) + 7) / 8
  }

  predicate IsCompatible(k: Key, alg: string) {
    if k.alg != "" then k.alg == alg else Family(alg) != "" && k.kty == Family(alg)
  }

  predicate Fits(k: Key, kid: string, alg: string) {
    if kid != "" then k.kid == kid else IsCompatible(k, alg)
  }

  /** The first key that fits. */
  ghost predicate Selected(keys: seq<Key>, kid: string, alg: string, k: Key) {
    exists i: nat :: i < |keys| && keys[i] == k && Fits(keys[i], kid, alg) && forall j: nat | j < i :: !Fits(keys[j], kid, alg)
  }

  predicate RsaSigned(lib: Lib, k: Key, alg: string, input: string, sig: Bytes) {
    && k.kty == "RSA" && lib.decode(k.n).Some? && lib.decode(k.e).Some?
    && lib.rsa(BigEndian(lib.decode(k.n).value), Wrap64(BigEndian(lib.decode(k.e).value)), alg, input, sig)
  }

  /** The key is the point (x, y) of the JWK and the signature the pair (r, s), all as numbers. */
  predicate EcSigned(lib: Lib, k: Key, alg: string, input: string, sig: Bytes) {
    && k.kty == "EC" && lib.decode(k.x).Some? && lib.decode(k.y).Some?
    && var n, x, y := FieldBytes(alg), lib.decode(k.x).value, lib.decode(k.y).value;
    && |x| <= n && |y| <= n && lib.onCurve(alg, BigEndian(x), BigEndian(y))
    && |sig| == 2 * n
    && lib.ecdsa(alg, BigEndian(x), BigEndian(y), input, BigEndian(sig[..n]), BigEndian(sig[n..]))
  }

  predicate EdSigned(lib: Lib, k: Key, input: string, sig: Bytes) {
    && k.kty == "OKP" && k.crv == "Ed25519" && lib.decode(k.x).Some? && |lib.decode(k.x).value| == 32
    && lib.ed25519(lib.decode(k.x).value, input, sig)
  }

  predicate SignedBy(lib: Lib, k: Key, alg: string, input: string, sig: Bytes) {
    match Family(alg)
    case "RSA" => RsaSigned(lib, k, alg, input, sig)
    case "EC" => EcSigned(lib, k, alg, input, sig)
    case "OKP" => EdSigned(lib, k, input, sig)
    case _ => false
  }

  /** The token's own header names a permitted algorithm, and the signature verifies under it. */
  ghost predicate Authentic(lib: Lib, v: Verifier, h: string, p: string, s: string) {
    && lib.decode(h).Some? && lib.header(lib.decode(h).value).Some? && lib.decode(s).Some?
    && var header, sig, input := lib.header(lib.decode(h).value).value, lib.decode(s).value, h + "." + p;
    && header.alg != "" && header.alg != "none" && header.alg in Permitted(v.algs)
    && if IsHMAC(header.alg) then v.secret != "" && lib.hmac(header.alg, v.secret, input, sig)
       else exists k <- v.keys :: Selected(v.keys, header.kid, header.alg, k) && SignedBy(lib, k, header.alg, input, sig)
  }

  // ----- the claims -----

  function TrimSlash(s: string): string {
    if s != "" && s[|s| - 1] == '/' then s[..|s| - 1] else s
  }

  /** The conversion of a number of seconds to an integer drops the fraction. */
  function Truncate(x: real): int {
    if x >= 0.0 then x.Floor else -((-x).Floor)
  }

  predicate IssuerFits(claims: Claims, issuer: string) {
    TrimSlash(StringClaim(claims, "iss")) == TrimSlash(issuer)
  }

  predicate AudienceFits(claims: Claims, audience: string) {
    "aud" in claims && (claims["aud"] == Str(audience) || (claims["aud"].Arr? && Str(audience) in claims["aud"].items))
  }

  predicate InTime(claims: Claims, now: int) {
    && "exp" in claims && claims["exp"].Num? && Truncate(claims["exp"].x) >= now
    && ("nbf" in claims && claims["nbf"].Num? ==> Truncate(claims["nbf"].x) <= now + 60)
  }

  predicate IsToken(token: string, h: string, p: string, s: string) {
    token == h + "." + p + "." + s && '.' !in h && '.' !in p && '.' !in s
  }

  ghost predicate AcceptableAs(lib: Lib, v: Verifier, h: string, p: string, s: string, now: int, claims: Claims) {
    && Authentic(lib, v, h, p, s)
    && lib.decode(p).Some? && lib.claims(lib.decode(p).value) == Some(claims)
    && IssuerFits(claims, v.issuer) && AudienceFits(claims, v.audience) && InTime(claims, now)
  }

  ghost predicate Acceptable(lib: Lib, v: Verifier, token: string, now: int, claims: Claims) {
    exists h, p, s :: IsToken(token, h, p, s) && AcceptableAs(lib, v, h, p, s, now, claims)
  }

  lemma SplitsAsToken(token: string, h: string, p: string, s: string)
    ensures Split(token, '.') == [h, p, s] <==> IsToken(token, h, p, s)
  {
    assert [h, p, s][1..] == [p, s] && [p, s][1..] == [s];
    assert Join([p, s], '.') == p + "." + Join([s], '.') == p + "." + s;
    assert Join([h, p, s], '.') == h + "." + Join([p, s], '.') == h + "." + p + "." + s;
    if Split(token, '.') == [h, p, s] {
      JoinSplit(token, '.');
      SplitPieces(token, '.');
      assert h == [h, p, s][0] && p == [h, p, s][1] && s == [h, p, s][2];
    }
    if IsToken(token, h, p, s) {
      SplitJoin([h, p, s], '.');
    }
  }

  // ----- what acceptance means -----

  /** The audience is the claim, or one of its members. */
  lemma AudienceExactly(claims: Claims, audience: string)
    ensures AudienceFits(claims, audience) <==>
              && "aud" in claims
              && (|| claims["aud"] == Str(audience)
                  || (claims["aud"].Arr? && exists i: nat :: i < |claims["aud"].items| && claims["aud"].items[i] == Str(audience)))
  {
  }

  /** A token that otherwise fits is accepted for an audience it is meant for. */
  lemma FittingTokenIsAcceptable(lib: Lib, v: Verifier, h: string, p: string, s: string, now: int, claims: Claims)
    requires Authentic(lib, v, h, p, s) && '.' !in h && '.' !in p && '.' !in s
    requires lib.decode(p).Some? && lib.claims(lib.decode(p).value) == Some(claims)
    requires IssuerFits(claims, v.issuer) && InTime(claims, now) && "aud" in claims
    requires claims["aud"] == Str(v.audience) ||
             (claims["aud"].Arr? && exists i: nat :: i < |claims["aud"].items| && claims["aud"].items[i] == Str(v.audience))
    ensures Acceptable(lib, v, h + "." + p + "." + s, now, claims)
  {
    assert IsToken(h + "." + p + "." + s, h, p, s) && AcceptableAs(lib, v, h, p, s, now, claims);
  }

  /** The issuers differ by one trailing slash at most. */
  lemma IssuerExactly(claims: Claims, issuer: string)
    ensures IssuerFits(claims, issuer) <==>
              var iss := if "iss" in claims && claims["iss"].Str? then claims["iss"].s else "";
              || iss == issuer
              || (iss == issuer + "/" && TrimSlash(issuer) == issuer)
              || (issuer == iss + "/" && TrimSlash(iss) == iss)
  {
  }

  /** Main result: against a clock that the code reads in whole seconds, a token is let through from
      less than 61 seconds before its nbf until less than one second after its exp. It is let through
      although expired (section 4.1.4 of RFC 7519: at or after exp) exactly in the second of exp. */
  lemma LifetimeExactly(claims: Claims, clock: real)
    requires clock >= 1.0
    ensures InTime(claims, clock.Floor) <==>
              && "exp" in claims && claims["exp"].Num? && claims["exp"].x >= clock.Floor as real
              && ("nbf" in claims && claims["nbf"].Num? ==> claims["nbf"].x < clock.Floor as real + 61.0)
    ensures InTime(claims, clock.Floor) ==> clock < claims["exp"].x + 1.0
    ensures InTime(claims, clock.Floor) && clock >= claims["exp"].x ==> claims["exp"].x.Floor == clock.Floor
  {
  }

  /** With the keys unchanged, a token accepted now and later is accepted all the while. */
  lemma AcceptanceIsAnInterval(lib: Lib, v: Verifier, token: string, first: int, now: int, last: int, claims: Claims)
    requires first <= now <= last
    requires Acceptable(lib, v, token, first, claims) && Acceptable(lib, v, token, last, claims)
    ensures Acceptable(lib, v, token, now, claims)
  {
    var h, p, s :| IsToken(token, h, p, s) && AcceptableAs(lib, v, h, p, s, first, claims);
    assert AcceptableAs(lib, v, h, p, s, now, claims);
  }

  /** An authentic token names an algorithm of the server's list, or of the default one. */
  lemma AlgorithmIsListed(lib: Lib, v: Verifier, h: string, p: string, s: string)
    requires Authentic(lib, v, h, p, s)
    ensures var alg := lib.header(lib.decode(h).value).value.alg;
            && alg != "" && alg != "none"
            && if v.algs != [] then alg in v.algs
               else alg in ["RS256", "RS384", "RS512", "ES256", "ES384", "ES512", "EdDSA"]
  {
  }

  /** An accepted token is signed either with the client secret, which takes a
      configuration that names an HMAC algorithm, or with a key of the provider whose type belongs
      to the algorithm and whose id, if the token names one, is that id. */
  lemma NoAlgorithmConfusion(lib: Lib, v: Verifier, h: string, p: string, s: string, header: Header, sig: Bytes)
    requires Authentic(lib, v, h, p, s) && Some(header) == lib.header(lib.decode(h).value) && Some(sig) == lib.decode(s)
    ensures
      || (IsHMAC(header.alg) && header.alg in v.algs && v.secret != "" && lib.hmac(header.alg, v.secret, h + "." + p, sig))
      || (exists k <- v.keys :: && k.kty == Family(header.alg) && (header.kid == "" || k.kid == header.kid)
                                && SignedBy(lib, k, header.alg, h + "." + p, sig))
  {
  }
}
