/** Validating an ID token, check by check, as the server does. */
module TokenValidation {
  import opened KeyBytes
  import opened Text
  import opened TokenChecking
  import opened TokenClaims
  import opened Wrappers

  datatype Refusal =
    | Malformed | AlgorithmRefused | NoSecret | NoKey | BadSignature
    | BadClaims | WrongIssuer | WrongAudience | NoExpiry | Expired | NotYetValid

  datatype Result = Ok(claims: Claims) | Err(refusal: Refusal)

  method FindKey(keys: seq<Key>, kid: string, alg: string) returns (r: Option<Key>)
    ensures r.Some? ==> Selected(keys, kid, alg, r.value)
    ensures r.None? ==> forall k <- keys :: !Fits(k, kid, alg)
    ensures r.Some? && kid != "" ==> r.value.kid == kid
    ensures r.Some? && kid == "" ==> r.value.alg == alg || (r.value.alg == "" && r.value.kty == Family(alg) != "")
    ensures r.None? && kid != "" ==> forall k <- keys :: k.kid != kid
    ensures r.None? && kid == "" ==> forall k <- keys :: k.alg != alg || alg == ""
  {
    for i := 0 to |keys|
      invariant forall j: nat | j < i :: !Fits(keys[j], kid, alg)
    {
      var k := keys[i];
      if kid != "" && k.kid == kid {
        return Some(k);
      }
      if kid == "" {
        if IsCompatible(k, alg) {
          return Some(k);
        }
      }
    }
    return None;
  }

  lemma OneIsSelected(keys: seq<Key>, kid: string, alg: string, k: Key, k': Key)
    requires Selected(keys, kid, alg, k) && Selected(keys, kid, alg, k')
    ensures k == k' && k in keys
  {
  }

  method VerifyRSA(lib: Lib, k: Key, alg: string, input: string, sig: Bytes) returns (ok: bool)
    ensures ok == RsaSigned(lib, k, alg, input, sig)
  {
    if k.kty != "RSA" {
      return false;
    }
    var nBytes := lib.decode(k.n);
    if nBytes.None? {
      return false;
    }
    var eBytes := lib.decode(k.e);
    if eBytes.None? {
      return false;
    }
    var e := Exponent(eBytes.value);
    return lib.rsa(BigEndian(nBytes.value), e, alg, input, sig);
  }

  method VerifyECDSA(lib: Lib, k: Key, alg: string, input: string, sig: Bytes) returns (ok: bool)
    ensures ok == EcSigned(lib, k, alg, input, sig)
    ensures ok ==> k.kty == "EC" && |sig| == if alg == "ES256" then 64 else if alg == "ES384" then 96 else 132
  {
    if k.kty != "EC" {
      return false;
    }
    var x := lib.decode(k.x);
    if x.None? {
      return false;
    }
    var y := lib.decode(k.y);
    if y.None? {
      return false;
    }
    var n := FieldBytes(alg);
    var point := EncodePoint(n, x.value, y.value);
    if point.None? {
      return false;
    }
    PointRoundTrip(n, x.value, y.value, point.value);
    var public := Coordinates(n, point.value);
    if public.None? || !lib.onCurve(alg, public.value.0, public.value.1) || |sig| != 2 * n {
      return false;
    }
    return lib.ecdsa(alg, public.value.0, public.value.1, input, BigEndian(sig[..n]), BigEndian(sig[n..]));
  }

  method VerifyEdDSA(lib: Lib, k: Key, input: string, sig: Bytes) returns (ok: bool)
    ensures ok == EdSigned(lib, k, input, sig)
  {
    if k.kty != "OKP" || k.crv != "Ed25519" {
      return false;
    }
    var x := lib.decode(k.x);
    if x.None? || |x.value| != 32 {
      return false;
    }
    return lib.ed25519(x.value, input, sig);
  }

  method VerifySignature(lib: Lib, k: Key, alg: string, input: string, sig: Bytes) returns (ok: bool)
    ensures ok == SignedBy(lib, k, alg, input, sig)
    ensures ok ==> match k.kty
                   case "RSA" => alg in ["RS256", "RS384", "RS512"]
                   case "EC" => alg in ["ES256", "ES384", "ES512"]
                   case "OKP" => alg == "EdDSA"
                   case _ => false
  {
    if alg == "RS256" || alg == "RS384" || alg == "RS512" {
      ok := VerifyRSA(lib, k, alg, input, sig);
    } else if alg == "ES256" || alg == "ES384" || alg == "ES512" {
      ok := VerifyECDSA(lib, k, alg, input, sig);
    } else if alg == "EdDSA" {
      ok := VerifyEdDSA(lib, k, input, sig);
    } else {
      ok := false;
    }
  }

  method ValidateAudience(claims: Claims, audience: string) returns (ok: bool)
    ensures ok == AudienceFits(claims, audience)
    ensures ok <==>
              && "aud" in claims
              && (|| claims["aud"] == Str(audience)
                  || (claims["aud"].Arr? && exists i: nat :: i < |claims["aud"].items| && claims["aud"].items[i] == Str(audience)))
  {
    AudienceExactly(claims, audience);
    if "aud" !in claims {
      return false;
    }
    match claims["aud"]
    case Str(s) => return s == audience;
    case Arr(items) =>
      for i := 0 to |items|
        invariant Str(audience) !in items[..i]
      {
        if items[i].Str? && items[i].s == audience {
          return true;
        }
      }
      return false;
    case _ => return false;
  }

  method IsPermitted(algs: seq<string>, alg: string) returns (ok: bool)
    ensures ok == (alg in Permitted(algs))
    ensures |algs| > 0 ==> (ok <==> exists i: nat :: i < |algs| && algs[i] == alg)
  {
    var allowed := if |algs| == 0 then DEFAULT_ALGS else algs;
    for i := 0 to |allowed|
      invariant alg !in allowed[..i]
    {
      if allowed[i] == alg {
        return true;
      }
    }
    return false;
  }

  /** The checks up to and including the signature. */
  method Authenticate(lib: Lib, v: Verifier, h: string, p: string, s: string) returns (r: Option<Refusal>)
    ensures r.None? <==> Authentic(lib, v, h, p, s)
    ensures r.Some? ==> r.value in {Malformed, AlgorithmRefused, NoSecret, NoKey, BadSignature}
  {
    var headerJSON := lib.decode(h);
    if headerJSON.None? {
      return Some(Malformed);
    }
    var header := lib.header(headerJSON.value);
    if header.None? {
      return Some(Malformed);
    }
    var alg := header.value.alg;
    if alg == "" || alg == "none" {
      return Some(AlgorithmRefused);
    }
    var permitted := IsPermitted(v.algs, alg);
    if !permitted {
      return Some(AlgorithmRefused);
    }
    var input := h + "." + p;
    var sig := lib.decode(s);
    if sig.None? {
      return Some(Malformed);
    }
    if alg == "HS256" || alg == "HS384" || alg == "HS512" {
      if v.secret == "" {
        return Some(NoSecret);
      }
      return if lib.hmac(alg, v.secret, input, sig.value) then None else Some(BadSignature);
    }
    var key := FindKey(v.keys, header.value.kid, alg);
    if key.None? {
      return Some(NoKey);
    }
    var signed := VerifySignature(lib, key.value, alg, input, sig.value);
    forall k <- v.keys | Selected(v.keys, header.value.kid, alg, k) ensures k == key.value {
      OneIsSelected(v.keys, header.value.kid, alg, k, key.value);
    }
    return if signed then None else Some(BadSignature);
  }

  /** The checks on the claims. */
  method CheckClaims(claims: Claims, v: Verifier, now: int) returns (r: Option<Refusal>)
    ensures r.None? <==> IssuerFits(claims, v.issuer) && AudienceFits(claims, v.audience) && InTime(claims, now)
  {
    if TrimSlash(StringClaim(claims, "iss")) != TrimSlash(v.issuer) {
      return Some(WrongIssuer);
    }
    var audience := ValidateAudience(claims, v.audience);
    if !audience {
      return Some(WrongAudience);
    }
    if "exp" in claims && claims["exp"].Num? {
      if Truncate(claims["exp"].x) < now {
        return Some(Expired);
      }
    } else {
      return Some(NoExpiry);
    }
    if "nbf" in claims && claims["nbf"].Num? {
      if Truncate(claims["nbf"].x) > now + 60 {
        return Some(NotYetValid);
      }
    }
    return None;
  }

  /** A token is accepted, with the claims it carries, exactly when it is acceptable; and no token is
      refused for its claims unless its signature is good. */
  method ValidateIDToken(lib: Lib, v: Verifier, token: string, now: int) returns (r: Result)
    ensures r.Ok? ==> Acceptable(lib, v, token, now, r.claims)
    ensures r.Ok? ==>
              && "aud" in r.claims
              && var aud := r.claims["aud"];
                 aud == Str(v.audience) || (aud.Arr? && exists i: nat :: i < |aud.items| && aud.items[i] == Str(v.audience))
    ensures r.Err? ==> forall claims :: !Acceptable(lib, v, token, now, claims)
    ensures r.Err? && r.refusal !in {Malformed, AlgorithmRefused, NoSecret, NoKey, BadSignature} ==>
              exists h, p, s :: IsToken(token, h, p, s) && Authentic(lib, v, h, p, s)
  {
    var parts := Split(token, '.');
    forall h, p, s | IsToken(token, h, p, s) ensures parts == [h, p, s] {
      SplitsAsToken(token, h, p, s);
    }
    if |parts| != 3 {
      return Err(Malformed);
    }
    var h, p, s := parts[0], parts[1], parts[2];
    assert parts == [h, p, s];
    SplitsAsToken(token, h, p, s);
    var refusal := Authenticate(lib, v, h, p, s);
    if refusal.Some? {
      return Err(refusal.value);
    }
    var claimsJSON := lib.decode(p);
    if claimsJSON.None? {
      return Err(BadClaims);
    }
    var claims := lib.claims(claimsJSON.value);
    if claims.None? {
      return Err(BadClaims);
    }
    refusal := CheckClaims(claims.value, v, now);
    if refusal.Some? {
      return Err(refusal.value);
    }
    assert AcceptableAs(lib, v, h, p, s, now, claims.value);
    AudienceExactly(claims.value, v.audience);
    return Ok(claims.value);
  }
}
