/** Token validation, role mapping and the exchange pipeline together: what stands behind a
    certificate in the audit log. */
module IssuedCertificates {
  import opened ExchangePipeline
  import opened RoleMapping
  import opened TokenClaims
  import opened Tracking
  import opened Wrappers
  import TokenChecking

  /** The pipeline validates tokens as the server does; the keys it checks against change over time,
      and it passes no list of algorithms. */
  ghost predicate ValidatesTokens(c: Config, lib: TokenChecking.Lib, v: Time -> TokenChecking.Verifier) {
    && (forall at :: v(at).algs == [])
    && (forall token, at, claims ::
          c.validate(token, at) == Some(claims) <==> TokenChecking.Acceptable(lib, v(at), token, at / SECOND, claims))
  }

  /** A token carries one set of claims, so such validation is possible. */
  lemma OneSetOfClaims(lib: TokenChecking.Lib, v: TokenChecking.Verifier, token: Token, now: int, claims: Claims, claims': Claims)
    requires TokenChecking.Acceptable(lib, v, token, now, claims) && TokenChecking.Acceptable(lib, v, token, now, claims')
    ensures claims == claims'
  {
    var h, p, s :| TokenChecking.IsToken(token, h, p, s) && TokenChecking.AcceptableAs(lib, v, h, p, s, now, claims);
    var h', p', s' :| TokenChecking.IsToken(token, h', p', s') && TokenChecking.AcceptableAs(lib, v, h', p', s', now, claims');
    TokenChecking.SplitsAsToken(token, h, p, s);
    TokenChecking.SplitsAsToken(token, h', p', s');
    assert [h, p, s][1] == [h', p', s'][1];
  }

  /** A token signed with a key that the provider had at the time, naming issuer and audience. */
  ghost predicate SignedByProvider(lib: TokenChecking.Lib, v: TokenChecking.Verifier, token: Token, claims: Claims) {
    exists h, p, s, k ::
      && TokenChecking.IsToken(token, h, p, s)
      && k in v.keys && SignedWith(lib, h, p, s, k)
      && lib.decode(p).Some? && lib.claims(lib.decode(p).value) == Some(claims)
  }

  ghost predicate SignedWith(lib: TokenChecking.Lib, h: string, p: string, s: string, k: TokenChecking.Key) {
    && lib.decode(h).Some? && lib.header(lib.decode(h).value).Some? && lib.decode(s).Some?
    && var alg := lib.header(lib.decode(h).value).value.alg;
    && k.kty == TokenChecking.Family(alg)
    && TokenChecking.SignedBy(lib, k, alg, h + "." + p, lib.decode(s).value)
  }

  lemma AcceptedIsSigned(lib: TokenChecking.Lib, v: TokenChecking.Verifier, token: Token, now: int, claims: Claims)
    requires TokenChecking.Acceptable(lib, v, token, now, claims) && v.algs == []
    ensures SignedByProvider(lib, v, token, claims)
  {
    var h, p, s :| TokenChecking.IsToken(token, h, p, s) && TokenChecking.AcceptableAs(lib, v, h, p, s, now, claims);
    var header := lib.header(lib.decode(h).value).value;
    TokenChecking.NoAlgorithmConfusion(lib, v, h, p, s, header, lib.decode(s).value);
    var k :| k in v.keys && k.kty == TokenChecking.Family(header.alg)
             && TokenChecking.SignedBy(lib, k, header.alg, h + "." + p, lib.decode(s).value);
    assert SignedWith(lib, h, p, s, k);
  }

  /** Why a certificate has the roles it has. */
  ghost predicate Justified(c: Config, claims: Claims, roles: seq<string>) {
    roles != [] && forall role :: role in roles <==>
      if c.rules == [] then role in c.roles
      else if SomeRuleMatches(c.rules, claims) then exists r <- c.rules :: RuleMatches(r, claims) && role in r.roles
      else role in c.defaults
  }

  /** The token is meant for this server. */
  ghost predicate IsFor(claims: Claims, audience: string) {
    "aud" in claims &&
    (|| claims["aud"] == Str(audience)
     || (claims["aud"].Arr? && exists i: nat :: i < |claims["aud"].items| && claims["aud"].items[i] == Str(audience)))
  }

  /** What stands behind a certificate: a successful call to the issuer with its roles, for a token
      that was signed by the provider, fitted the server and was in time when it was checked. */
  ghost predicate Backed(c: Config, lib: TokenChecking.Lib, v: Time -> TokenChecking.Verifier, e: Event, call: Call) {
    && call.ok && call.roles == e.roles && Justified(c, call.claims, e.roles)
    && SignedByProvider(lib, v(call.at), call.token, call.claims)
    && TokenChecking.IssuerFits(call.claims, v(call.at).issuer)
    && IsFor(call.claims, v(call.at).audience)
    && TokenChecking.InTime(call.claims, call.at / SECOND)
  }

  /** Main result: in every interleaving of requests, every certificate in the audit log is backed. */
  lemma EveryCertificateIsBacked(c: Config, lib: TokenChecking.Lib, v: Time -> TokenChecking.Verifier, steps: seq<Step>, e: Event)
    requires ValidatesTokens(c, lib, v)
    requires Runs(c, INIT, steps) && e in Exec(c, INIT, steps).history && e.kind.CertIssued?
    ensures exists call <- Exec(c, INIT, steps).calls :: Backed(c, lib, v, e, call)
  {
    LoggedCertificatesWereIssued(c, steps, e);
    var call :| call in Exec(c, INIT, steps).calls && call.ok && call.roles == e.roles;
    forall role { EveryIssuedRoleIsJustified(c, steps, call, role); }
    EveryIssuedRoleIsJustified(c, steps, call, "");
    assert TokenChecking.Acceptable(lib, v(call.at), call.token, call.at / SECOND, call.claims);
    AcceptedIsSigned(lib, v(call.at), call.token, call.at / SECOND, call.claims);
    TokenChecking.AudienceExactly(call.claims, v(call.at).audience);
    assert Backed(c, lib, v, e, call);
  }
}
