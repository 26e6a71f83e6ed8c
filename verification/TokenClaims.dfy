/** The claims of a token: decoded JSON values by name. */
module TokenClaims {
  /** `Strings` is a list of strings that did not come from JSON. */
  datatype Claim = Str(s: string) | Num(x: real) | Arr(items: seq<Claim>) | Strings(strings: seq<string>) | Other

  type Claims = map<string, Claim>

  /** A claim that is missing or no string reads as empty. */
  function StringClaim(claims: Claims, name: string): string {
    if name in claims && claims[name].Str? then claims[name].s else ""
  }
}
