/** The client address behind trusted proxies, as the limiter and the allowlist each compute it. */
module ClientAddress {
  import opened Text
  import opened Wrappers

  type Net = nat
  type Addr = nat

  datatype Result<T> = Ok(value: T) | Err(input: string)

  /** The address library: parsing networks and addresses, the network of one host, membership. */
  datatype Lib = Lib(
    parseCIDR: string -> Option<Net>, parseIP: string -> Option<Addr>,
    hostNet: Addr -> Net, contains: (Net, Addr) -> bool)

  /** One configured entry: a network, a bare address standing for its host network, or neither. */
  function ParseEntry(lib: Lib, s: string): Option<Net> {
    if lib.parseCIDR(s).Some? then lib.parseCIDR(s)
    else if lib.parseIP(s).Some? then Some(lib.hostNet(lib.parseIP(s).value))
    else None
  }

  /** The limiter skips entries it cannot parse. */
  function ParseSkipping(lib: Lib, entries: seq<string>): seq<Net> {
    if entries == [] then []
    else
      var nets, s := ParseSkipping(lib, entries[..|entries| - 1]), TrimSpace(entries[|entries| - 1]);
      if s == [] || ParseEntry(lib, s).None? then nets else nets + [ParseEntry(lib, s).value]
  }

  /** The allowlist refuses the configuration instead, naming the first such entry. */
  function ParseStrict(lib: Lib, entries: seq<string>): Result<seq<Net>> {
    if entries == [] then Ok([])
    else
      var before, s := ParseStrict(lib, entries[..|entries| - 1]), TrimSpace(entries[|entries| - 1]);
      if before.Err? || s == [] then before
      else if ParseEntry(lib, s).None? then Err(s)
      else Ok(before.value + [ParseEntry(lib, s).value])
  }

  method ParseNetsSkipping(lib: Lib, entries: seq<string>) returns (nets: seq<Net>)
    ensures nets == ParseSkipping(lib, entries)
  {
    nets := [];
    for i := 0 to |entries|
      invariant nets == ParseSkipping(lib, entries[..i])
    {
      assert entries[..i + 1][..i] == entries[..i];
      var s := TrimSpace(entries[i]);
      if s == "" {
        continue;
      }
      var net := lib.parseCIDR(s);
      if net.Some? {
        nets := nets + [net.value];
        continue;
      }
      var ip := lib.parseIP(s);
      if ip.Some? {
        nets := nets + [lib.hostNet(ip.value)];
      }
    }
    assert entries[..|entries|] == entries;
  }

  method ParseNetsStrict(lib: Lib, entries: seq<string>) returns (r: Result<seq<Net>>)
    ensures r == ParseStrict(lib, entries)
  {
    var nets := [];
    for i := 0 to |entries|
      invariant Ok(nets) == ParseStrict(lib, entries[..i])
    {
      assert entries[..i + 1][..i] == entries[..i];
      var s := TrimSpace(entries[i]);
      if s == "" {
        continue;
      }
      var net := lib.parseCIDR(s);
      if net.Some? {
        nets := nets + [net.value];
        continue;
      }
      var ip := lib.parseIP(s);
      if ip.Some? {
        nets := nets + [lib.hostNet(ip.value)];
        continue;
      }
      StrictErrStays(lib, entries, i + 1);
      return Err(s);
    }
    assert entries[..|entries|] == entries;
    return Ok(nets);
  }

  lemma {:induction false} StrictErrStays(lib: Lib, entries: seq<string>, i: nat)
    requires i <= |entries| && ParseStrict(lib, entries[..i]).Err?
    ensures ParseStrict(lib, entries) == ParseStrict(lib, entries[..i])
    decreases |entries|
  {
    if i == |entries| {
      assert entries[..i] == entries;
    } else {
      assert entries[..|entries| - 1][..i] == entries[..i];
      StrictErrStays(lib, entries[..|entries| - 1], i);
    }
  }

  predicate IsTrusted(lib: Lib, trusted: seq<Net>, ip: string) {
    lib.parseIP(ip).Some? && exists n <- trusted :: lib.contains(n, lib.parseIP(ip).value)
  }

  method IsTrustedProxy(lib: Lib, trusted: seq<Net>, ip: string) returns (yes: bool)
    ensures yes == IsTrusted(lib, trusted, ip)
    ensures yes <==> exists i: nat :: i < |trusted| && lib.parseIP(ip).Some? && lib.contains(trusted[i], lib.parseIP(ip).value)
  {
    var parsed := lib.parseIP(ip);
    if parsed.None? {
      return false;
    }
    for i := 0 to |trusted|
      invariant forall n <- trusted[..i] :: !lib.contains(n, parsed.value)
    {
      if lib.contains(trusted[i], parsed.value) {
        return true;
      }
    }
    return false;
  }

  // ----- what a list of proxies trusts -----

  /** An entry trusts an address: a network that contains it, or an address whose host network does. */
  predicate Trusts(lib: Lib, entry: string, ip: Addr) {
    var s := TrimSpace(entry);
    s != [] && match lib.parseCIDR(s)
      case Some(net) => lib.contains(net, ip)
      case None => lib.parseIP(s).Some? && lib.contains(lib.hostNet(lib.parseIP(s).value), ip)
  }

  /** An entry that is neither blank nor a network nor an address. */
  predicate IsBad(lib: Lib, entry: string) {
    var s := TrimSpace(entry);
    s != [] && lib.parseCIDR(s).None? && lib.parseIP(s).None?
  }

  /** The limiter trusts exactly the peers that some entry of its list trusts. */
  lemma {:induction false} TrustedExactly(lib: Lib, entries: seq<string>, ip: string)
    ensures IsTrusted(lib, ParseSkipping(lib, entries), ip) <==>
              lib.parseIP(ip).Some? && exists e <- entries :: Trusts(lib, e, lib.parseIP(ip).value)
  {
    if entries != [] {
      var front, last := entries[..|entries| - 1], entries[|entries| - 1];
      TrustedExactly(lib, front, ip);
      assert entries == front + [last];
      var e := TrimSpace(last);
      if e != [] && ParseEntry(lib, e).Some? {
        TrustedSnoc(lib, ParseSkipping(lib, front), ParseEntry(lib, e).value, ip);
      }
      if lib.parseIP(ip).Some? {
        var addr := lib.parseIP(ip).value;
        assert forall x :: x in entries <==> x in front || x == last;
        assert (exists x <- entries :: Trusts(lib, x, addr)) <==>
                 (exists x <- front :: Trusts(lib, x, addr)) || Trusts(lib, last, addr);
      }
    }
  }

  lemma TrustedSnoc(lib: Lib, nets: seq<Net>, n: Net, ip: string)
    ensures IsTrusted(lib, nets + [n], ip) <==>
              IsTrusted(lib, nets, ip) || (lib.parseIP(ip).Some? && lib.contains(n, lib.parseIP(ip).value))
  {
    assert forall x :: x in nets + [n] <==> x in nets || x == n;
  }

  /** The allowlist refuses its list of proxies exactly if some entry is bad, naming the first. */
  lemma {:induction false} StrictErrExactly(lib: Lib, entries: seq<string>)
    ensures ParseStrict(lib, entries).Ok? <==> forall e <- entries :: !IsBad(lib, e)
    ensures ParseStrict(lib, entries).Err? ==> FirstBad(lib, entries, ParseStrict(lib, entries).input)
  {
    if entries != [] {
      var front, last := entries[..|entries| - 1], entries[|entries| - 1];
      StrictErrExactly(lib, front);
      assert entries == front + [last];
      FirstBadGrows(lib, front, last);
    }
  }

  ghost predicate FirstBad(lib: Lib, entries: seq<string>, input: string) {
    exists i: nat :: FirstBadAt(lib, entries, input, i)
  }

  predicate FirstBadAt(lib: Lib, entries: seq<string>, input: string, i: nat) {
    && i < |entries| && IsBad(lib, entries[i]) && input == TrimSpace(entries[i])
    && forall j: nat | j < i :: !IsBad(lib, entries[j])
  }

  lemma FirstBadGrows(lib: Lib, front: seq<string>, last: string)
    ensures forall input :: FirstBad(lib, front, input) ==> FirstBad(lib, front + [last], input)
    ensures (forall e <- front :: !IsBad(lib, e)) && IsBad(lib, last) ==> FirstBad(lib, front + [last], TrimSpace(last))
  {
    forall input | FirstBad(lib, front, input) ensures FirstBad(lib, front + [last], input) {
      var i: nat :| FirstBadAt(lib, front, input, i);
      assert FirstBadAt(lib, front + [last], input, i);
    }
    if (forall e <- front :: !IsBad(lib, e)) && IsBad(lib, last) {
      assert FirstBadAt(lib, front + [last], TrimSpace(last), |front|);
    }
  }

  /** The last hop that is not itself a trusted proxy. */
  function LastUntrusted(lib: Lib, trusted: seq<Net>, parts: seq<string>): Option<string> {
    if parts == [] then None
    else
      var ip := TrimSpace(parts[|parts| - 1]);
      if IsTrusted(lib, trusted, ip) then LastUntrusted(lib, trusted, parts[..|parts| - 1]) else Some(ip)
  }

  /** `host` is the peer's address without its port, `xff` the X-Forwarded-For header, empty if absent. */
  function ClientIP(lib: Lib, trusted: seq<Net>, host: string, xff: string): string {
    if !IsTrusted(lib, trusted, host) || xff == [] then host
    else match LastUntrusted(lib, trusted, Split(xff, ','))
      case Some(ip) => ip
      case None => host
  }

  method ExtractIP(lib: Lib, trusted: seq<Net>, host: string, xff: string) returns (ip: string)
    ensures ip == ClientIP(lib, trusted, host, xff)
  {
    var trustedPeer := IsTrustedProxy(lib, trusted, host);
    if trustedPeer && xff != "" {
      var parts := Split(xff, ',');
      var i := |parts|;
      assert parts[..|parts|] == parts;
      while i > 0
        invariant 0 <= i <= |parts|
        invariant LastUntrusted(lib, trusted, parts) == LastUntrusted(lib, trusted, parts[..i])
      {
        i := i - 1;
        assert parts[..i + 1][..i] == parts[..i];
        ip := TrimSpace(parts[i]);
        var proxy := IsTrustedProxy(lib, trusted, ip);
        if !proxy {
          return ip;
        }
      }
    }
    return host;
  }

  // ----- what the result means -----

  /** Hop i is the rightmost untrusted one. */
  predicate RightmostUntrustedAt(lib: Lib, trusted: seq<Net>, parts: seq<string>, i: nat) {
    && i < |parts| && !IsTrusted(lib, trusted, TrimSpace(parts[i]))
    && forall j | i < j < |parts| :: IsTrusted(lib, trusted, TrimSpace(parts[j]))
  }

  lemma {:induction false} LastUntrustedIsRightmost(lib: Lib, trusted: seq<Net>, parts: seq<string>)
    ensures var r := LastUntrusted(lib, trusted, parts);
            && (r.None? <==> forall p <- parts :: IsTrusted(lib, trusted, TrimSpace(p)))
            && (r.Some? ==> exists i: nat :: RightmostUntrustedAt(lib, trusted, parts, i) && r.value == TrimSpace(parts[i]))
  {
    if parts != [] {
      var front := parts[..|parts| - 1];
      assert parts == front + [parts[|parts| - 1]];
      LastUntrustedIsRightmost(lib, trusted, front);
      if !IsTrusted(lib, trusted, TrimSpace(parts[|parts| - 1])) {
        assert RightmostUntrustedAt(lib, trusted, parts, |parts| - 1);
      } else if LastUntrusted(lib, trusted, front).Some? {
        var i: nat :| RightmostUntrustedAt(lib, trusted, front, i) && LastUntrusted(lib, trusted, front).value == TrimSpace(front[i]);
        assert RightmostUntrustedAt(lib, trusted, parts, i);
      }
    }
  }

  lemma {:induction false} LastUntrustedIgnoresFront(lib: Lib, trusted: seq<Net>, front: seq<string>, parts: seq<string>)
    requires LastUntrusted(lib, trusted, parts).Some?
    ensures LastUntrusted(lib, trusted, front + parts) == LastUntrusted(lib, trusted, parts)
  {
    if parts != [] {
      assert (front + parts)[..|front + parts| - 1] == front + parts[..|parts| - 1];
      if IsTrusted(lib, trusted, TrimSpace(parts[|parts| - 1])) {
        LastUntrustedIgnoresFront(lib, trusted, front, parts[..|parts| - 1]);
      }
    }
  }

  /** Main result: the header counts only behind a trusted peer; there the client is the rightmost
      untrusted hop, or the peer if every hop is trusted. */
  lemma ClientIsRightmostUntrusted(lib: Lib, trusted: seq<Net>, host: string, xff: string)
    ensures var parts, ip := Split(xff, ','), ClientIP(lib, trusted, host, xff);
            if !IsTrusted(lib, trusted, host) || xff == [] || (forall p <- parts :: IsTrusted(lib, trusted, TrimSpace(p)))
            then ip == host
            else exists i: nat :: RightmostUntrustedAt(lib, trusted, parts, i) && ip == TrimSpace(parts[i])
  {
    LastUntrustedIsRightmost(lib, trusted, Split(xff, ','));
  }

  /** Whatever a client puts in front of what the proxies append changes nothing. */
  lemma PrefixDoesNotMatter(lib: Lib, trusted: seq<Net>, host: string, prefix: string, xff: string)
    requires exists p <- Split(xff, ',') :: !IsTrusted(lib, trusted, TrimSpace(p))
    requires xff != []
    ensures ClientIP(lib, trusted, host, prefix + [','] + xff) == ClientIP(lib, trusted, host, xff)
  {
    SplitAt(prefix, xff, ',');
    LastUntrustedIsRightmost(lib, trusted, Split(xff, ','));
    LastUntrustedIgnoresFront(lib, trusted, Split(prefix, ','), Split(xff, ','));
  }

  lemma {:induction false} StrictImpliesSkipping(lib: Lib, entries: seq<string>)
    requires ParseStrict(lib, entries).Ok?
    ensures ParseSkipping(lib, entries) == ParseStrict(lib, entries).value
  {
    if entries != [] {
      StrictImpliesSkipping(lib, entries[..|entries| - 1]);
    }
  }

  /** Once the allowlist has accepted the proxy list, both middlewares see the same client in every request. */
  lemma MiddlewaresAgree(lib: Lib, proxies: seq<string>, host: string, xff: string)
    requires ParseStrict(lib, proxies).Ok?
    ensures ClientIP(lib, ParseSkipping(lib, proxies), host, xff) == ClientIP(lib, ParseStrict(lib, proxies).value, host, xff)
  {
    StrictImpliesSkipping(lib, proxies);
  }

  // ----- the allowlist -----

  datatype Allowlist = Allowlist(nets: seq<Net>, ips: seq<Addr>)

  function Add(lib: Lib, a: Allowlist, s: string): Result<Allowlist> {
    if s == [] then Ok(a)
    else if lib.parseCIDR(s).Some? then Ok(a.(nets := a.nets + [lib.parseCIDR(s).value]))
    else if lib.parseIP(s).Some? then Ok(a.(ips := a.ips + [lib.parseIP(s).value]))
    else Err(s)
  }

  function Build(lib: Lib, allowed: seq<string>): Result<Allowlist> {
    if allowed == [] then Ok(Allowlist([], []))
    else match Build(lib, allowed[..|allowed| - 1])
      case Err(s) => Err(s)
      case Ok(a) => Add(lib, a, TrimSpace(allowed[|allowed| - 1]))
  }

  predicate Lists(lib: Lib, a: Allowlist, ip: Addr) {
    ip in a.ips || exists n <- a.nets :: lib.contains(n, ip)
  }

  predicate Allowed(lib: Lib, a: Allowlist, ip: string) {
    (a.nets == [] && a.ips == []) ||
    (lib.parseIP(ip).Some? && Lists(lib, a, lib.parseIP(ip).value))
  }

  /** The allowlist itself is refused on the same terms. */
  lemma {:induction false} BuildErrExactly(lib: Lib, allowed: seq<string>)
    ensures Build(lib, allowed).Ok? <==> forall e <- allowed :: !IsBad(lib, e)
    ensures Build(lib, allowed).Err? ==> FirstBad(lib, allowed, Build(lib, allowed).input)
  {
    if allowed != [] {
      var front, last := allowed[..|allowed| - 1], allowed[|allowed| - 1];
      BuildErrExactly(lib, front);
      assert allowed == front + [last];
      FirstBadGrows(lib, front, last);
    }
  }

  lemma {:induction false} BuildErrStays(lib: Lib, allowed: seq<string>, i: nat)
    requires i <= |allowed| && Build(lib, allowed[..i]).Err?
    ensures Build(lib, allowed) == Build(lib, allowed[..i])
    decreases |allowed|
  {
    if i == |allowed| {
      assert allowed[..i] == allowed;
    } else {
      assert allowed[..|allowed| - 1][..i] == allowed[..i];
      BuildErrStays(lib, allowed[..|allowed| - 1], i);
    }
  }

  method NewAllowlist(lib: Lib, allowed: seq<string>) returns (r: Result<Allowlist>)
    ensures r == Build(lib, allowed)
  {
    var nets, ips := [], [];
    for i := 0 to |allowed|
      invariant Ok(Allowlist(nets, ips)) == Build(lib, allowed[..i])
    {
      assert allowed[..i + 1][..i] == allowed[..i];
      var s := TrimSpace(allowed[i]);
      if s == "" {
        continue;
      }
      var net := lib.parseCIDR(s);
      if net.Some? {
        nets := nets + [net.value];
        continue;
      }
      var ip := lib.parseIP(s);
      if ip.Some? {
        ips := ips + [ip.value];
        continue;
      }
      BuildErrStays(lib, allowed, i + 1);
      return Err(s);
    }
    assert allowed[..|allowed|] == allowed;
    return Ok(Allowlist(nets, ips));
  }

  method IsAllowed(lib: Lib, a: Allowlist, ip: string) returns (yes: bool)
    ensures yes == Allowed(lib, a, ip)
  {
    if |a.nets| == 0 && |a.ips| == 0 {
      return true;
    }
    var parsed := lib.parseIP(ip);
    if parsed.None? {
      return false;
    }
    for i := 0 to |a.ips|
      invariant parsed.value !in a.ips[..i]
    {
      if a.ips[i] == parsed.value {
        return true;
      }
    }
    for i := 0 to |a.nets|
      invariant forall n <- a.nets[..i] :: !lib.contains(n, parsed.value)
    {
      if lib.contains(a.nets[i], parsed.value) {
        return true;
      }
    }
    return false;
  }

  /** An entry admits an address: a network that contains it, or the very address. */
  predicate Admits(lib: Lib, entry: string, ip: Addr) {
    var s := TrimSpace(entry);
    s != [] && if lib.parseCIDR(s).Some? then lib.contains(lib.parseCIDR(s).value, ip) else lib.parseIP(s) == Some(ip)
  }

  lemma {:induction false} EmptyIffBlank(lib: Lib, allowed: seq<string>)
    requires Build(lib, allowed).Ok?
    ensures Build(lib, allowed).value == Allowlist([], []) <==> forall e <- allowed :: Blank(e)
  {
    if allowed != [] {
      var front, last := allowed[..|allowed| - 1], allowed[|allowed| - 1];
      EmptyIffBlank(lib, front);
      BlankTrimsToNothing(last);
      assert allowed == front + [last] && last in allowed;
      assert !Blank(last) ==> Build(lib, allowed).value != Allowlist([], []);
    }
  }

  lemma AddLists(lib: Lib, a: Allowlist, entry: string, ip: Addr)
    requires Add(lib, a, TrimSpace(entry)).Ok?
    ensures Lists(lib, Add(lib, a, TrimSpace(entry)).value, ip) <==> Lists(lib, a, ip) || Admits(lib, entry, ip)
  {
  }

  lemma {:induction false} BuiltFrom(lib: Lib, allowed: seq<string>, ip: Addr)
    requires Build(lib, allowed).Ok?
    ensures Lists(lib, Build(lib, allowed).value, ip) <==> exists e <- allowed :: Admits(lib, e, ip)
  {
    if allowed != [] {
      var front, last := allowed[..|allowed| - 1], allowed[|allowed| - 1];
      BuiltFrom(lib, front, ip);
      AddLists(lib, Build(lib, front).value, last, ip);
      assert allowed == front + [last];
    }
  }

  /** Main result: an accepted configuration lets in everyone if it has no entries but blanks, and
      otherwise exactly the addresses that some entry admits; what does not parse is kept out. */
  lemma AllowedExactly(lib: Lib, allowed: seq<string>, ip: string)
    requires Build(lib, allowed).Ok?
    ensures Allowed(lib, Build(lib, allowed).value, ip) <==>
              (forall e <- allowed :: Blank(e))
              || (lib.parseIP(ip).Some? && exists e <- allowed :: Admits(lib, e, lib.parseIP(ip).value))
  {
    EmptyIffBlank(lib, allowed);
    if lib.parseIP(ip).Some? {
      BuiltFrom(lib, allowed, lib.parseIP(ip).value);
    }
  }
}
