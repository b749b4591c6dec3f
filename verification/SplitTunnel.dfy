/** Which traffic bypasses the tunnel: the kernel's longest-prefix match
    (wireguard_linux.go) and the SOCKS router (internal/core/socks_router.go)
    decide it in two ways. */
module SplitTunnel {
  import opened Wrappers
  import opened Words
  import opened Text

  type Ip = x: int | 0 <= x < 0x1_0000_0000

  /** A parsed list entry: an address, or a CIDR block whose address may have
      host bits set. IPv6 entries never concern an IPv4 address. */
  datatype Entry = Host(ip: Ip) | Cidr(ip: Ip, len: nat) | Other

  datatype Prefix = Prefix(addr: Ip, len: nat)

  function Pow2(n: nat): (r: nat)
    ensures r > 0
  {
    if n == 0 then 1 else 2 * Pow2(n - 1)
  }

  /** The address with its host bits cleared. */
  function Mask(ip: Ip, len: nat): (m: Ip)
    requires len <= 32
    ensures m <= ip
  {
    var h := Pow2(32 - len);
    Remainder(ip, h);
    ip - ip % h
  }

  predicate Contains(p: Prefix, ip: Ip)
    requires p.len <= 32
  {
    Mask(ip, p.len) == p.addr
  }

  predicate Valid(e: Entry) { e.Cidr? ==> e.len <= 32 }

  /** A bare address is a /32; CIDR notation is masked when parsed. Both the
      router and the kernel routes go through this. */
  function NetOf(e: Entry): Option<Prefix>
    requires Valid(e)
  {
    match e
    case Host(ip) => Some(Prefix(Mask(ip, 32), 32))
    case Cidr(ip, len) => Some(Prefix(Mask(ip, len), len))
    case Other => None
  }

  function Nets(es: seq<Entry>): (ps: seq<Prefix>)
    requires forall e :: e in es ==> Valid(e)
    ensures forall p :: p in ps ==> p.len <= 32
  {
    if es == [] then []
    else
      var front := Nets(es[..|es| - 1]);
      match NetOf(es[|es| - 1]) case None => front case Some(p) => front + [p]
  }

  // ----- What a block holds -----

  lemma MaskIs(ip: Ip, len: nat)
    requires len <= 32
    ensures Mask(ip, len) == ip / Pow2(32 - len) * Pow2(32 - len)
  {
  }

  /** A block, its address without host bits, holds its address and the ones
      behind it, 2^(32 - len) in all. */
  lemma ContainsExactly(p: Prefix, ip: Ip)
    requires p.len <= 32 && p.addr % Pow2(32 - p.len) == 0
    ensures Contains(p, ip) <==> p.addr <= ip < p.addr + Pow2(32 - p.len)
  {
    var h := Pow2(32 - p.len);
    MaskIs(ip, p.len);
    Divided(ip, h);
    Divided(p.addr, h);
    hide Mask, Pow2;
    InBlock(p.addr / h, ip / h, ip % h, h);
  }

  lemma Divided(x: nat, h: nat)
    requires h > 0
    ensures x == x / h * h + x % h && 0 <= x % h < h
  {
  }

  lemma InBlock(k: nat, q: nat, r: nat, h: nat)
    requires r < h
    ensures q * h == k * h <==> k * h <= q * h + r < k * h + h
  {
    if q < k {
      TimesAtMost(q + 1, k, h);
    } else if k < q {
      TimesAtMost(k + 1, q, h);
    }
  }

  lemma TimesAtMost(a: nat, b: nat, m: nat)
    requires a <= b
    ensures a * m <= b * m
  {
  }

  /** What an entry names: one address, or those that agree with its own in the
      first `len` bits. */
  predicate Names(e: Entry, ip: Ip) {
    match e
    case Host(a) => a == ip
    case Cidr(a, len) => len <= 32 && a / Pow2(32 - len) == ip / Pow2(32 - len)
    case Other => false
  }

  lemma NetIsNamed(e: Entry, ip: Ip)
    requires Valid(e)
    ensures NetOf(e).Some? ==> NetOf(e).value.len <= 32
    ensures Names(e, ip) <==> NetOf(e).Some? && Contains(NetOf(e).value, ip)
  {
    match e
    case Host(a) =>
      MaskIs(a, 32);
      MaskIs(ip, 32);
      assert Pow2(0) == 1;
    case Cidr(a, len) =>
      MaskIs(a, len);
      MaskIs(ip, len);
      var h := Pow2(32 - len);
      if a / h != ip / h {
        DifferentBlocks(a / h, ip / h, h);
      }
    case Other =>
  }

  lemma DifferentBlocks(a: nat, b: nat, h: nat)
    requires h > 0 && a != b
    ensures a * h != b * h
  {
  }

  /** After an update the router answers "direct" for an address if and only if
      some entry of the list names it. */
  lemma {:induction false} ListExactly(es: seq<Entry>, ip: Ip)
    requires forall e :: e in es && e.Cidr? ==> e.len <= 32
    ensures AnyContains(Nets(es), ip) <==> exists i :: 0 <= i < |es| && Names(es[i], ip)
  {
    if es != [] {
      var n := |es| - 1;
      var front, nets := Nets(es[..n]), Nets(es);
      ListExactly(es[..n], ip);
      NetIsNamed(es[n], ip);
      hide Contains, Names, NetOf;
      assert forall i :: 0 <= i < n ==> es[..n][i] == es[i];
      assert front <= nets;
      if AnyContains(front, ip) {
        var i :| 0 <= i < |front| && Contains(front[i], ip);
        assert Contains(nets[i], ip);
      }
      if NetOf(es[n]).Some? {
        assert nets[|front|] == NetOf(es[n]).value;
      }
    }
  }

  // ----- The SOCKS router -----

  /** A host name or an IPv4 literal. */
  datatype Destination = Name(name: string) | Address(ip: Ip)

  predicate Matches(h: string, d: string) { h == d || HasSuffix(h, "." + d) }

  predicate AnyContains(nets: seq<Prefix>, ip: Ip)
    requires forall p :: p in nets ==> p.len <= 32
  {
    exists i :: 0 <= i < |nets| && Contains(nets[i], ip)
  }

  predicate AnyMatches(domains: seq<string>, h: string) {
    exists i :: 0 <= i < |domains| && Matches(h, domains[i])
  }

  function CleanDomains(domains: seq<string>): (ds: seq<string>)
    ensures |ds| == |domains|
    ensures forall i :: 0 <= i < |ds| ==> ds[i] == ToLower(TrimSpace(domains[i]))
  {
    if domains == [] then []
    else CleanDomains(domains[..|domains| - 1]) + [ToLower(TrimSpace(domains[|domains| - 1]))]
  }

  class Router {
    var domains: seq<string>
    var ipMatchers: seq<Prefix>

    ghost predicate Masked()
      reads this
    {
      forall p :: p in ipMatchers ==> p.len <= 32
    }

    constructor (domains: seq<string>, ips: seq<Entry>)
      requires forall e :: e in ips ==> Valid(e)
      ensures Masked() && this.domains == CleanDomains(domains) && ipMatchers == Nets(ips)
    {
      this.domains, this.ipMatchers := [], [];
      new;
      Update(domains, ips);
    }

    method Update(domains: seq<string>, ips: seq<Entry>)
      requires forall e :: e in ips ==> Valid(e)
      modifies this
      ensures Masked() && this.domains == CleanDomains(domains) && ipMatchers == Nets(ips)
    {
      var dcopy: seq<string> := [];
      for i := 0 to |domains|
        invariant dcopy == CleanDomains(domains[..i])
      {
        assert domains[..i + 1][..i] == domains[..i];
        dcopy := dcopy + [ToLower(TrimSpace(domains[i]))];
      }
      var nets: seq<Prefix> := [];
      for i := 0 to |ips|
        invariant nets == Nets(ips[..i])
      {
        assert ips[..i + 1][..i] == ips[..i];
        var n := NetOf(ips[i]);
        if n.Some? {
          nets := nets + [n.value];
        }
      }
      assert domains[..|domains|] == domains && ips[..|ips|] == ips;
      this.domains := dcopy;
      ipMatchers := nets;
    }

    /** True for "direct", false for "tun". */
    method Resolve(host: Destination) returns (direct: bool)
      requires Masked()
      ensures match host
              case Address(ip) => direct == AnyContains(ipMatchers, ip)
              case Name(n) => direct == (n != "" && AnyMatches(domains, ToLower(TrimSuffix(n, "."))))
    {
      match host {
        case Address(ip) =>
          for i := 0 to |ipMatchers|
            invariant forall j :: 0 <= j < i ==> !Contains(ipMatchers[j], ip)
          {
            if Contains(ipMatchers[i], ip) {
              return true;
            }
          }
          return false;
        case Name(n) =>
          if n == "" {
            return false;
          }
          var h := ToLower(TrimSuffix(n, "."));
          for i := 0 to |domains|
            invariant forall j :: 0 <= j < i ==> !Matches(h, domains[j])
          {
            if h == domains[i] || HasSuffix(h, "." + domains[i]) {
              return true;
            }
          }
          return false;
      }
    }
  }

  // ----- The kernel's table -----

  datatype Hop = Gateway | Tunnel

  type Table = map<Prefix, Hop>

  const DEFAULT: Prefix := Prefix(0, 0)
  const LOW_HALF: Prefix := Prefix(0, 1)            // 0.0.0.0/1
  const HIGH_HALF: Prefix := Prefix(0x8000_0000, 1) // 128.0.0.0/1

  /** The route of the longest prefix, no longer than `len`, that holds `ip`. */
  function Lookup(t: Table, ip: Ip, len: nat): Option<Hop>
    requires len <= 32
  {
    var p := Prefix(Mask(ip, len), len);
    if p in t then Some(t[p]) else if len == 0 then None else Lookup(t, ip, len - 1)
  }

  /** Lookup is longest-prefix match. */
  lemma {:induction false} LookupIsLongest(t: Table, ip: Ip, len: nat)
    requires len <= 32
    ensures Lookup(t, ip, len).None? <==> forall p :: p in t && p.len <= len ==> !Contains(p, ip)
    ensures Lookup(t, ip, len).Some? ==>
      exists p :: p in t && p.len <= len && Contains(p, ip) && t[p] == Lookup(t, ip, len).value
        && forall q :: q in t && q.len <= len && Contains(q, ip) ==> q.len <= p.len
  {
    var p := Prefix(Mask(ip, len), len);
    if p in t {
      assert Contains(p, ip);
    } else if len > 0 {
      LookupIsLongest(t, ip, len - 1);
      assert forall q :: q in t && q.len == len && Contains(q, ip) ==> q == p;
    }
  }

  function Replaced(t: Table, ps: seq<Prefix>): Table {
    if ps == [] then t else Replaced(t, ps[..|ps| - 1])[ps[|ps| - 1] := Gateway]
  }

  function AddedIfAbsent(t: Table, p: Prefix): Table { if p in t then t else t[p := Tunnel] }

  function Tunnelled(t: Table): Table { AddedIfAbsent(AddedIfAbsent(t, LOW_HALF), HIGH_HALF) }

  function Without(t: Table, ps: seq<Prefix>): Table {
    if ps == [] then t else Without(t, ps[..|ps| - 1]) - {ps[|ps| - 1]}
  }

  function Kept(ps: seq<Prefix>, refused: set<Prefix>): (r: seq<Prefix>)
    ensures forall p :: p in r <==> p in ps && p !in refused
  {
    if ps == [] then []
    else
      assert ps == ps[..|ps| - 1] + [ps[|ps| - 1]];
      Kept(ps[..|ps| - 1], refused) + if ps[|ps| - 1] in refused then [] else [ps[|ps| - 1]]
  }

  /** The kernel table and the lists in which the program notes its routes;
      `refused` are the prefixes netlink will not set. */
  class Routes {
    var table: Table
    var splitRoutes: seq<Prefix>
    var routedTurnIPs: seq<Prefix>
    const refused: set<Prefix>

    constructor (table: Table, refused: set<Prefix>)
      ensures this.table == table && splitRoutes == [] && routedTurnIPs == [] && this.refused == refused
    {
      this.table, splitRoutes, routedTurnIPs, this.refused := table, [], [], refused;
    }

    method RouteViaGateway(p: Prefix) returns (ok: bool)
      modifies this`table
      ensures ok == (p !in refused)
      ensures table == if ok then old(table)[p := Gateway] else old(table)
    {
      ok := p !in refused;
      if ok {
        table := table[p := Gateway];
      }
    }

    method ApplyTurnIPsBypass(turnIPs: seq<Prefix>)
      modifies this`table, this`routedTurnIPs
      ensures routedTurnIPs == Kept(turnIPs, refused)
      ensures table == Replaced(old(table), routedTurnIPs)
    {
      routedTurnIPs := [];
      for i := 0 to |turnIPs|
        invariant routedTurnIPs == Kept(turnIPs[..i], refused)
        invariant table == Replaced(old(table), routedTurnIPs)
      {
        assert turnIPs[..i + 1][..i] == turnIPs[..i];
        var ok := RouteViaGateway(turnIPs[i]);
        if ok {
          assert (routedTurnIPs + [turnIPs[i]])[..|routedTurnIPs|] == routedTurnIPs;
          routedTurnIPs := routedTurnIPs + [turnIPs[i]];
        }
      }
      assert turnIPs[..|turnIPs|] == turnIPs;
    }

    method AddKernelBypassRoutes(ips: seq<Prefix>) returns (routes: seq<Prefix>)
      modifies this`table, this`splitRoutes
      ensures routes == Kept(ips, refused) && splitRoutes == old(splitRoutes) + routes
      ensures table == Replaced(old(table), routes)
    {
      routes := [];
      for i := 0 to |ips|
        invariant routes == Kept(ips[..i], refused) && splitRoutes == old(splitRoutes) + routes
        invariant table == Replaced(old(table), routes)
      {
        assert ips[..i + 1][..i] == ips[..i];
        var ok := RouteViaGateway(ips[i]);
        if ok {
          assert (routes + [ips[i]])[..|routes|] == routes;
          splitRoutes := splitRoutes + [ips[i]];
          routes := routes + [ips[i]];
        }
      }
      assert ips[..|ips|] == ips;
    }

    /** The route part of applyWGConfig, when there is a default gateway. */
    method Apply(turnIPs: seq<Prefix>, ips: seq<Prefix>)
      modifies this
      ensures routedTurnIPs == Kept(turnIPs, refused) && splitRoutes == old(splitRoutes) + Kept(ips, refused)
      ensures table == Installed(old(table), Kept(turnIPs, refused), Kept(ips, refused))
    {
      ApplyTurnIPsBypass(turnIPs);
      var _ := AddKernelBypassRoutes(ips);
      if LOW_HALF !in table {
        table := table[LOW_HALF := Tunnel];
      }
      if HIGH_HALF !in table {
        table := table[HIGH_HALF := Tunnel];
      }
    }

    /** teardownTunnelRoutes. */
    method Teardown()
      modifies this
      ensures splitRoutes == [] && routedTurnIPs == []
      ensures table == Without(Without(old(table), old(splitRoutes)), old(routedTurnIPs)) - {LOW_HALF, HIGH_HALF}
    {
      for i := 0 to |splitRoutes|
        invariant splitRoutes == old(splitRoutes) && routedTurnIPs == old(routedTurnIPs)
        invariant table == Without(old(table), splitRoutes[..i])
      {
        assert splitRoutes[..i + 1][..i] == splitRoutes[..i];
        table := table - {splitRoutes[i]};
      }
      assert splitRoutes[..|splitRoutes|] == splitRoutes;
      splitRoutes := [];
      ghost var cleared := table;
      for i := 0 to |routedTurnIPs|
        invariant splitRoutes == [] && routedTurnIPs == old(routedTurnIPs)
        invariant table == Without(cleared, routedTurnIPs[..i])
      {
        assert routedTurnIPs[..i + 1][..i] == routedTurnIPs[..i];
        table := table - {routedTurnIPs[i]};
      }
      assert routedTurnIPs[..|routedTurnIPs|] == routedTurnIPs;
      routedTurnIPs := [];
      table := table - {LOW_HALF, HIGH_HALF};
    }
  }

  // ----- The two decisions compared -----

  /** The table after Apply, of a machine whose own table was `t`. */
  function Installed(t: Table, turn: seq<Prefix>, bypass: seq<Prefix>): Table {
    Tunnelled(Replaced(Replaced(t, turn), bypass))
  }

  ghost predicate Sized(t: Table, turn: seq<Prefix>, bypass: seq<Prefix>) {
    forall p :: p in t || p in turn || p in bypass ==> p.len <= 32
  }

  lemma {:induction false} ReplacedKeys(t: Table, ps: seq<Prefix>)
    ensures forall p :: p in Replaced(t, ps) <==> p in t || p in ps
    ensures forall p :: p in Replaced(t, ps) ==> Replaced(t, ps)[p] == if p in ps then Gateway else t[p]
  {
    if ps != [] {
      ReplacedKeys(t, ps[..|ps| - 1]);
      assert ps == ps[..|ps| - 1] + [ps[|ps| - 1]];
    }
  }

  lemma TunnelledRoutes(t: Table)
    ensures var own := Tunnelled(t);
            && (forall p :: p in own <==> p in t || p == LOW_HALF || p == HIGH_HALF)
            && (forall p :: p in own ==> own[p] == if p in t then t[p] else Tunnel)
  {
  }

  lemma InstalledRoutes(t: Table, turn: seq<Prefix>, bypass: seq<Prefix>)
    ensures var own, all := Tunnelled(t), Installed(t, turn, bypass);
            && (forall p :: p in own <==> p in t || p == LOW_HALF || p == HIGH_HALF)
            && (forall p :: p in own ==> own[p] == if p in t then t[p] else Tunnel)
            && (forall p :: p in all <==> p in own || p in turn || p in bypass)
            && (forall p :: p in all ==> all[p] == if p in turn || p in bypass then Gateway else own[p])
  {
    ReplacedKeys(t, turn);
    ReplacedKeys(Replaced(t, turn), bypass);
    TunnelledRoutes(t);
    TunnelledRoutes(Replaced(Replaced(t, turn), bypass));
    hide Tunnelled, Replaced;
  }

  /** Some entry at least one bit long holds the address. */
  ghost predicate Covered(ps: seq<Prefix>, ip: Ip)
    requires forall p :: p in ps ==> p.len <= 32
  {
    exists p :: p in ps && p.len >= 1 && Contains(p, ip)
  }

  /** The two half-space routes cover what the default route covers, each address
      exactly once. */
  lemma HalvesCover(ip: Ip)
    ensures Contains(LOW_HALF, ip) <==> !Contains(HIGH_HALF, ip)
    ensures Contains(DEFAULT, ip)
  {
    assert Pow2(31) == 0x8000_0000 by { PowersOfTwo(); }
    assert Pow2(32) == 0x1_0000_0000 by { PowersOfTwo(); }
    var h := Pow2(31);
    assert ip % 0x8000_0000 == if ip < 0x8000_0000 then ip else ip - 0x8000_0000;
    assert ip % 0x1_0000_0000 == ip;
  }

  lemma PowersOfTwo()
    ensures Pow2(0) == 1 && Pow2(8) == 256 && Pow2(16) == 0x1_0000
    ensures Pow2(31) == 0x8000_0000 && Pow2(32) == 0x1_0000_0000
  {
    assert Pow2(4) == 16;
    assert Pow2(8) == 256;
    assert Pow2(12) == 0x1000;
    assert Pow2(16) == 0x1_0000;
    assert Pow2(20) == 0x10_0000;
    assert Pow2(24) == 0x100_0000;
    assert Pow2(28) == 0x1000_0000;
  }

  /** Some entry holds the address that no longer route of the machine, halves
      included, takes it from. */
  ghost predicate Prevails(t: Table, ps: seq<Prefix>, ip: Ip)
    requires forall p :: p in t || p in ps ==> p.len <= 32
  {
    exists p :: p in ps && Contains(p, ip) && Longest(Tunnelled(t), p.len, ip)
  }

  ghost predicate Longest(t: Table, len: nat, ip: Ip)
    requires forall p :: p in t ==> p.len <= 32
  {
    forall q :: q in t && Contains(q, ip) ==> q.len <= len
  }

  /** The route that decides: the longest that holds the address. */
  lemma Deciding(t: Table, ip: Ip) returns (p: Prefix)
    requires (forall q :: q in t ==> q.len <= 32) && LOW_HALF in t && HIGH_HALF in t
    ensures p in t && Contains(p, ip) && Longest(t, p.len, ip) && p.len >= 1 && Lookup(t, ip, 32) == Some(t[p])
  {
    LookupIsLongest(t, ip, 32);
    HalvesCover(ip);
    hide Contains, Lookup;
    p :| p in t && Contains(p, ip) && t[p] == Lookup(t, ip, 32).value
      && forall q :: q in t && q.len <= 32 && Contains(q, ip) ==> q.len <= p.len;
  }

  /** Over any table of the machine's own: the kernel sends an address to the
      gateway iff a routed TURN or bypass entry prevails on it, or the table and
      the two halves would send it there. Every other address goes to the tunnel. */
  lemma KernelDecision(t: Table, turn: seq<Prefix>, bypass: seq<Prefix>, ip: Ip)
    requires Sized(t, turn, bypass)
    ensures Lookup(Tunnelled(t), ip, 32).Some?
    ensures Lookup(Installed(t, turn, bypass), ip, 32)
         == if Prevails(t, turn, ip) || Prevails(t, bypass, ip) then Some(Gateway) else Lookup(Tunnelled(t), ip, 32)
  {
    InstalledRoutes(t, turn, bypass);
    var own, all := Tunnelled(t), Installed(t, turn, bypass);
    hide Installed, Tunnelled, Contains, Lookup;
    var p := Deciding(all, ip);
    var o := Deciding(own, ip);
    if p in turn || p in bypass {
      assert Longest(own, p.len, ip);
    } else {
      SameLength(p, o, ip);
      if Prevails(t, turn, ip) || Prevails(t, bypass, ip) {
        var q :| (q in turn || q in bypass) && Contains(q, ip) && Longest(own, q.len, ip);
        assert Longest(own, q.len, ip) && q in all && p in own;
        SameLength(p, q, ip);
        assert false;
      }
    }
  }

  lemma SameLength(p: Prefix, q: Prefix, ip: Ip)
    requires p.len == q.len <= 32 && Contains(p, ip) && Contains(q, ip)
    ensures p == q
  {
  }

  /** No route of the machine's own leads into the tunnel. */
  predicate Untunnelled(t: Table) { forall p :: p in t ==> t[p] == Gateway }

  /** Of such a machine: the gateway gets what a TURN entry, a bypass entry or a
      route of its own, of length 1 or more, holds. */
  lemma GatewayExactly(t: Table, turn: seq<Prefix>, bypass: seq<Prefix>, ip: Ip)
    requires Sized(t, turn, bypass) && Untunnelled(t)
    ensures Lookup(Installed(t, turn, bypass), ip, 32)
         == Some(if Covered(turn, ip) || Covered(bypass, ip) || OwnRoute(t, ip) then Gateway else Tunnel)
  {
    InstalledRoutes(t, turn, bypass);
    var all := Installed(t, turn, bypass);
    hide Installed, Tunnelled, Contains, Lookup;
    var p := Deciding(all, ip);
    if Covered(turn, ip) || Covered(bypass, ip) || OwnRoute(t, ip) {
      var q :| (q in turn || q in bypass || q in t) && q.len >= 1 && Contains(q, ip);
      if p.len == q.len {
        SameLength(p, q, ip);
      }
    }
  }

  /** The machine has a route of its own to the address, longer than a default
      route. */
  ghost predicate OwnRoute(t: Table, ip: Ip)
    requires forall p :: p in t ==> p.len <= 32
  {
    exists p :: p in t && p.len >= 1 && Contains(p, ip)
  }

  /** For every address outside the TURN routes, the kernel and the router built
      from the same bypass list decide alike, unless the machine has a route of
      its own to the address that the list does not name (the router says tunnel,
      the kernel goes direct), or only a /0 entry holds it (the other way round). */
  lemma DecisionsAgreeExactly(t: Table, turn: seq<Prefix>, bypass: seq<Prefix>, ip: Ip)
    requires Sized(t, turn, bypass) && Untunnelled(t)
    requires !Covered(turn, ip)
    ensures (Lookup(Installed(t, turn, bypass), ip, 32) == Some(Gateway) <==> AnyContains(bypass, ip))
       <==> if OwnRoute(t, ip) then AnyContains(bypass, ip) else DEFAULT in bypass ==> Covered(bypass, ip)
  {
    GatewayExactly(t, turn, bypass, ip);
    HalvesCover(ip);
    hide Installed, Lookup;
    if AnyContains(bypass, ip) && !Covered(bypass, ip) {
      var i :| 0 <= i < |bypass| && Contains(bypass[i], ip);
      SameLength(bypass[i], DEFAULT, ip);
    }
    if Covered(bypass, ip) {
      var p :| p in bypass && p.len >= 1 && Contains(p, ip);
      var i :| 0 <= i < |bypass| && bypass[i] == p;
    }
    if DEFAULT in bypass {
      var i :| 0 <= i < |bypass| && bypass[i] == DEFAULT;
      assert Contains(bypass[i], ip);
    }
  }

  /** With no /0 entry, and a bypass list that names the machine's own networks,
      the two decisions agree on every address outside the TURN routes. */
  lemma DecisionsAgree(t: Table, turn: seq<Prefix>, bypass: seq<Prefix>)
    requires Sized(t, turn, bypass) && Untunnelled(t)
    requires DEFAULT !in bypass && forall p :: p in t && p.len >= 1 ==> p in bypass
    ensures forall ip: Ip :: !AnyContains(turn, ip) ==>
              (Lookup(Installed(t, turn, bypass), ip, 32) == Some(Gateway) <==> AnyContains(bypass, ip))
  {
    hide Installed, Contains, Lookup;
    forall ip: Ip | !AnyContains(turn, ip)
      ensures Lookup(Installed(t, turn, bypass), ip, 32) == Some(Gateway) <==> AnyContains(bypass, ip)
    {
      assert forall p :: p in turn ==> exists i :: 0 <= i < |turn| && turn[i] == p;
      assert forall p :: p in bypass ==> exists i :: 0 <= i < |bypass| && bypass[i] == p;
      DecisionsAgreeExactly(t, turn, bypass, ip);
    }
  }

  lemma {:induction false} WithoutKeys(t: Table, ps: seq<Prefix>)
    ensures Without(t, ps) == map p | p in t && p !in ps :: t[p]
  {
    if ps != [] {
      WithoutKeys(t, ps[..|ps| - 1]);
      assert ps == ps[..|ps| - 1] + [ps[|ps| - 1]];
    }
  }

  /** The table after Apply and Teardown. */
  function TornDown(t: Table, turn: seq<Prefix>, bypass: seq<Prefix>): Table {
    Without(Without(Installed(t, turn, bypass), bypass), turn) - {LOW_HALF, HIGH_HALF}
  }

  lemma TornDownRoutes(t: Table, turn: seq<Prefix>, bypass: seq<Prefix>)
    ensures TornDown(t, turn, bypass)
         == map p | p in t && p !in turn && p !in bypass && p != LOW_HALF && p != HIGH_HALF :: t[p]
  {
    InstalledRoutes(t, turn, bypass);
    WithoutKeys(Installed(t, turn, bypass), bypass);
    WithoutKeys(Without(Installed(t, turn, bypass), bypass), turn);
  }

  /** Teardown undoes Apply, over any table of the machine's own, exactly when
      neither half nor any routed entry was in it already. */
  lemma TeardownRestores(t: Table, turn: seq<Prefix>, bypass: seq<Prefix>)
    ensures TornDown(t, turn, bypass) == t
       <==> LOW_HALF !in t && HIGH_HALF !in t && forall p :: p in turn || p in bypass ==> p !in t
  {
    TornDownRoutes(t, turn, bypass);
    hide TornDown;
    if p :| p in t && p !in TornDown(t, turn, bypass) {
      assert TornDown(t, turn, bypass) != t;
    }
  }

  /** What fails: a bypass entry for a network the machine has a route to, the
      local one or 0.0.0.0/0 for instance, takes that route away with it. */
  lemma OwnRouteIsLost(t: Table, lan: Prefix)
    requires lan in t
    ensures TornDown(t, [], [lan]) == t - {lan, LOW_HALF, HIGH_HALF}
  {
    TornDownRoutes(t, [], [lan]);
  }

  // ----- Domain names -----

  ghost predicate IsLabelSuffix(d: seq<string>, h: seq<string>) { |d| <= |h| && h[|h| - |d|..] == d }

  /** The suffix test is the label test: h is d or a name below d. */
  lemma MatchesIsLabelSuffix(h: string, d: string)
    ensures Matches(h, d) <==> IsLabelSuffix(Split(d, '.'), Split(h, '.'))
  {
    var hs, ds := Split(h, '.'), Split(d, '.');
    hide Split, Join;
    if HasSuffix(h, "." + d) {
      var x := h[..|h| - |d| - 1];
      assert h == x + ['.'] + d by { assert h == h[..|h| - |d| - 1] + h[|h| - |d| - 1..]; }
      SplitConcat(x, d, '.');
    }
    if IsLabelSuffix(ds, hs) {
      SplitParts(h, '.');
      SplitParts(d, '.');
      var front := hs[..|hs| - |ds|];
      assert hs == front + ds;
      if front != [] {
        JoinAppend(front, ds, '.');
        assert h[|h| - |d| - 1..] == ['.'] + d;
      }
    }
  }

  /** For a host name the router answers direct iff some listed name is, label by
      label, the host or an ancestor of it, ignoring case, the blanks around the
      listed name and one trailing dot of the host. */
  lemma RouterMatchesLabels(domains: seq<string>, name: string)
    ensures AnyMatches(CleanDomains(domains), ToLower(TrimSuffix(name, ".")))
       <==> exists i :: 0 <= i < |domains| &&
              IsLabelSuffix(Split(ToLower(TrimSpace(domains[i])), '.'), Split(ToLower(TrimSuffix(name, ".")), '.'))
  {
    var h := ToLower(TrimSuffix(name, "."));
    forall i | 0 <= i < |domains|
      ensures Matches(h, CleanDomains(domains)[i])
         <==> IsLabelSuffix(Split(ToLower(TrimSpace(domains[i])), '.'), Split(h, '.'))
    {
      MatchesIsLabelSuffix(h, CleanDomains(domains)[i]);
    }
  }
}
