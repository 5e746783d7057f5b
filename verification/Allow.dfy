/** Which addresses a peer may reach through this side. */
module Allow {
  import opened Net
  import Address

  /** A rule of an `-aF` entry; no address means any host on the port. */
  datatype IpRule = IpRule(port: Bytes, ip: Option<Ip>)

  /** The resolver: all addresses of a host name or literal. */
  type Resolver = Bytes -> seq<Ip>

  /** Some entry permits the address: equal port, and no host or a host with that address. */
  ghost predicate Permitted(resolve: Resolver, entries: seq<Bytes>, ip: Ip, port: Bytes) {
    exists e :: e in entries && Permits(resolve, e, ip, port)
  }

  predicate Permits(resolve: Resolver, e: Bytes, ip: Ip, port: Bytes) {
    match Address.Split(e)
    case None => false
    case Some((host, p)) => p == port && (host == [] || ip in resolve(host))
  }

  predicate RuleMatches(r: IpRule, ip: Ip, port: Bytes) { r.port == port && (r.ip.None? || r.ip == Some(ip)) }

  ghost predicate Matches(rules: seq<IpRule>, ip: Ip, port: Bytes) {
    exists i :: 0 <= i < |rules| && RuleMatches(rules[i], ip, port)
  }

  /** The rules say what the entries say. */
  ghost predicate Exact(resolve: Resolver, entries: seq<Bytes>, rules: seq<IpRule>) {
    forall ip, port :: Matches(rules, ip, port) <==> Permitted(resolve, entries, ip, port)
  }

  method MatchForwardIps(rules: seq<IpRule>, ip: Ip, port: Bytes) returns (yes: bool)
    ensures yes == Matches(rules, ip, port)
  {
    for i := 0 to |rules|
      invariant forall j :: 0 <= j < i ==> !RuleMatches(rules[j], ip, port)
    {
      var r := rules[i];
      if r.port != port {
        continue;
      }
      if r.ip.None? || r.ip == Some(ip) {
        assert RuleMatches(rules[i], ip, port);
        return true;
      }
    }
    yes := false;
  }

  /** The rules of one entry. */
  method RulesOf(resolve: Resolver, e: Bytes) returns (rules: seq<IpRule>)
    ensures forall ip, port :: Matches(rules, ip, port) <==> Permits(resolve, e, ip, port)
  {
    rules := [];
    var parts := Address.Split(e);
    if parts.None? {
      return;
    }
    var (host, port) := parts.value;
    if host == [] {
      rules := [IpRule(port, None)];
      assert rules[0] == IpRule(port, None);
      return;
    }
    var ips := resolve(host);
    for i := 0 to |ips|
      invariant |rules| == i && forall j :: 0 <= j < i ==> rules[j] == IpRule(port, Some(ips[j]))
    {
      rules := rules + [IpRule(port, Some(ips[i]))];
    }
    forall ip, q ensures Matches(rules, ip, q) <==> Permits(resolve, e, ip, q) {
      if Permits(resolve, e, ip, q) {
        var j :| 0 <= j < |ips| && ips[j] == ip;
        assert RuleMatches(rules[j], ip, q);
      }
    }
  }

  lemma MatchesConcat(a: seq<IpRule>, b: seq<IpRule>, ip: Ip, port: Bytes)
    ensures Matches(a + b, ip, port) <==> Matches(a, ip, port) || Matches(b, ip, port)
  {
    if Matches(a, ip, port) {
      var i :| 0 <= i < |a| && RuleMatches(a[i], ip, port);
      assert (a + b)[i] == a[i];
    }
    if Matches(b, ip, port) {
      var i :| 0 <= i < |b| && RuleMatches(b[i], ip, port);
      assert (a + b)[|a| + i] == b[i];
    }
  }

  lemma PermittedSnoc(resolve: Resolver, entries: seq<Bytes>, e: Bytes, ip: Ip, port: Bytes)
    ensures Permitted(resolve, entries + [e], ip, port)
            <==> Permitted(resolve, entries, ip, port) || Permits(resolve, e, ip, port)
  {
    hide Permits;
    assert forall x :: x in entries + [e] <==> x in entries || x == e;
  }

  method BuildForwardRules(resolve: Resolver, entries: seq<Bytes>) returns (rules: seq<IpRule>)
    ensures Exact(resolve, entries, rules)
  {
    hide Matches, Permitted, Permits;
    rules := [];
    NoEntries(resolve);
    assert entries[..0] == [];
    for i := 0 to |entries|
      invariant Exact(resolve, entries[..i], rules)
    {
      var more := RulesOf(resolve, entries[i]);
      assert entries[..i + 1] == entries[..i] + [entries[i]];
      forall ip, port ensures Matches(rules + more, ip, port) <==> Permitted(resolve, entries[..i + 1], ip, port) {
        MatchesConcat(rules, more, ip, port);
        PermittedSnoc(resolve, entries[..i], entries[i], ip, port);
      }
      rules := rules + more;
    }
    assert entries[..|entries|] == entries;
  }

  lemma NoEntries(resolve: Resolver)
    ensures Exact(resolve, [], [])
  {
  }

  /** Those of `ips` that are permitted, in order. */
  ghost function Filtered(resolve: Resolver, entries: seq<Bytes>, ips: seq<Ip>, port: Bytes): seq<Ip> {
    if ips == [] then []
    else
      var n := |ips| - 1;
      Filtered(resolve, entries, ips[..n], port) + if Permitted(resolve, entries, ips[n], port) then [ips[n]] else []
  }

  /** The addresses to dial for a target, and the port; `None` is a refusal. */
  ghost function Allowed(resolve: Resolver, all: bool, entries: seq<Bytes>, addr: Bytes): Option<(seq<Ip>, Bytes)> {
    match Address.Split(addr)
    case None => None
    case Some((host, port)) =>
      var ips := if all then resolve(host) else Filtered(resolve, entries, resolve(host), port);
      if ips == [] then None else Some((ips, port))
  }

  lemma {:induction false} FilteredHas(resolve: Resolver, entries: seq<Bytes>, ips: seq<Ip>, port: Bytes, ip: Ip)
    ensures ip in Filtered(resolve, entries, ips, port) <==> ip in ips && Permitted(resolve, entries, ip, port)
  {
    hide Permitted;
    if ips != [] {
      var n := |ips| - 1;
      FilteredHas(resolve, entries, ips[..n], port, ip);
      assert ips == ips[..n] + [ips[n]];
    }
  }

  /** The permitted addresses come in the order of the list, each as often as it is in it: `at` are the places of the
      permitted ones, ascending. */
  lemma {:induction false} FilteredOrder(resolve: Resolver, entries: seq<Bytes>, ips: seq<Ip>, port: Bytes)
    returns (at: seq<nat>)
    ensures |at| == |Filtered(resolve, entries, ips, port)|
    ensures forall k :: 0 <= k < |at| ==> at[k] < |ips| && Filtered(resolve, entries, ips, port)[k] == ips[at[k]]
    ensures forall k, l :: 0 <= k < l < |at| ==> at[k] < at[l]
    ensures forall j :: 0 <= j < |ips| ==> (j in at <==> Permitted(resolve, entries, ips[j], port))
  {
    hide Permitted;
    at := [];
    if ips != [] {
      var n := |ips| - 1;
      at := FilteredOrder(resolve, entries, ips[..n], port);
      if Permitted(resolve, entries, ips[n], port) { at := at + [n]; }
    }
  }

  /** Soundness and completeness: an address is dialled for a target exactly when the target resolves to
      it and `-a` is set or an entry permits it. */
  lemma AllowedIff(resolve: Resolver, all: bool, entries: seq<Bytes>, addr: Bytes, ip: Ip)
    ensures var r := Allowed(resolve, all, entries, addr);
            (r.Some? && ip in r.value.0) <==>
            match Address.Split(addr)
            case None => false
            case Some((host, port)) => ip in resolve(host) && (all || Permitted(resolve, entries, ip, port))
  {
    hide Permitted, Filtered;
    match Address.Split(addr)
    case None =>
    case Some((host, port)) => FilteredHas(resolve, entries, resolve(host), port, ip);
  }

  class TunnelAllow {
    const all: bool
    const forward: seq<Bytes>
    const resolve: Resolver
    var rules: seq<IpRule>

    /** The rules are not built, or built from the entries. */
    ghost predicate Valid()
      reads this
    {
      rules == [] || Exact(resolve, forward, rules)
    }

    constructor (all: bool, forward: seq<Bytes>, resolve: Resolver)
      ensures Valid() && this.all == all && this.forward == forward && this.resolve == resolve && rules == []
    {
      this.all, this.forward, this.resolve, rules := all, forward, resolve, [];
    }

    method Resolve()
      modifies this
      ensures Valid() && Exact(resolve, forward, rules)
    {
      rules := BuildForwardRules(resolve, forward);
    }

    /** The same answer whether the rules were built beforehand or not. */
    method ForwardIps(addr: Bytes) returns (r: Option<(seq<Ip>, Bytes)>)
      requires Valid()
      ensures r == Allowed(resolve, all, forward, addr)
    {
      hide Permitted, Matches;
      var parts := Address.Split(addr);
      if parts.None? {
        return None;
      }
      var (host, port) := parts.value;
      var ips := resolve(host);
      if ips == [] {
        return None;
      }
      if all {
        return Some((ips, port));
      }
      var use := rules;
      if rules == [] && forward != [] {
        use := BuildForwardRules(resolve, forward);
      } else if forward == [] {
        NoEntries(resolve);
      }
      var allowed: seq<Ip> := [];
      assert ips[..0] == [];
      for i := 0 to |ips|
        invariant allowed == Filtered(resolve, forward, ips[..i], port)
      {
        assert ips[..i + 1][..i] == ips[..i];
        var yes := MatchForwardIps(use, ips[i], port);
        if yes {
          allowed := allowed + [ips[i]];
        }
      }
      assert ips[..|ips|] == ips;
      r := if allowed == [] then None else Some((allowed, port));
    }
  }
}
