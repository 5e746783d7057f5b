/** Tunnel sessions: both sides number the requests alike, and every stream one side opens is one the
    other side is to serve. */
module Tunnel {
  import opened Net
  import opened TunnelStream
  import Allow

  const L: Byte := 76
  const R: Byte := 82

  /** One side after the exchange: its role, its own requests and those it read. */
  datatype Side = Side(isServer: bool, mine: seq<Request>, theirs: seq<Request>, peerAccepts: bool)

  /** The combined list (client's requests first) and where one's own start in it. */
  function Combined(a: Side): seq<Request> { if a.isServer then a.theirs + a.mine else a.mine + a.theirs }
  function Start(a: Side): nat { if a.isServer then |a.theirs| else 0 }

  predicate Mine(a: Side, i: nat) { Start(a) <= i < Start(a) + |a.mine| }

  /** This side opens a listener for request `i`; `allowed` is its allowlist's word on the address. */
  predicate Listens(a: Side, i: nat, allowed: bool)
    requires i < |Combined(a)|
  {
    if Mine(a, i) then Combined(a)[i].typ != R && a.peerAccepts
    else Combined(a)[i].typ != L && allowed
  }

  /** This side serves a stream that names request `i`. */
  predicate Serves(a: Side, i: nat)
    requires i < |Combined(a)|
  {
    !(Combined(a)[i].typ == L && Mine(a, i)) && !(Combined(a)[i].typ == R && !Mine(a, i))
  }

  /** The two-byte stream header. */
  function Header(i: nat): Bytes
    requires i < 0x1_0000
  {
    [i / 256, i % 256]
  }

  function Index(header: Bytes): nat
    requires |header| == 2
  {
    header[0] as nat * 256 + header[1] as nat
  }

  /** What a lossless exchange leaves the two sides with. */
  ghost predicate Exchanged(client: Side, server: Side) {
    && !client.isServer && server.isServer
    && ParseConfig(RenderConfig(server.peerAccepts, client.mine)) == Ok((server.peerAccepts, server.theirs))
    && ParseConfig(RenderConfig(client.peerAccepts, server.mine)) == Ok((client.peerAccepts, client.theirs))
  }

  ghost predicate Sendable(reqs: seq<Request>) {
    |reqs| <= MAX_REQUESTS && forall r :: r in reqs ==> WellFormed(r) && SP !in r.listen
  }

  lemma ConfigArrives(flag: bool, reqs: seq<Request>)
    requires Sendable(reqs)
    ensures ParseConfig(RenderConfig(flag, reqs)) == Ok((flag, reqs))
  {
    hide ParseAccept, ParseFrom, RenderConfig, WellFormed;
    ConfigRoundTrip(flag, reqs);
  }

  /** Each side holds the other's requests, all of a known type and no more than allowed. */
  ghost predicate Paired(client: Side, server: Side) {
    && !client.isServer && server.isServer
    && client.theirs == server.mine && server.theirs == client.mine
    && |client.mine| <= MAX_REQUESTS && |server.mine| <= MAX_REQUESTS
    && forall i :: 0 <= i < |Combined(client)| ==> Combined(client)[i].typ == L || Combined(client)[i].typ == R
  }

  /** A lossless exchange pairs the two sides. */
  lemma ExchangePairs(client: Side, server: Side)
    requires Exchanged(client, server) && Sendable(client.mine) && Sendable(server.mine)
    ensures Paired(client, server)
  {
    hide ParseConfig, RenderConfig;
    ConfigArrives(server.peerAccepts, client.mine);
    ConfigArrives(client.peerAccepts, server.mine);
    var all := client.mine + server.mine;
    forall i | 0 <= i < |all| ensures all[i].typ == L || all[i].typ == R {
      assert all[i] in client.mine || all[i] in server.mine;
    }
  }

  /** After the exchange both sides hold one list; every index is one side's own, fits the header and
      comes back from it; a stream for an index that one side listens on is served by the other and not
      by itself. */
  lemma IndexAgreement(client: Side, server: Side, i: nat, allowed: bool)
    requires Paired(client, server) && i < |Combined(client)|
    ensures Combined(client) == Combined(server)
    ensures Mine(client, i) != Mine(server, i)
    ensures i < 0x1_0000 && Index(Header(i)) == i
    ensures Listens(client, i, allowed) ==> Serves(server, i) && !Serves(client, i)
    ensures Listens(server, i, allowed) ==> Serves(client, i) && !Serves(server, i)
  {
    assert Combined(client)[i].typ == L || Combined(client)[i].typ == R;
  }

  /** Every index is served by exactly one side and listened on by at most the other; it is listened on if and only if,
      for an `L`, the peer of the side that asked accepts, and for an `R`, the allowlist of the other side has it. */
  lemma OneListener(client: Side, server: Side, i: nat, okClient: bool, okServer: bool)
    requires Paired(client, server) && i < |Combined(client)|
    ensures i < |Combined(server)| && Serves(client, i) != Serves(server, i)
    ensures !(Listens(client, i, okClient) && Listens(server, i, okServer))
    ensures var owner, other := if Mine(client, i) then client else server, if Mine(client, i) then server else client;
            var ok := if Mine(client, i) then okServer else okClient;
            && (Listens(client, i, okClient) || Listens(server, i, okServer) <==>
                if Combined(client)[i].typ == L then owner.peerAccepts else ok)
            && (Combined(client)[i].typ == L ==> Serves(other, i))
            && (Combined(client)[i].typ == R ==> Serves(owner, i))
  {
    assert Combined(client)[i].typ == L || Combined(client)[i].typ == R;
  }

  // ---- serving a stream ----

  datatype Attempt = Own(target: Bytes) | Pinned(ip: Ip, port: nat)

  /** Everything a stream may make this side dial, in order. */
  ghost function Targets(a: Side, allow: Allow.TunnelAllow, port: Bytes -> Option<nat>, header: Bytes): seq<Attempt>
    requires |header| == 2
  {
    var i := Index(header);
    if i >= |Combined(a)| || !Serves(a, i) then []
    else if Mine(a, i) then [Own(Combined(a)[i].target)]
    else match Allow.Allowed(allow.resolve, allow.all, allow.forward, Combined(a)[i].target)
      case None => []
      case Some((ips, p)) =>
        match port(p)
        case None => []
        case Some(n) => seq(|ips|, j requires 0 <= j < |ips| => Pinned(ips[j], n))
  }

  /** Dials the allowed targets one after the other until one connects. */
  method ServeStream(a: Side, allow: Allow.TunnelAllow, port: Bytes -> Option<nat>, header: Bytes,
                     connects: Attempt -> bool)
    returns (tried: seq<Attempt>)
    requires |header| == 2 && allow.Valid()
    ensures tried <= Targets(a, allow, port, header)
    ensures forall j :: 0 <= j < |tried| - 1 ==> !connects(tried[j])
    ensures tried == Targets(a, allow, port, header) || (tried != [] && connects(tried[|tried| - 1]))
  {
    tried := [];
    var i := Index(header);
    if i >= |Combined(a)| {
      return;
    }
    var req := Combined(a)[i];
    if req.typ == L && Mine(a, i) {
      return;
    }
    if req.typ == R && !Mine(a, i) {
      return;
    }
    if Mine(a, i) {
      return [Own(req.target)];
    }
    var allowed := allow.ForwardIps(req.target);
    if allowed.None? {
      return;
    }
    var n := port(allowed.value.1);
    if n.None? {
      return;
    }
    var ips := allowed.value.0;
    for j := 0 to |ips|
      invariant |tried| == j && forall k :: 0 <= k < j ==> tried[k] == Pinned(ips[k], n.value) && !connects(tried[k])
    {
      tried := tried + [Pinned(ips[j], n.value)];
      if connects(tried[j]) {
        return;
      }
    }
  }

  /** A stream for a request of one's own makes this side dial its target if it is an `R` and nothing if it is an `L`;
      one for an `R` of the peer, or for no request at all, makes it dial nothing. */
  lemma OwnTargets(a: Side, allow: Allow.TunnelAllow, port: Bytes -> Option<nat>, header: Bytes)
    requires |header| == 2
    ensures var i := header[0] as nat * 256 + header[1] as nat; var dialled := Targets(a, allow, port, header);
            if i >= |Combined(a)| then dialled == []
            else if Mine(a, i) then
              && (Combined(a)[i].typ == L ==> dialled == [])
              && (Combined(a)[i].typ == R ==> dialled == [Own(Combined(a)[i].target)])
            else Combined(a)[i].typ == R ==> dialled == []
  {
  }

  /** For a request of the peer that is not an `R` an address is dialled if and only if the target's host resolves
      to it, the allowlist permits it, and the port is a number; that is then the port dialled. */
  lemma PeerTargetsIff(a: Side, allow: Allow.TunnelAllow, port: Bytes -> Option<nat>, header: Bytes, t: Attempt)
    requires |header| == 2
    requires Index(header) < |Combined(a)| && !Mine(a, Index(header)) && Combined(a)[Index(header)].typ != R
    ensures t in Targets(a, allow, port, header) <==>
            t.Pinned? &&
            match Allow.Address.Split(Combined(a)[Index(header)].target)
            case None => false
            case Some((host, p)) =>
              && t.ip in allow.resolve(host) && port(p) == Some(t.port)
              && (allow.all || Allow.Permitted(allow.resolve, allow.forward, t.ip, p))
  {
    hide Allow.Permitted, Allow.Filtered;
    var addr := Combined(a)[Index(header)].target;
    if t.Pinned? { Allow.AllowedIff(allow.resolve, allow.all, allow.forward, addr, t.ip); }
    var allowed := Allow.Allowed(allow.resolve, allow.all, allow.forward, addr);
    if allowed.Some? && port(allowed.value.1).Some? {
      var ips, n, ts := allowed.value.0, port(allowed.value.1).value, Targets(a, allow, port, header);
      assert forall j :: 0 <= j < |ips| ==> ts[j] == Pinned(ips[j], n);
      if t.Pinned? && t.port == n && t.ip in ips {
        var j :| 0 <= j < |ips| && ips[j] == t.ip;
        assert ts[j] == t;
      }
    }
  }

  /** And they are dialled in the resolver's order: `at` are the places of the permitted addresses, ascending. */
  lemma PeerTargetsOrder(a: Side, allow: Allow.TunnelAllow, port: Bytes -> Option<nat>, header: Bytes)
    returns (at: seq<nat>)
    requires |header| == 2
    requires Index(header) < |Combined(a)| && !Mine(a, Index(header)) && Combined(a)[Index(header)].typ != R
    ensures match Allow.Address.Split(Combined(a)[Index(header)].target)
            case None => Targets(a, allow, port, header) == []
            case Some((host, p)) =>
              var ips, ts := allow.resolve(host), Targets(a, allow, port, header);
              if port(p).None? then ts == []
              else
                && |ts| == |at| && (forall k, l :: 0 <= k < l < |at| ==> at[k] < at[l])
                && (forall k :: 0 <= k < |at| ==> at[k] < |ips| && ts[k] == Pinned(ips[at[k]], port(p).value))
                && forall j :: 0 <= j < |ips| ==>
                    (j in at <==> allow.all || Allow.Permitted(allow.resolve, allow.forward, ips[j], p))
  {
    hide Allow.Permitted, Allow.Filtered;
    at := [];
    match Allow.Address.Split(Combined(a)[Index(header)].target)
    case None =>
    case Some((host, p)) =>
      var ips := allow.resolve(host);
      if allow.all {
        at := seq(|ips|, j => j);
        forall j | 0 <= j < |ips| ensures j in at { assert at[j] == j; }
      } else {
        at := Allow.FilteredOrder(allow.resolve, allow.forward, ips, p);
      }
  }
}
