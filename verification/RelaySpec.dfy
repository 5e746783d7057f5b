/** The relay as a counter-free state machine over flat tables.

    Every table of the server appears once, unsharded, and every tally the server maintains
    beside its tables (rooms alive, pending entries, pending entries per host, ...) is replaced
    by the cardinality it stands for. One packet or one timer tick is one step; a step sees one
    value of the clock, and the cookie it may issue is an input. */
module RelaySpec {
  import opened Net
  import opened Limiters

  type Room = Bytes
  type Cookie = Bytes

  const NUM_SHARDS: nat := 16
  type ShardId = i: nat | i < 16

  const PENDING_REG_TTL: nat := 5_000
  const COOKIE_BYTES: nat := 16

  /** Limits, the host key, and the shard a host's REG limiter lives in. The results below hold
      for every key and every placement. */
  datatype Config = Config(
    ipKey: Addr -> Ip,
    regShard: Ip -> ShardId,
    maxRooms: nat,
    maxRoomsPerIp: nat,
    maxClientsHard: nat,
    maxPerPrefix: nat,
    maxPendingPerIp: nat,
    maxPendingGlobal: nat,
    maxPendingPerRoom: nat,
    maxMsgRate: nat,
    maxRegRate: nat,
    rateWindow: nat,
    regTtl: nat)

  datatype Client = Client(lastSeen: nat, limiter: Meter, resolved: Option<Addr>)
  datatype PendingReg = PendingReg(cookie: Cookie, createdAt: nat, resolved: Addr)
  datatype RoomView = RoomView(clients: map<Addr, Client>, pending: map<Addr, PendingReg>, t: nat)

  type Link = (Ip, Room)
  type PendKey = (Room, Addr)

  datatype State = State(
    rooms: map<Room, RoomView>,
    links: set<Link>,
    pending: map<PendKey, PendingReg>,
    reg: seq<map<Ip, Meter>>)

  datatype Reason =
    | RateLimited | BadCookie | MismatchedCookie | ExpiredCookie
    | RoomsPerIp | PendingPerIp | PendingFull | MaxRooms | HardCap | PrefixCap

  datatype Reply = Dropped(why: Reason) | Challenge(cookie: Cookie) | Regd

  // ---- tallies, as cardinalities ----

  function LinkedTo(links: set<Link>, ip: Ip): set<Room> { set l | l in links && l.0 == ip :: l.1 }

  function PendingFrom(cfg: Config, keys: set<PendKey>, ip: Ip): set<PendKey> {
    set k | k in keys && cfg.ipKey(k.1) == ip
  }

  function Bucket(cfg: Config, addrs: set<Addr>, ip: Ip): set<Addr> {
    set a | a in addrs && cfg.ipKey(a) == ip
  }

  // ---- sweeping ----

  predicate Expired(p: PendingReg, now: nat) { Since(now, p.createdAt) > PENDING_REG_TTL }
  predicate Stale(cfg: Config, c: Client, now: nat) { Since(now, c.lastSeen) > cfg.regTtl }

  /** `remove_stale_clients`: the room after it. */
  function Swept(cfg: Config, v: RoomView, now: nat): RoomView {
    RoomView(
      map a | a in v.clients && !Stale(cfg, v.clients[a], now) :: v.clients[a],
      map a | a in v.pending && !Expired(v.pending[a], now) :: v.pending[a],
      v.t)
  }

  /** No other address here belongs to `a`'s host. */
  predicate Sole(cfg: Config, addrs: set<Addr>, a: Addr) {
    forall b :: b in addrs && b != a ==> cfg.ipKey(b) != cfg.ipKey(a)
  }

  /** `remove_stale_clients`: the hosts it unlinks. A host is unlinked for a stale client that was
      its only client in the room before anything was removed. */
  function Unlinked(cfg: Config, v: RoomView, now: nat): set<Ip> {
    set a | a in v.clients && Stale(cfg, v.clients[a], now) && Sole(cfg, v.clients.Keys, a) :: cfg.ipKey(a)
  }

  function Without(links: set<Link>, ips: set<Ip>, r: Room): set<Link> {
    set l | l in links && !(l.1 == r && l.0 in ips)
  }

  function SweepRoom(cfg: Config, s: State, r: Room, now: nat): State
    requires r in s.rooms
  {
    s.(rooms := s.rooms[r := Swept(cfg, s.rooms[r], now)],
       links := Without(s.links, Unlinked(cfg, s.rooms[r], now), r))
  }

  /** A room outlives a sweep while it has a fresh client or was used recently. */
  predicate Survives(cfg: Config, v: RoomView, now: nat) {
    Swept(cfg, v, now).clients != map[] || Since(now, v.t) <= cfg.regTtl
  }

  function SweptRooms(cfg: Config, rooms: map<Room, RoomView>, now: nat): map<Room, RoomView> {
    map r | r in rooms && Survives(cfg, rooms[r], now) :: Swept(cfg, rooms[r], now)
  }

  function SweptLinks(cfg: Config, links: set<Link>, rooms: map<Room, RoomView>, now: nat): set<Link> {
    set l | l in links && !(l.1 in rooms && l.0 in Unlinked(cfg, rooms[l.1], now))
  }

  function SweepAll(cfg: Config, s: State, now: nat): State {
    s.(rooms := SweptRooms(cfg, s.rooms, now), links := SweptLinks(cfg, s.links, s.rooms, now))
  }

  // ---- REG ----

  function Fresh(src: Addr, cookie: Cookie, now: nat): PendingReg { PendingReg(cookie, now, src) }
  function NewClient(now: nat, resolved: Addr): Client { Client(now, Meter(0, now), Some(resolved)) }

  /** Record a challenge for a room that does not exist. */
  function Issue(cfg: Config, s: State, room: Room, src: Addr, mint: Cookie, now: nat): (r: (State, Reply))
    ensures r.0.reg == s.reg
  {
    if |PendingFrom(cfg, s.pending.Keys, cfg.ipKey(src))| >= cfg.maxPendingPerIp then (s, Dropped(PendingPerIp))
    else if (room, src) !in s.pending && |s.pending| >= cfg.maxPendingGlobal then (s, Dropped(PendingFull))
    else (s.(pending := s.pending[(room, src) := Fresh(src, mint, now)]), Challenge(mint))
  }

  /** Put `src` in `room`, and link its host to it. */
  function Admit(cfg: Config, s: State, room: Room, src: Addr, resolved: Addr, now: nat): State
    requires room in s.rooms
  {
    var v := s.rooms[room];
    s.(rooms := s.rooms[room := v.(clients := v.clients[src := NewClient(now, resolved)], t := now)],
       links := s.links + {(cfg.ipKey(src), room)})
  }

  /** The first cap that keeps `src` out of a (swept) room, if any. */
  function Refusal(cfg: Config, v: RoomView, links: set<Link>, src: Addr): Option<Reason> {
    var ip := cfg.ipKey(src);
    if src !in v.clients && |v.clients| >= cfg.maxClientsHard then Some(HardCap)
    else if Bucket(cfg, v.clients.Keys, ip) == {} && |LinkedTo(links, ip)| >= cfg.maxRoomsPerIp then Some(RoomsPerIp)
    else if src !in v.clients && |Bucket(cfg, v.clients.Keys, ip)| >= cfg.maxPerPrefix then Some(PrefixCap)
    else None
  }

  function DropPending(s: State, room: Room, src: Addr): State { s.(pending := s.pending - {(room, src)}) }

  /** Completion of a challenge issued before the room existed. */
  function CompleteGlobal(cfg: Config, s0: State, room: Room, src: Addr, resolved: Addr, now: nat): (r: (State, Reply))
    ensures r.0.reg == s0.reg
  {
    var ip := cfg.ipKey(src);
    var s := if |s0.rooms| >= cfg.maxRooms then SweepAll(cfg, s0, now) else s0;
    if room !in s.rooms then
      if |s.rooms| >= cfg.maxRooms then (s, Dropped(MaxRooms))
      else if |LinkedTo(s.links, ip)| >= cfg.maxRoomsPerIp then (s, Dropped(RoomsPerIp))
      else (Admit(cfg, s.(rooms := s.rooms[room := RoomView(map[], map[], now)]), room, src, resolved, now), Regd)
    else
      var s1 := SweepRoom(cfg, s, room, now);
      match Refusal(cfg, s1.rooms[room], s1.links, src)
      case Some(why) => (s1, Dropped(why))
      case None => (Admit(cfg, s1, room, src, resolved, now), Regd)
  }

  function DropRoomPending(s: State, room: Room, src: Addr): State
    requires room in s.rooms
  {
    s.(rooms := s.rooms[room := s.rooms[room].(pending := s.rooms[room].pending - {src})])
  }

  /** Completion of a challenge issued inside an existing room. */
  function CompleteInRoom(cfg: Config, s: State, room: Room, src: Addr, cookie: Cookie, now: nat): (r: (State, Reply))
    requires room in s.rooms
    ensures r.0.reg == s.reg
  {
    var pending := s.rooms[room].pending;
    if src !in pending || pending[src].cookie != cookie then (s, Dropped(MismatchedCookie))
    else if Expired(pending[src], now) then (DropRoomPending(s, room, src), Dropped(ExpiredCookie))
    else
      var s1 := SweepRoom(cfg, s, room, now);
      match Refusal(cfg, s1.rooms[room], s1.links, src)
      case Some(why) => (s1, Dropped(why))
      case None => (Admit(cfg, DropRoomPending(s1, room, src), room, src, pending[src].resolved, now), Regd)
  }

  /** A REG that carries a (well-formed, decoded) cookie. */
  function CookieReg(cfg: Config, s: State, room: Room, src: Addr, cookie: Cookie, mint: Cookie,
                     now: nat): (r: (State, Reply))
    ensures r.0.reg == s.reg
  {
    if (room, src) in s.pending then
      var p := s.pending[(room, src)];
      if p.cookie != cookie then (s, Dropped(MismatchedCookie))
      else if Expired(p, now) then (DropPending(s, room, src), Dropped(ExpiredCookie))
      else CompleteGlobal(cfg, DropPending(s, room, src), room, src, p.resolved, now)
    else if room !in s.rooms then
      if |LinkedTo(s.links, cfg.ipKey(src))| >= cfg.maxRoomsPerIp then (s, Dropped(RoomsPerIp))
      else Issue(cfg, s, room, src, mint, now)
    else CompleteInRoom(cfg, s, room, src, cookie, now)
  }

  function SetRoomPending(s: State, room: Room, src: Addr, p: PendingReg): State
    requires room in s.rooms
  {
    s.(rooms := s.rooms[room := s.rooms[room].(pending := s.rooms[room].pending[src := p])])
  }

  function Touch(s: State, room: Room, src: Addr, now: nat): State
    requires room in s.rooms && src in s.rooms[room].clients
  {
    var v := s.rooms[room];
    var c := v.clients[src].(lastSeen := now, resolved := Some(src));
    s.(rooms := s.rooms[room := v.(clients := v.clients[src := c])])
  }

  /** A REG without a cookie for an existing, freshly swept room. */
  function Knock(cfg: Config, s: State, room: Room, src: Addr, mint: Cookie, now: nat): (r: (State, Reply))
    requires room in s.rooms
    ensures r.0.reg == s.reg
  {
    var v, ip := s.rooms[room], cfg.ipKey(src);
    if src !in v.clients && |v.clients| >= cfg.maxClientsHard then (s, Dropped(HardCap))
    else if src in v.clients then (Touch(s, room, src, now), Regd)
    else if src in v.pending then
      (SetRoomPending(s, room, src, Fresh(src, v.pending[src].cookie, now)), Challenge(v.pending[src].cookie))
    else if |PendingFrom(cfg, s.pending.Keys, ip)| + |Bucket(cfg, v.pending.Keys, ip)| >= cfg.maxPendingPerIp
        then (s, Dropped(PendingPerIp))
    else if |v.pending| >= cfg.maxPendingPerRoom then (s, Dropped(PendingFull))
    else (SetRoomPending(s, room, src, Fresh(src, mint, now)), Challenge(mint))
  }

  /** A REG without a cookie. */
  function PlainReg(cfg: Config, s: State, room: Room, src: Addr, mint: Cookie, now: nat): (r: (State, Reply))
    ensures r.0.reg == s.reg
  {
    if |LinkedTo(s.links, cfg.ipKey(src))| >= cfg.maxRoomsPerIp then (s, Dropped(RoomsPerIp))
    else if room !in s.rooms then Issue(cfg, s, room, src, mint, now)
    else Knock(cfg, SweepRoom(cfg, s, room, now), room, src, mint, now)
  }

  /** The credential of a REG packet: none, undecodable, or 16 bytes. */
  datatype Credential = Absent | Malformed | Presented(cookie: Cookie)

  function RegStep(cfg: Config, s: State, room: Room, cred: Credential, src: Addr, mint: Cookie,
                   now: nat): (r: (State, Reply))
    requires |s.reg| == NUM_SHARDS
    ensures |r.0.reg| == NUM_SHARDS
  {
    var ip := cfg.ipKey(src);
    var i := cfg.regShard(ip);
    var (limited, shard) := RegMeet(s.reg[i], ip, now, cfg.rateWindow, cfg.maxRegRate);
    var s1 := s.(reg := s.reg[i := shard]);
    if limited then (s1, Dropped(RateLimited))
    else match cred
      case Absent => PlainReg(cfg, s1, room, src, mint, now)
      case Malformed => (s1, Dropped(BadCookie))
      case Presented(cookie) => CookieReg(cfg, s1, room, src, cookie, mint, now)
  }

  // ---- MSG ----

  datatype Routing = Refused(why: MsgReason) | Routed(to: set<Addr>)
  datatype MsgReason = UnknownRoom | NotAClient | MsgRateLimited

  /** A well-formed MSG from `src`: who gets the body. */
  function MsgStep(cfg: Config, s: State, room: Room, src: Addr, now: nat): (State, Routing) {
    if room !in s.rooms then (s, Refused(UnknownRoom))
    else if src !in s.rooms[room].clients then (s, Refused(NotAClient))
    else
      var v := s.rooms[room];
      var (limited, m) := Meet(v.clients[src].limiter, now, cfg.rateWindow, cfg.maxMsgRate);
      var s1 := s.(rooms := s.rooms[room := v.(clients := v.clients[src := v.clients[src].(limiter := m)])]);
      if limited then (s1, Refused(MsgRateLimited))
      else (s1, Routed(v.clients.Keys - {src}))
  }

  // ---- timers ----

  function FreshPending<K>(pending: map<K, PendingReg>, now: nat): map<K, PendingReg> {
    map k | k in pending && !Expired(pending[k], now) :: pending[k]
  }

  function RoomTick(cfg: Config, s: State, now: nat): State {
    SweepAll(cfg, s, now).(pending := FreshPending(s.pending, now))
  }

  function SweptShards(reg: seq<map<Ip, Meter>>, now: nat, age: nat): (r: seq<map<Ip, Meter>>)
    ensures |r| == |reg| && forall i :: 0 <= i < |r| ==> r[i] == RegSweep(reg[i], now, age)
  {
    seq(|reg|, i requires 0 <= i < |reg| => RegSweep(reg[i], now, age))
  }

  function RateTick(cfg: Config, s: State, now: nat): State {
    s.(reg := SweptShards(s.reg, now, 2 * cfg.rateWindow))
  }

  // ---- steps and runs ----

  /** One input of the server, already parsed. A datagram that parses to neither a REG nor a MSG
      changes nothing and is not an event. */
  datatype Event =
    | Reg(room: Room, cred: Credential, src: Addr, mint: Cookie, now: nat)
    | Msg(room: Room, src: Addr, now: nat)
    | Sweep(now: nat)
    | RateCleanup(now: nat)

  datatype Outcome = Replied(reply: Reply) | Forwarded(routing: Routing) | Silent

  function Step(cfg: Config, s: State, e: Event): (r: (State, Outcome))
    requires |s.reg| == NUM_SHARDS
    ensures |r.0.reg| == NUM_SHARDS
  {
    match e
    case Reg(room, cred, src, mint, now) =>
      var (s', reply) := RegStep(cfg, s, room, cred, src, mint, now); (s', Replied(reply))
    case Msg(room, src, now) =>
      var (s', routing) := MsgStep(cfg, s, room, src, now); (s', Forwarded(routing))
    case Sweep(now) => (RoomTick(cfg, s, now), Silent)
    case RateCleanup(now) => (RateTick(cfg, s, now), Silent)
  }

  function IdleShards(): (r: seq<map<Ip, Meter>>)
    ensures |r| == NUM_SHARDS && forall i :: 0 <= i < |r| ==> r[i] == map[]
  {
    seq(NUM_SHARDS, _ => map[])
  }

  function Init(): State { State(map[], {}, map[], IdleShards()) }

  /** The state after a whole run from an empty server. */
  function Run(cfg: Config, es: seq<Event>): (s: State)
    ensures |s.reg| == NUM_SHARDS
  {
    if es == [] then Init() else Step(cfg, Run(cfg, es[..|es|-1]), es[|es|-1]).0
  }

  /** What the run answered to its `i`th event. */
  function OutcomeAt(cfg: Config, es: seq<Event>, i: nat): Outcome
    requires i < |es|
  {
    Step(cfg, Run(cfg, es[..i]), es[i]).1
  }
}
