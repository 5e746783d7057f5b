/** The host index over whole runs: it always covers the rooms a host occupies, and exactly when
    it equals them. */
module RelayIndex {
  import opened Net
  import opened Sizes
  import opened Limiters
  import opened RelaySpec
  import opened RelayInv

  // ---- caps over whole runs ----

  /** Every reachable state satisfies the index and capacity invariants. */
  lemma {:induction false} RunKeeps(cfg: Config, es: seq<Event>)
    requires Positive(cfg)
    ensures Inv(cfg, Run(cfg, es))
    decreases |es|
  {
    if es == [] {
      InitHolds(cfg);
    } else {
      hide Step, Inv;
      var n := |es| - 1;
      RunKeeps(cfg, es[..n]);
      StepKeeps(cfg, Run(cfg, es[..n]), es[n]);
    }
  }

  /** The rooms in which some client has host key `ip`. */
  ghost function Occupied(cfg: Config, rooms: Rooms, ip: Ip): set<Room> {
    set r | r in rooms && Bucket(cfg, rooms[r].clients.Keys, ip) != {}
  }

  /** In every reachable state no host occupies more rooms than the per-host limit. */
  lemma {:induction false} HostRoomBound(cfg: Config, es: seq<Event>, ip: Ip)
    requires Positive(cfg)
    ensures var s := Run(cfg, es);
            Occupied(cfg, s.rooms, ip) <= LinkedTo(s.links, ip) && |Occupied(cfg, s.rooms, ip)| <= cfg.maxRoomsPerIp
  {
    hide Run;
    RunKeeps(cfg, es);
    var s := Run(cfg, es);
    forall r | r in Occupied(cfg, s.rooms, ip) ensures r in LinkedTo(s.links, ip) {
      var a :| a in Bucket(cfg, s.rooms[r].clients.Keys, ip);
      assert (ip, r) in s.links;
    }
    SubsetSize(Occupied(cfg, s.rooms, ip), LinkedTo(s.links, ip));
  }

  // ---- "max rooms" rejections ----

  /** Nobody in the room was heard of within the TTL, and nobody joined it within the TTL. */
  ghost predicate Abandoned(cfg: Config, v: RoomView, now: nat) {
    && (forall a :: a in v.clients ==> Since(now, v.clients[a].lastSeen) > cfg.regTtl)
    && Since(now, v.t) > cfg.regTtl
  }

  lemma SurvivesIff(cfg: Config, v: RoomView, now: nat)
    ensures Survives(cfg, v, now) <==> !Abandoned(cfg, v, now)
  {
    if exists a :: a in v.clients && !Stale(cfg, v.clients[a], now) {
      var a :| a in v.clients && !Stale(cfg, v.clients[a], now);
      assert a in Swept(cfg, v, now).clients;
    }
  }

  /** The rooms a sweep of all rooms leaves. */
  ghost function Survivors(cfg: Config, rooms: Rooms, now: nat): set<Room> {
    set r | r in rooms && !Abandoned(cfg, rooms[r], now)
  }

  lemma SurvivorsAre(cfg: Config, rooms: Rooms, now: nat)
    ensures SweptRooms(cfg, rooms, now).Keys == Survivors(cfg, rooms, now)
  {
    hide Survives, Abandoned, Swept;
    forall r | r in rooms ensures Survives(cfg, rooms[r], now) <==> !Abandoned(cfg, rooms[r], now) {
      SurvivesIff(cfg, rooms[r], now);
    }
  }

  /** A completed challenge is refused for lack of rooms exactly when its own room is not there to
      join and at least `max_rooms` rooms have a fresh client or were used within the TTL. */
  lemma MaxRoomsRefusal(cfg: Config, s: State, room: Room, src: Addr, resolved: Addr, now: nat)
    ensures CompleteGlobal(cfg, s, room, src, resolved, now).1 == Dropped(MaxRooms)
            <==> room !in Survivors(cfg, s.rooms, now) && |Survivors(cfg, s.rooms, now)| >= cfg.maxRooms
  {
    hide Refusal, Admit, SweepRoom, SweptRooms, Abandoned;
    var swept := SweptRooms(cfg, s.rooms, now);
    SurvivorsAre(cfg, s.rooms, now);
    assert |swept| == |swept.Keys|;
    SubsetSize(Survivors(cfg, s.rooms, now), s.rooms.Keys);
    assert |s.rooms| == |s.rooms.Keys|;
    RefusalIsACap(cfg, s, room, src, now);
    RefusalIsACap(cfg, SweepAll(cfg, s, now), room, src, now);
  }

  lemma RefusalIsACap(cfg: Config, s: State, room: Room, src: Addr, now: nat)
    ensures room in s.rooms ==>
              var s1 := SweepRoom(cfg, s, room, now);
              room in s1.rooms && Refusal(cfg, s1.rooms[room], s1.links, src) != Some(MaxRooms)
  {
  }

  // ---- exactness of the index ----

  ghost predicate Present(cfg: Config, v: RoomView, ip: Ip) {
    exists a :: a in v.clients && cfg.ipKey(a) == ip
  }

  /** The index is exactly the occupancy relation. */
  ghost predicate Exact(cfg: Config, rooms: Rooms, links: set<Link>) {
    forall ip, r :: (ip, r) in links <==> r in rooms && Present(cfg, rooms[r], ip)
  }

  /** Host `ip` has at least two clients in the room and all of them are stale. */
  ghost predicate Leaks(cfg: Config, v: RoomView, now: nat, ip: Ip) {
    && (exists a, b :: a in v.clients && b in v.clients && a != b && cfg.ipKey(a) == ip && cfg.ipKey(b) == ip)
    && (forall a :: a in v.clients && cfg.ipKey(a) == ip ==> Stale(cfg, v.clients[a], now))
  }

  lemma SurvivingHost(cfg: Config, v: RoomView, now: nat, ip: Ip)
    requires Present(cfg, Swept(cfg, v, now), ip)
    ensures Present(cfg, v, ip) && ip !in Unlinked(cfg, v, now) && !Leaks(cfg, v, now, ip)
  {
    var a :| a in Swept(cfg, v, now).clients && cfg.ipKey(a) == ip;
    SurvivorStaysLinked(cfg, v, now, a);
    assert a in v.clients && !Stale(cfg, v.clients[a], now);
  }

  lemma UnlinkedHost(cfg: Config, v: RoomView, now: nat, ip: Ip)
    requires ip in Unlinked(cfg, v, now)
    ensures Present(cfg, v, ip) && !Leaks(cfg, v, now, ip)
  {
    hide Swept;
    var a :| a in v.clients && Stale(cfg, v.clients[a], now) && Sole(cfg, v.clients.Keys, a) && cfg.ipKey(a) == ip;
  }

  lemma DepartedHost(cfg: Config, v: RoomView, now: nat, ip: Ip)
    requires Present(cfg, v, ip) && !Present(cfg, Swept(cfg, v, now), ip) && ip !in Unlinked(cfg, v, now)
    ensures Leaks(cfg, v, now, ip)
  {
    hide Stale, Sole, Unlinked;
    var a :| a in v.clients && cfg.ipKey(a) == ip;
    forall b | b in v.clients && cfg.ipKey(b) == ip ensures Stale(cfg, v.clients[b], now) {
      assert Stale(cfg, v.clients[b], now) || b in Swept(cfg, v, now).clients;
    }
    if Sole(cfg, v.clients.Keys, a) {
      SoleStaleUnlinked(cfg, v, now, a);
      assert false;
    } else {
      var b := NotSole(cfg, v.clients.Keys, a);
    }
  }

  lemma SoleStaleUnlinked(cfg: Config, v: RoomView, now: nat, a: Addr)
    requires a in v.clients && Stale(cfg, v.clients[a], now) && Sole(cfg, v.clients.Keys, a)
    ensures cfg.ipKey(a) in Unlinked(cfg, v, now)
  {
  }

  lemma NotSole(cfg: Config, addrs: set<Addr>, a: Addr) returns (b: Addr)
    requires !Sole(cfg, addrs, a)
    ensures b in addrs && b != a && cfg.ipKey(b) == cfg.ipKey(a)
  {
    b :| b in addrs && b != a && cfg.ipKey(b) == cfg.ipKey(a);
  }

  lemma LeakingHost(cfg: Config, v: RoomView, now: nat, ip: Ip)
    requires Leaks(cfg, v, now, ip)
    ensures Present(cfg, v, ip) && !Present(cfg, Swept(cfg, v, now), ip)
  {
  }

  /** A sweep unlinks a host it removes entirely, unless it removes two or more of its clients at once. */
  lemma SweepTracksHost(cfg: Config, v: RoomView, now: nat, ip: Ip)
    ensures Present(cfg, Swept(cfg, v, now), ip) ==> Present(cfg, v, ip) && ip !in Unlinked(cfg, v, now)
    ensures ip in Unlinked(cfg, v, now) ==> Present(cfg, v, ip)
    ensures Present(cfg, v, ip) && !Present(cfg, Swept(cfg, v, now), ip)
            ==> (ip in Unlinked(cfg, v, now) <==> !Leaks(cfg, v, now, ip))
    ensures Leaks(cfg, v, now, ip) ==> Present(cfg, v, ip) && !Present(cfg, Swept(cfg, v, now), ip)
  {
    hide Swept, Unlinked, Present, Leaks;
    if Leaks(cfg, v, now, ip) { LeakingHost(cfg, v, now, ip); }
    if Present(cfg, Swept(cfg, v, now), ip) {
      SurvivingHost(cfg, v, now, ip);
    } else if ip in Unlinked(cfg, v, now) {
      UnlinkedHost(cfg, v, now, ip);
    } else if Present(cfg, v, ip) {
      DepartedHost(cfg, v, now, ip);
    }
  }

  /** A link to a room the host has no client in. */
  ghost predicate Phantom(cfg: Config, s: State, ip: Ip, r: Room) {
    (ip, r) in s.links && !(r in s.rooms && Present(cfg, s.rooms[r], ip))
  }

  lemma LinkedPresent(cfg: Config, s: State, ip: Ip, r: Room)
    requires Linked(cfg, s.rooms, s.links) && r in s.rooms && Present(cfg, s.rooms[r], ip)
    ensures (ip, r) in s.links
  {
  }

  /** Covering index: equal to the occupancy relation just when it has no phantom link. */
  lemma ExactMeansNoPhantom(cfg: Config, s: State)
    requires Linked(cfg, s.rooms, s.links)
    ensures Exact(cfg, s.rooms, s.links) <==> forall ip, r :: !Phantom(cfg, s, ip, r)
  {
    hide Present;
    if forall ip, r :: !Phantom(cfg, s, ip, r) {
      forall ip, r ensures (ip, r) in s.links <==> r in s.rooms && Present(cfg, s.rooms[r], ip) {
        assert !Phantom(cfg, s, ip, r);
        if r in s.rooms && Present(cfg, s.rooms[r], ip) { LinkedPresent(cfg, s, ip, r); }
      }
    }
  }

  /** One `remove_stale_clients` call adds exactly the links of the hosts that had two or more
      clients in the room, all of them stale. */
  lemma SweepRoomPhantoms(cfg: Config, s: State, r: Room, now: nat)
    requires r in s.rooms && Linked(cfg, s.rooms, s.links)
    ensures var s' := SweepRoom(cfg, s, r, now);
            forall ip, q :: Phantom(cfg, s', ip, q)
                <==> Phantom(cfg, s, ip, q) || (q == r && Leaks(cfg, s.rooms[r], now, ip))
  {
    hide Leaks, Swept, Unlinked, Present, Linked;
    var s' := SweepRoom(cfg, s, r, now);
    forall ip ensures Phantom(cfg, s', ip, r) <==> Phantom(cfg, s, ip, r) || Leaks(cfg, s.rooms[r], now, ip) {
      SweepTracksHost(cfg, s.rooms[r], now, ip);
      if Present(cfg, s.rooms[r], ip) { LinkedPresent(cfg, s, ip, r); }
    }
  }

  /** The same for the sweep of every room. */
  lemma SweepAllPhantoms(cfg: Config, s: State, now: nat)
    requires Linked(cfg, s.rooms, s.links)
    ensures var s' := SweepAll(cfg, s, now);
            forall ip, q :: Phantom(cfg, s', ip, q)
                <==> Phantom(cfg, s, ip, q) || (q in s.rooms && Leaks(cfg, s.rooms[q], now, ip))
  {
    hide Leaks, Swept, Unlinked, Present, Survives, Linked;
    var s' := SweepAll(cfg, s, now);
    forall ip, q | q in s.rooms
      ensures Phantom(cfg, s', ip, q) <==> Phantom(cfg, s, ip, q) || Leaks(cfg, s.rooms[q], now, ip)
    {
      SweepTracksHost(cfg, s.rooms[q], now, ip);
      if Present(cfg, s.rooms[q], ip) { LinkedPresent(cfg, s, ip, q); }
      if q !in s'.rooms { Vacated(cfg, s.rooms[q], now, ip); }
    }
  }

  lemma Vacated(cfg: Config, v: RoomView, now: nat, ip: Ip)
    requires !Survives(cfg, v, now)
    ensures !Present(cfg, Swept(cfg, v, now), ip)
  {
  }

  /** The equality is not an invariant: any two clients of one host that are alone in a room and
      go stale together leave a link to a room that no longer exists. */
  lemma TwinsLeak(cfg: Config, s: State, r: Room, a: Addr, b: Addr)
    requires a != b && cfg.ipKey(a) == cfg.ipKey(b)
    requires s.rooms == map[r := Twins(a, b)] && s.links == {(cfg.ipKey(a), r)}
    ensures var s' := SweepAll(cfg, s, cfg.regTtl + 1);
            Exact(cfg, s.rooms, s.links) && r !in s'.rooms && (cfg.ipKey(a), r) in s'.links
  {
    hide Twins, Swept, Survives, Leaks, Present, Unlinked;
    TwinFacts(cfg, a, b);
    SweepTracksHost(cfg, Twins(a, b), cfg.regTtl + 1, cfg.ipKey(a));
    LeakingHost(cfg, Twins(a, b), cfg.regTtl + 1, cfg.ipKey(a));
  }

  ghost function Twins(a: Addr, b: Addr): RoomView {
    RoomView(map[a := Client(0, Meter(0, 0), Some(a)), b := Client(0, Meter(0, 0), Some(b))], map[], 0)
  }

  lemma TwinFacts(cfg: Config, a: Addr, b: Addr)
    requires a != b && cfg.ipKey(a) == cfg.ipKey(b)
    ensures !Survives(cfg, Twins(a, b), cfg.regTtl + 1)
    ensures Leaks(cfg, Twins(a, b), cfg.regTtl + 1, cfg.ipKey(a))
    ensures forall ip :: Present(cfg, Twins(a, b), ip) <==> ip == cfg.ipKey(a)
  {
    var v := Twins(a, b);
    assert a in v.clients && b in v.clients;
    assert Swept(cfg, v, cfg.regTtl + 1).clients == map[];
  }

  // ---- phantoms over whole runs ----

  lemma FreshDoesNotLeak(cfg: Config, v: RoomView, now: nat, ip: Ip)
    ensures !Leaks(cfg, Swept(cfg, v, now), now, ip)
  {
  }

  lemma PresentByKeys(cfg: Config, v: RoomView, w: RoomView, ip: Ip)
    requires v.clients.Keys <= w.clients.Keys && Present(cfg, v, ip)
    ensures Present(cfg, w, ip)
  {
    var a :| a in v.clients && cfg.ipKey(a) == ip;
    assert a in w.clients;
  }

  lemma SameClientsPhantoms(cfg: Config, s: State, s': State, r: Room)
    requires r in s.rooms && r in s'.rooms && s'.links == s.links && s'.rooms == s.rooms[r := s'.rooms[r]]
    requires s'.rooms[r].clients.Keys == s.rooms[r].clients.Keys
    ensures forall ip, q :: Phantom(cfg, s', ip, q) <==> Phantom(cfg, s, ip, q)
  {
    hide Present;
    forall ip ensures Present(cfg, s'.rooms[r], ip) <==> Present(cfg, s.rooms[r], ip) {
      if Present(cfg, s'.rooms[r], ip) { PresentByKeys(cfg, s'.rooms[r], s.rooms[r], ip); }
      if Present(cfg, s.rooms[r], ip) { PresentByKeys(cfg, s.rooms[r], s'.rooms[r], ip); }
    }
  }

  lemma AdmitPresent(cfg: Config, v: RoomView, src: Addr, c: Client, now: nat, ip: Ip)
    ensures Present(cfg, v.(clients := v.clients[src := c], t := now), ip)
            <==> Present(cfg, v, ip) || ip == cfg.ipKey(src)
  {
    var w := v.(clients := v.clients[src := c], t := now);
    assert src in w.clients;
    if Present(cfg, v, ip) { PresentByKeys(cfg, v, w, ip); }
  }

  lemma AdmitPhantoms(cfg: Config, s: State, room: Room, src: Addr, resolved: Addr, now: nat)
    requires room in s.rooms
    ensures var s' := Admit(cfg, s, room, src, resolved, now);
            forall ip, q :: Phantom(cfg, s', ip, q) <==> Phantom(cfg, s, ip, q) && !(ip == cfg.ipKey(src) && q == room)
  {
    hide Present;
    forall ip { AdmitPresent(cfg, s.rooms[room], src, NewClient(now, resolved), now, ip); }
  }

  lemma NewRoomPhantoms(cfg: Config, s: State, room: Room, now: nat)
    requires room !in s.rooms
    ensures var s' := s.(rooms := s.rooms[room := RoomView(map[], map[], now)]);
            forall ip, q :: Phantom(cfg, s', ip, q) <==> Phantom(cfg, s, ip, q)
  {
    assert forall ip :: !Present(cfg, RoomView(map[], map[], now), ip);
  }

  /** A host gains a client, or keeps the one that registered again. */
  ghost predicate Rejoins(cfg: Config, e: Event, o: Outcome, ip: Ip, r: Room) {
    e.Reg? && e.room == r && cfg.ipKey(e.src) == ip && o == Replied(Regd)
  }

  /** The rooms whose stale clients a step removes. */
  ghost function SweptBy(cfg: Config, s: State, e: Event): set<Room>
    requires |s.reg| == NUM_SHARDS
  {
    match e
    case Sweep(_) => s.rooms.Keys
    case Reg(room, cred, src, _, now) =>
      var ip := cfg.ipKey(src);
      var here := if room in s.rooms then {room} else {};
      if RegMeet(s.reg[cfg.regShard(ip)], ip, now, cfg.rateWindow, cfg.maxRegRate).0 then {}
      else (match cred
        case Malformed => {}
        case Absent => if |LinkedTo(s.links, ip)| >= cfg.maxRoomsPerIp then {} else here
        case Presented(cookie) => CompletionSweeps(cfg, s, room, src, cookie, now))
    case _ => {}
  }

  ghost function CompletionSweeps(cfg: Config, s: State, room: Room, src: Addr, cookie: Cookie, now: nat): set<Room> {
    if (room, src) in s.pending then
      var p := s.pending[(room, src)];
      if p.cookie != cookie || Expired(p, now) then {}
      else if |s.rooms| >= cfg.maxRooms then s.rooms.Keys
      else if room in s.rooms then {room} else {}
    else if room in s.rooms && src in s.rooms[room].pending then
      var p := s.rooms[room].pending[src];
      if p.cookie != cookie || Expired(p, now) then {} else {room}
    else {}
  }

  /** What a step does to the phantom links: it adds the leaks of the rooms `swept`, and clears the
      one of the host and room that were answered OK. */
  ghost predicate Accounts(cfg: Config, s: State, s': State, swept: set<Room>, now: nat, reply: Reply, src: Addr,
                           room: Room) {
    forall ip, q :: Phantom(cfg, s', ip, q) <==>
      (Phantom(cfg, s, ip, q) || (q in swept && q in s.rooms && Leaks(cfg, s.rooms[q], now, ip)))
      && !(reply == Regd && ip == cfg.ipKey(src) && q == room)
  }

  lemma CompleteGlobalPhantoms(cfg: Config, s0: State, room: Room, src: Addr, resolved: Addr, now: nat)
    requires Inv(cfg, s0)
    ensures var (s', reply) := CompleteGlobal(cfg, s0, room, src, resolved, now);
            Accounts(cfg, s0, s', if |s0.rooms| >= cfg.maxRooms
                then s0.rooms.Keys else if room in s0.rooms then {room} else {},
                     now, reply, src, room)
  {
    hide Inv, Phantom, Leaks, Refusal, Admit, SweepRoom, Survives, Swept;
    var s := if |s0.rooms| >= cfg.maxRooms then SweepAll(cfg, s0, now) else s0;
    InvLinked(cfg, s0);
    SweepAllPhantoms(cfg, s0, now);
    SweepAllKeeps(cfg, s0, now);
    InvLinked(cfg, s);
    if room !in s.rooms {
      NewRoomPhantoms(cfg, s, room, now);
      AdmitPhantoms(cfg, s.(rooms := s.rooms[room := RoomView(map[], map[], now)]), room, src, resolved, now);
    } else {
      forall ip { FreshDoesNotLeak(cfg, s0.rooms[room], now, ip); }
      SweepRoomPhantoms(cfg, s, room, now);
      RefusalIsACap(cfg, s, room, src, now);
      AdmitPhantoms(cfg, SweepRoom(cfg, s, room, now), room, src, resolved, now);
    }
  }

  lemma InvLinked(cfg: Config, s: State)
    requires Inv(cfg, s)
    ensures Linked(cfg, s.rooms, s.links)
  {
  }

  lemma DropRoomPendingPhantoms(cfg: Config, s: State, room: Room, src: Addr)
    requires room in s.rooms
    ensures var s' := DropRoomPending(s, room, src);
            room in s'.rooms && forall ip, q :: Phantom(cfg, s', ip, q) <==> Phantom(cfg, s, ip, q)
  {
    SameClientsPhantoms(cfg, s, DropRoomPending(s, room, src), room);
  }

  lemma CompleteInRoomPhantoms(cfg: Config, s: State, room: Room, src: Addr, cookie: Cookie, now: nat)
    requires Inv(cfg, s) && room in s.rooms && (room, src) !in s.pending
    ensures var (s', reply) := CompleteInRoom(cfg, s, room, src, cookie, now);
            Accounts(cfg, s, s', CompletionSweeps(cfg, s, room, src, cookie, now), now, reply, src, room)
  {
    hide Inv, Phantom, Leaks, Refusal, Admit, SweepRoom, DropRoomPending;
    DropRoomPendingPhantoms(cfg, s, room, src);
    InvLinked(cfg, s);
    SweepRoomPhantoms(cfg, s, room, now);
    RefusalIsACap(cfg, s, room, src, now);
    var s1 := SweepRoom(cfg, s, room, now);
    DropRoomPendingPhantoms(cfg, s1, room, src);
    if src in s.rooms[room].pending {
      AdmitPhantoms(cfg, DropRoomPending(s1, room, src), room, src, s.rooms[room].pending[src].resolved, now);
    }
  }

  lemma KnockPhantoms(cfg: Config, s: State, room: Room, src: Addr, mint: Cookie, now: nat)
    requires room in s.rooms
    ensures var (s', reply) := Knock(cfg, s, room, src, mint, now);
            && (forall ip, q :: Phantom(cfg, s', ip, q) <==> Phantom(cfg, s, ip, q))
            && (reply == Regd ==> src in s.rooms[room].clients)
  {
    hide Phantom;
    var s' := Knock(cfg, s, room, src, mint, now).0;
    if s' != s {
      assert s'.rooms[room].clients.Keys == s.rooms[room].clients.Keys;
      SameClientsPhantoms(cfg, s, s', room);
    }
  }

  lemma ClientNotPhantom(cfg: Config, s: State, room: Room, src: Addr)
    requires room in s.rooms && src in s.rooms[room].clients
    ensures !Phantom(cfg, s, cfg.ipKey(src), room)
  {
  }

  lemma PlainRegPhantoms(cfg: Config, s: State, room: Room, src: Addr, mint: Cookie, now: nat)
    requires Inv(cfg, s)
    ensures var (s', reply) := PlainReg(cfg, s, room, src, mint, now);
            Accounts(cfg, s, s', if |LinkedTo(s.links, cfg.ipKey(src))| >= cfg.maxRoomsPerIp || room !in s.rooms
                then {} else {room},
                     now, reply, src, room)
  {
    hide Inv, Phantom, Leaks, SweepRoom, Knock;
    InvLinked(cfg, s);
    if room in s.rooms {
      SweepRoomPhantoms(cfg, s, room, now);
      RefusalIsACap(cfg, s, room, src, now);
      var s1 := SweepRoom(cfg, s, room, now);
      KnockPhantoms(cfg, s1, room, src, mint, now);
      if src in s1.rooms[room].clients { ClientNotPhantom(cfg, s1, room, src); }
    } else {
      SamePhantoms(cfg, s, PlainReg(cfg, s, room, src, mint, now).0);
    }
  }

  lemma SamePhantoms(cfg: Config, s: State, s': State)
    requires s'.rooms == s.rooms && s'.links == s.links
    ensures forall ip, q :: Phantom(cfg, s', ip, q) <==> Phantom(cfg, s, ip, q)
  {
  }

  lemma RegStepPhantoms(cfg: Config, s: State, e: Event)
    requires Inv(cfg, s) && e.Reg? && |s.reg| == NUM_SHARDS
    ensures var (s', reply) := RegStep(cfg, s, e.room, e.cred, e.src, e.mint, e.now);
            Accounts(cfg, s, s', SweptBy(cfg, s, e), e.now, reply, e.src, e.room)
  {
    hide Phantom, Leaks, CompleteGlobal, CompleteInRoom, PlainReg, Linked, LinksCapped, RoomsOk, PendingOk;
    var Reg(room, cred, src, mint, now) := e;
    var ip := cfg.ipKey(src);
    var i := cfg.regShard(ip);
    var s1 := s.(reg := s.reg[i := RegMeet(s.reg[i], ip, now, cfg.rateWindow, cfg.maxRegRate).1]);
    assert Inv(cfg, s1);
    SamePhantoms(cfg, s, s1);
    PlainRegPhantoms(cfg, s1, room, src, mint, now);
    if cred.Presented? { CookieRegPhantoms(cfg, s1, room, src, cred.cookie, mint, now); }
  }

  lemma CookieRegPhantoms(cfg: Config, s: State, room: Room, src: Addr, cookie: Cookie, mint: Cookie, now: nat)
    requires Inv(cfg, s)
    ensures var (s', reply) := CookieReg(cfg, s, room, src, cookie, mint, now);
            Accounts(cfg, s, s', CompletionSweeps(cfg, s, room, src, cookie, now), now, reply, src, room)
  {
    hide Inv, Phantom, Leaks, CompleteGlobal, CompleteInRoom;
    var (s', reply) := CookieReg(cfg, s, room, src, cookie, mint, now);
    if (room, src) in s.pending {
      var s1 := DropPending(s, room, src);
      SamePhantoms(cfg, s, s1);
      DropPendingKeeps(cfg, s, room, src);
      CompleteGlobalPhantoms(cfg, s1, room, src, s.pending[(room, src)].resolved, now);
    } else if room in s.rooms {
      CompleteInRoomPhantoms(cfg, s, room, src, cookie, now);
    } else {
      SamePhantoms(cfg, s, s');
    }
  }

  /** Exact accounting of one step: the phantom links afterwards are those before, plus the leaks of
      the rooms it sweeps, minus the link of the host it answers OK. */
  lemma StepPhantoms(cfg: Config, s: State, e: Event, ip: Ip, r: Room)
    requires Inv(cfg, s)
    ensures var (s', o) := Step(cfg, s, e);
            Phantom(cfg, s', ip, r) <==>
            (Phantom(cfg, s, ip, r) || (r in SweptBy(cfg, s, e) && r in s.rooms && Leaks(cfg, s.rooms[r], e.now, ip)))
            && !Rejoins(cfg, e, o, ip, r)
  {
    hide Phantom, Leaks, RegStep, Linked, LinksCapped, RoomsOk, PendingOk;
    match e
    case Reg(_, _, _, _, _) => RegStepPhantoms(cfg, s, e);
    case Msg(room, src, now) =>
      var s' := Step(cfg, s, e).0;
      if room in s.rooms && src in s.rooms[room].clients {
        assert s'.rooms[room].clients.Keys == s.rooms[room].clients.Keys;
        SameClientsPhantoms(cfg, s, s', room);
      }
    case Sweep(now) =>
      SweepAllPhantoms(cfg, s, now);
      SamePhantoms(cfg, SweepAll(cfg, s, now), RoomTick(cfg, s, now));
    case RateCleanup(_) => SamePhantoms(cfg, s, Step(cfg, s, e).0);
  }

  ghost predicate LeaksAt(cfg: Config, es: seq<Event>, i: nat, ip: Ip, r: Room)
    requires i < |es|
  {
    var s := Run(cfg, es[..i]);
    r in SweptBy(cfg, s, es[i]) && r in s.rooms && Leaks(cfg, s.rooms[r], es[i].now, ip)
  }

  ghost predicate RejoinsAt(cfg: Config, es: seq<Event>, i: nat, ip: Ip, r: Room)
    requires i < |es|
  {
    Rejoins(cfg, es[i], OutcomeAt(cfg, es, i), ip, r)
  }

  /** Some sweep leaked the link, and no client of the host was admitted to that room since. */
  ghost predicate Unrepaired(cfg: Config, es: seq<Event>, ip: Ip, r: Room) {
    exists i: nat ::
      i < |es| && LeaksAt(cfg, es, i, ip, r) && forall j :: i <= j < |es| ==> !RejoinsAt(cfg, es, j, ip, r)
  }

  lemma UnrepairedSnoc(cfg: Config, es: seq<Event>, ip: Ip, r: Room)
    requires es != []
    ensures var n := |es| - 1;
            Unrepaired(cfg, es, ip, r) <==>
            (Unrepaired(cfg, es[..n], ip, r) || LeaksAt(cfg, es, n, ip, r)) && !RejoinsAt(cfg, es, n, ip, r)
  {
    hide LeaksAt, RejoinsAt;
    var n := |es| - 1;
    var init := es[..n];
    forall i | 0 <= i < n
      ensures LeaksAt(cfg, init, i, ip, r) == LeaksAt(cfg, es, i, ip, r)
              && RejoinsAt(cfg, init, i, ip, r) == RejoinsAt(cfg, es, i, ip, r)
    {
      PrefixAt(cfg, es, n, i, ip, r);
    }
    if Unrepaired(cfg, es, ip, r) {
      var i: nat :|
        i < |es| && LeaksAt(cfg, es, i, ip, r) && forall j :: i <= j < |es| ==> !RejoinsAt(cfg, es, j, ip, r);
      assert !RejoinsAt(cfg, es, n, ip, r);
      if i < n { assert LeaksAt(cfg, init, i, ip, r); }
    }
    if Unrepaired(cfg, init, ip, r) && !RejoinsAt(cfg, es, n, ip, r) {
      var i: nat :|
        i < |init| && LeaksAt(cfg, init, i, ip, r) && forall j :: i <= j < |init| ==> !RejoinsAt(cfg, init, j, ip, r);
      assert LeaksAt(cfg, es, i, ip, r);
    }
  }

  lemma PrefixAt(cfg: Config, es: seq<Event>, n: nat, i: nat, ip: Ip, r: Room)
    requires i < n <= |es|
    ensures LeaksAt(cfg, es[..n], i, ip, r) == LeaksAt(cfg, es, i, ip, r)
    ensures RejoinsAt(cfg, es[..n], i, ip, r) == RejoinsAt(cfg, es, i, ip, r)
  {
    hide Run, Step, Rejoins, Leaks, SweptBy;
    assert es[..n][..i] == es[..i];
  }

  /** Over every run: a host is linked to a room it is not in exactly when some sweep removed two or
      more of its clients from that room together, with none left, and none was admitted since. */
  lemma {:induction false} PhantomIff(cfg: Config, es: seq<Event>, ip: Ip, r: Room)
    requires Positive(cfg)
    ensures Phantom(cfg, Run(cfg, es), ip, r) <==> Unrepaired(cfg, es, ip, r)
    decreases |es|
  {
    if es != [] {
      hide Step, Phantom, Leaks, SweptBy, Unrepaired, Inv, Rejoins;
      var n := |es| - 1;
      PhantomIff(cfg, es[..n], ip, r);
      RunKeeps(cfg, es[..n]);
      StepPhantoms(cfg, Run(cfg, es[..n]), es[n], ip, r);
      UnrepairedSnoc(cfg, es, ip, r);
    }
  }

  /** The index equals the occupancy relation exactly when every leak has been repaired. */
  lemma {:induction false} IndexExactIff(cfg: Config, es: seq<Event>)
    requires Positive(cfg)
    ensures var s := Run(cfg, es); Exact(cfg, s.rooms, s.links) <==> forall ip, r :: !Unrepaired(cfg, es, ip, r)
  {
    hide Run, Phantom, Unrepaired, Exact;
    RunKeeps(cfg, es);
    ExactMeansNoPhantom(cfg, Run(cfg, es));
    forall ip, r ensures Phantom(cfg, Run(cfg, es), ip, r) <==> Unrepaired(cfg, es, ip, r) {
      PhantomIff(cfg, es, ip, r);
    }
  }
}
