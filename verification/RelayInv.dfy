/** What every step of the relay keeps: the host index covers the rooms, and every cap holds. */
module RelayInv {
  import opened Net
  import opened Sizes
  import opened Limiters
  import opened RelaySpec

  type Rooms = map<Room, RoomView>

  // ---- invariants ----

  /** Every admitted client's room is linked to its host. */
  ghost predicate Linked(cfg: Config, rooms: Rooms, links: set<Link>) {
    forall r, a :: r in rooms && a in rooms[r].clients ==> (cfg.ipKey(a), r) in links
  }

  /** No host is linked to more rooms than allowed. */
  ghost predicate LinksCapped(cfg: Config, links: set<Link>) {
    forall ip :: |LinkedTo(links, ip)| <= cfg.maxRoomsPerIp
  }

  /** A room's pending registrations stay within the room's limit and the limit of each host. */
  ghost predicate PendingFits(cfg: Config, keys: set<Addr>) {
    |keys| <= cfg.maxPendingPerRoom && forall ip :: |Bucket(cfg, keys, ip)| <= cfg.maxPendingPerIp
  }

  ghost predicate RoomCapped(cfg: Config, v: RoomView) {
    && |v.clients| <= cfg.maxClientsHard
    && PendingFits(cfg, v.pending.Keys)
    && forall ip :: |Bucket(cfg, v.clients.Keys, ip)| <= cfg.maxPerPrefix
  }

  /** Clients and pending registrations are stored under the address they were resolved to. */
  ghost predicate Homed(v: RoomView) {
    && (forall a :: a in v.clients ==> v.clients[a].resolved == Some(a))
    && (forall a :: a in v.pending ==> v.pending[a].resolved == a)
  }

  ghost predicate RoomsOk(cfg: Config, rooms: Rooms) {
    && |rooms| <= cfg.maxRooms
    && forall r :: r in rooms ==> RoomCapped(cfg, rooms[r]) && Homed(rooms[r])
  }

  ghost predicate PendingOk(cfg: Config, pending: map<PendKey, PendingReg>) {
    && |pending| <= cfg.maxPendingGlobal
    && (forall k :: k in pending ==> pending[k].resolved == k.1)
    && forall ip :: |PendingFrom(cfg, pending.Keys, ip)| <= cfg.maxPendingPerIp
  }

  ghost predicate Inv(cfg: Config, s: State) {
    && |s.reg| == NUM_SHARDS
    && Linked(cfg, s.rooms, s.links)
    && LinksCapped(cfg, s.links)
    && RoomsOk(cfg, s.rooms)
    && PendingOk(cfg, s.pending)
  }

  /** The caps on the clients of a room are positive, as the server's configuration reader guarantees. */
  predicate Positive(cfg: Config) { cfg.maxClientsHard >= 1 && cfg.maxPerPrefix >= 1 }

  // ---- links ----

  lemma FewerLinks(cfg: Config, links: set<Link>, fewer: set<Link>)
    requires LinksCapped(cfg, links) && fewer <= links
    ensures LinksCapped(cfg, fewer)
  {
    forall ip ensures |LinkedTo(fewer, ip)| <= cfg.maxRoomsPerIp {
      SubsetSize(LinkedTo(fewer, ip), LinkedTo(links, ip));
    }
  }

  lemma OneMoreLink(cfg: Config, links: set<Link>, ip: Ip, r: Room)
    requires LinksCapped(cfg, links)
    requires (ip, r) in links || |LinkedTo(links, ip)| < cfg.maxRoomsPerIp
    ensures LinksCapped(cfg, links + {(ip, r)})
  {
    var more := links + {(ip, r)};
    forall j ensures |LinkedTo(more, j)| <= cfg.maxRoomsPerIp {
      if j == ip && (ip, r) !in links {
        assert LinkedTo(more, j) == LinkedTo(links, j) + {r};
      } else {
        assert LinkedTo(more, j) == LinkedTo(links, j);
      }
    }
  }

  /** Installing one room that is itself in order. */
  lemma PutRoomOk(cfg: Config, rooms: Rooms, r: Room, v: RoomView)
    requires RoomsOk(cfg, rooms) && (r in rooms || |rooms| < cfg.maxRooms)
    requires RoomCapped(cfg, v) && Homed(v)
    ensures RoomsOk(cfg, rooms[r := v])
  {
    hide RoomCapped, Homed;
    InsertSize(rooms, r, v);
  }

  lemma PutRoomLinked(cfg: Config, rooms: Rooms, links: set<Link>, r: Room, v: RoomView)
    requires Linked(cfg, rooms, links)
    requires forall a :: a in v.clients ==> (cfg.ipKey(a), r) in links
    ensures Linked(cfg, rooms[r := v], links)
  {
  }

  /** What the invariant says of one room. */
  lemma RoomFacts(cfg: Config, s: State, r: Room)
    requires Inv(cfg, s) && r in s.rooms
    ensures PendingFits(cfg, s.rooms[r].pending.Keys) && Homed(s.rooms[r])
  {
  }

  lemma InitHolds(cfg: Config)
    ensures Inv(cfg, Init())
  {
    forall ip ensures |LinkedTo({}, ip)| <= cfg.maxRoomsPerIp { assert LinkedTo({}, ip) == {}; }
    var none: map<PendKey, PendingReg> := map[];
    forall ip ensures |PendingFrom(cfg, none.Keys, ip)| <= cfg.maxPendingPerIp {
      assert PendingFrom(cfg, none.Keys, ip) == {};
    }
  }

  lemma FewerFit(cfg: Config, keys: set<Addr>, fewer: set<Addr>)
    requires PendingFits(cfg, keys) && fewer <= keys
    ensures PendingFits(cfg, fewer)
  {
    SubsetSize(fewer, keys);
    forall ip ensures |Bucket(cfg, fewer, ip)| <= cfg.maxPendingPerIp {
      SubsetSize(Bucket(cfg, fewer, ip), Bucket(cfg, keys, ip));
    }
  }

  lemma OneMoreFits(cfg: Config, keys: set<Addr>, src: Addr)
    requires PendingFits(cfg, keys)
    requires src in keys
             || (|keys| < cfg.maxPendingPerRoom && |Bucket(cfg, keys, cfg.ipKey(src))| < cfg.maxPendingPerIp)
    ensures PendingFits(cfg, keys + {src})
  {
    hide Bucket;
    forall ip ensures |Bucket(cfg, keys + {src}, ip)| <= cfg.maxPendingPerIp { BucketInsert(cfg, keys, src, ip); }
    if src in keys { assert keys + {src} == keys; }
  }

  // ---- sweeps ----

  lemma SweptCapped(cfg: Config, v: RoomView, now: nat)
    requires RoomCapped(cfg, v) && Homed(v)
    ensures RoomCapped(cfg, Swept(cfg, v, now)) && Homed(Swept(cfg, v, now))
  {
    var w := Swept(cfg, v, now);
    SubmapSize(w.clients, v.clients);
    FewerFit(cfg, v.pending.Keys, w.pending.Keys);
    hide PendingFits;
    forall ip ensures |Bucket(cfg, w.clients.Keys, ip)| <= cfg.maxPerPrefix {
      SubsetSize(Bucket(cfg, w.clients.Keys, ip), Bucket(cfg, v.clients.Keys, ip));
    }
  }

  /** A host that still has a client after a sweep is not unlinked by it. */
  lemma SurvivorStaysLinked(cfg: Config, v: RoomView, now: nat, a: Addr)
    requires a in Swept(cfg, v, now).clients
    ensures cfg.ipKey(a) !in Unlinked(cfg, v, now)
  {
  }

  lemma SweepRoomKeeps(cfg: Config, s: State, r: Room, now: nat)
    requires Inv(cfg, s) && r in s.rooms
    ensures Inv(cfg, SweepRoom(cfg, s, r, now)) && r in SweepRoom(cfg, s, r, now).rooms
  {
    var s' := SweepRoom(cfg, s, r, now);
    SweptCapped(cfg, s.rooms[r], now);
    InsertSize(s.rooms, r, s'.rooms[r]);
    FewerLinks(cfg, s.links, s'.links);
    forall q, a | q in s'.rooms && a in s'.rooms[q].clients ensures (cfg.ipKey(a), q) in s'.links {
      if q == r { SurvivorStaysLinked(cfg, s.rooms[r], now, a); }
      assert a in s.rooms[q].clients;
    }
  }

  lemma SweepAllKeeps(cfg: Config, s: State, now: nat)
    requires Inv(cfg, s)
    ensures Inv(cfg, SweepAll(cfg, s, now))
  {
    var s' := SweepAll(cfg, s, now);
    SubmapSize(s'.rooms, s.rooms);
    FewerLinks(cfg, s.links, s'.links);
    forall q | q in s'.rooms ensures RoomCapped(cfg, s'.rooms[q]) && Homed(s'.rooms[q]) {
      SweptCapped(cfg, s.rooms[q], now);
    }
    forall q, a | q in s'.rooms && a in s'.rooms[q].clients ensures (cfg.ipKey(a), q) in s'.links {
      SurvivorStaysLinked(cfg, s.rooms[q], now, a);
    }
  }

  /** Sweeping twice at one instant is sweeping once. */
  lemma SweepAllIdempotent(cfg: Config, s: State, now: nat)
    ensures SweepAll(cfg, SweepAll(cfg, s, now), now) == SweepAll(cfg, s, now)
  {
    var s1 := SweepAll(cfg, s, now);
    forall r | r in s1.rooms
      ensures Swept(cfg, s1.rooms[r], now) == s1.rooms[r] && Unlinked(cfg, s1.rooms[r], now) == {}
    {
      assert Swept(cfg, s1.rooms[r], now).clients == s1.rooms[r].clients;
      assert Swept(cfg, s1.rooms[r], now).pending == s1.rooms[r].pending;
    }
    assert SweptRooms(cfg, s1.rooms, now) == s1.rooms;
    assert SweptLinks(cfg, s1.links, s1.rooms, now) == s1.links;
  }

  // ---- admission ----

  lemma BucketInsert(cfg: Config, addrs: set<Addr>, src: Addr, ip: Ip)
    ensures |Bucket(cfg, addrs + {src}, ip)|
            == |Bucket(cfg, addrs, ip)| + if ip == cfg.ipKey(src) && src !in addrs then 1 else 0
  {
    if ip == cfg.ipKey(src) && src !in addrs {
      assert Bucket(cfg, addrs + {src}, ip) == Bucket(cfg, addrs, ip) + {src};
    } else {
      assert Bucket(cfg, addrs + {src}, ip) == Bucket(cfg, addrs, ip);
    }
  }

  lemma AdmittedRoom(cfg: Config, v: RoomView, src: Addr, c: Client, now: nat)
    requires RoomCapped(cfg, v) && Homed(v) && c.resolved == Some(src)
    requires src in v.clients || |v.clients| < cfg.maxClientsHard
    requires src in v.clients || |Bucket(cfg, v.clients.Keys, cfg.ipKey(src))| < cfg.maxPerPrefix
    ensures var w := v.(clients := v.clients[src := c], t := now); RoomCapped(cfg, w) && Homed(w)
  {
    hide Bucket, PendingFits;
    var w := v.(clients := v.clients[src := c], t := now);
    InsertSize(v.clients, src, c);
    assert w.clients.Keys == v.clients.Keys + {src};
    forall ip ensures |Bucket(cfg, w.clients.Keys, ip)| <= cfg.maxPerPrefix {
      BucketInsert(cfg, v.clients.Keys, src, ip);
    }
  }

  lemma AdmitKeeps(cfg: Config, s: State, room: Room, src: Addr, now: nat)
    requires Inv(cfg, s) && room in s.rooms && Refusal(cfg, s.rooms[room], s.links, src) == None
    ensures Inv(cfg, Admit(cfg, s, room, src, src, now))
  {
    var v, ip := s.rooms[room], cfg.ipKey(src);
    var w := v.(clients := v.clients[src := NewClient(now, src)], t := now);
    if Bucket(cfg, v.clients.Keys, ip) != {} {
      var b :| b in Bucket(cfg, v.clients.Keys, ip);
      assert b in v.clients;
    }
    OneMoreLink(cfg, s.links, ip, room);
    AdmittedRoom(cfg, v, src, NewClient(now, src), now);
    PutRoomOk(cfg, s.rooms, room, w);
    PutRoomLinked(cfg, s.rooms, s.links + {(ip, room)}, room, w);
  }

  lemma DropPendingKeeps(cfg: Config, s: State, room: Room, src: Addr)
    requires Inv(cfg, s)
    ensures Inv(cfg, DropPending(s, room, src))
  {
    var s' := DropPending(s, room, src);
    SubmapSize(s'.pending, s.pending);
    forall ip ensures |PendingFrom(cfg, s'.pending.Keys, ip)| <= cfg.maxPendingPerIp {
      SubsetSize(PendingFrom(cfg, s'.pending.Keys, ip), PendingFrom(cfg, s.pending.Keys, ip));
    }
  }

  lemma PutPendingOk(cfg: Config, pending: map<PendKey, PendingReg>, k: PendKey, p: PendingReg)
    requires PendingOk(cfg, pending) && p.resolved == k.1
    requires k in pending || |pending| < cfg.maxPendingGlobal
    requires |PendingFrom(cfg, pending.Keys, cfg.ipKey(k.1))| < cfg.maxPendingPerIp
    ensures PendingOk(cfg, pending[k := p])
  {
    InsertSize(pending, k, p);
    var more := pending[k := p].Keys;
    forall ip ensures |PendingFrom(cfg, more, ip)| <= cfg.maxPendingPerIp {
      if ip == cfg.ipKey(k.1) {
        assert PendingFrom(cfg, more, ip) == PendingFrom(cfg, pending.Keys, ip) + {k};
      } else {
        assert PendingFrom(cfg, more, ip) == PendingFrom(cfg, pending.Keys, ip);
      }
    }
  }

  lemma IssueKeeps(cfg: Config, s: State, room: Room, src: Addr, mint: Cookie, now: nat)
    requires Inv(cfg, s)
    ensures Inv(cfg, Issue(cfg, s, room, src, mint, now).0)
  {
    hide Linked, LinksCapped, RoomsOk, PendingOk;
    if Issue(cfg, s, room, src, mint, now).1.Challenge? {
      PutPendingOk(cfg, s.pending, (room, src), Fresh(src, mint, now));
    }
  }

  /** Replacing one room by one with the same clients keeps the invariant. */
  lemma RoomChangeKeeps(cfg: Config, s: State, room: Room, v: RoomView)
    requires Inv(cfg, s) && room in s.rooms
    requires v.clients.Keys == s.rooms[room].clients.Keys
    requires PendingFits(cfg, v.pending.Keys) && Homed(v)
    ensures Inv(cfg, s.(rooms := s.rooms[room := v]))
  {
    SameClientsCapped(cfg, s.rooms[room], v);
    forall a | a in v.clients ensures (cfg.ipKey(a), room) in s.links {
      assert a in s.rooms[room].clients;
    }
    hide RoomCapped, Homed;
    PutRoomOk(cfg, s.rooms, room, v);
    PutRoomLinked(cfg, s.rooms, s.links, room, v);
  }

  lemma SameClientsCapped(cfg: Config, v: RoomView, w: RoomView)
    requires RoomCapped(cfg, v) && w.clients.Keys == v.clients.Keys && PendingFits(cfg, w.pending.Keys)
    ensures RoomCapped(cfg, w)
  {
    assert |w.clients| == |w.clients.Keys| == |v.clients|;
  }

  lemma NewRoomKeeps(cfg: Config, s: State, room: Room, now: nat)
    requires Inv(cfg, s) && room !in s.rooms && |s.rooms| < cfg.maxRooms
    ensures Inv(cfg, s.(rooms := s.rooms[room := RoomView(map[], map[], now)]))
  {
    var v := RoomView(map[], map[], now);
    forall ip ensures |Bucket(cfg, v.clients.Keys, ip)| <= cfg.maxPerPrefix {
      assert Bucket(cfg, v.clients.Keys, ip) == {};
    }
    forall ip ensures |Bucket(cfg, v.pending.Keys, ip)| <= cfg.maxPendingPerIp {
      assert Bucket(cfg, v.pending.Keys, ip) == {};
    }
    PutRoomOk(cfg, s.rooms, room, v);
    PutRoomLinked(cfg, s.rooms, s.links, room, v);
  }

  lemma CreateKeeps(cfg: Config, s: State, room: Room, src: Addr, now: nat)
    requires Inv(cfg, s) && Positive(cfg) && room !in s.rooms && |s.rooms| < cfg.maxRooms
    requires |LinkedTo(s.links, cfg.ipKey(src))| < cfg.maxRoomsPerIp
    ensures Inv(cfg, Admit(cfg, s.(rooms := s.rooms[room := RoomView(map[], map[], now)]), room, src, src, now))
  {
    NewRoomKeeps(cfg, s, room, now);
    var s1 := s.(rooms := s.rooms[room := RoomView(map[], map[], now)]);
    assert Bucket(cfg, s1.rooms[room].clients.Keys, cfg.ipKey(src)) == {};
    AdmitKeeps(cfg, s1, room, src, now);
  }

  lemma CompleteGlobalKeeps(cfg: Config, s0: State, room: Room, src: Addr, now: nat)
    requires Inv(cfg, s0) && Positive(cfg)
    ensures Inv(cfg, CompleteGlobal(cfg, s0, room, src, src, now).0)
  {
    hide Inv, SweepAll, SweepRoom, Refusal, Admit;
    var s := if |s0.rooms| >= cfg.maxRooms then SweepAll(cfg, s0, now) else s0;
    SweepAllKeeps(cfg, s0, now);
    if room !in s.rooms {
      if |s.rooms| < cfg.maxRooms && |LinkedTo(s.links, cfg.ipKey(src))| < cfg.maxRoomsPerIp {
        CreateKeeps(cfg, s, room, src, now);
      }
    } else {
      SweepRoomKeeps(cfg, s, room, now);
      var s1 := SweepRoom(cfg, s, room, now);
      if Refusal(cfg, s1.rooms[room], s1.links, src) == None {
        AdmitKeeps(cfg, s1, room, src, now);
      }
    }
  }

  lemma DropRoomPendingKeeps(cfg: Config, s: State, room: Room, src: Addr)
    requires Inv(cfg, s) && room in s.rooms
    ensures var s' := DropRoomPending(s, room, src);
            && Inv(cfg, s') && room in s'.rooms
            && Refusal(cfg, s'.rooms[room], s'.links, src) == Refusal(cfg, s.rooms[room], s.links, src)
  {
    hide Inv;
    RoomFacts(cfg, s, room);
    var v := s.rooms[room];
    FewerFit(cfg, v.pending.Keys, (v.pending - {src}).Keys);
    hide PendingFits;
    RoomChangeKeeps(cfg, s, room, v.(pending := v.pending - {src}));
  }

  lemma CompleteInRoomKeeps(cfg: Config, s: State, room: Room, src: Addr, cookie: Cookie, now: nat)
    requires Inv(cfg, s) && room in s.rooms
    ensures Inv(cfg, CompleteInRoom(cfg, s, room, src, cookie, now).0)
  {
    hide Inv, SweepRoom, Refusal, Admit, DropRoomPending;
    RoomFacts(cfg, s, room);
    DropRoomPendingKeeps(cfg, s, room, src);
    SweepRoomKeeps(cfg, s, room, now);
    var s1 := SweepRoom(cfg, s, room, now);
    DropRoomPendingKeeps(cfg, s1, room, src);
    if Refusal(cfg, s1.rooms[room], s1.links, src) == None {
      AdmitKeeps(cfg, DropRoomPending(s1, room, src), room, src, now);
    }
  }

  lemma TouchKeeps(cfg: Config, s: State, room: Room, src: Addr, now: nat)
    requires Inv(cfg, s) && room in s.rooms && src in s.rooms[room].clients
    ensures Inv(cfg, Touch(s, room, src, now))
  {
    hide Inv;
    RoomFacts(cfg, s, room);
    var v := s.rooms[room];
    var c := v.clients[src].(lastSeen := now, resolved := Some(src));
    assert v.clients[src := c].Keys == v.clients.Keys;
    RoomChangeKeeps(cfg, s, room, v.(clients := v.clients[src := c]));
  }

  lemma SetRoomPendingKeeps(cfg: Config, s: State, room: Room, src: Addr, p: PendingReg)
    requires Inv(cfg, s) && room in s.rooms && p.resolved == src
    requires var keys := s.rooms[room].pending.Keys;
             src in keys
                 || (|keys| < cfg.maxPendingPerRoom && |Bucket(cfg, keys, cfg.ipKey(src))| < cfg.maxPendingPerIp)
    ensures Inv(cfg, SetRoomPending(s, room, src, p))
  {
    hide Inv, PendingFits;
    RoomFacts(cfg, s, room);
    var v := s.rooms[room];
    OneMoreFits(cfg, v.pending.Keys, src);
    assert v.pending[src := p].Keys == v.pending.Keys + {src};
    RoomChangeKeeps(cfg, s, room, v.(pending := v.pending[src := p]));
  }

  lemma KnockKeeps(cfg: Config, s: State, room: Room, src: Addr, mint: Cookie, now: nat)
    requires Inv(cfg, s) && room in s.rooms
    ensures Inv(cfg, Knock(cfg, s, room, src, mint, now).0)
  {
    hide Inv, Touch, SetRoomPending, Bucket;
    var v := s.rooms[room];
    assert |v.pending| == |v.pending.Keys|;
    if src in v.clients {
      TouchKeeps(cfg, s, room, src, now);
    } else if src in v.pending {
      SetRoomPendingKeeps(cfg, s, room, src, Fresh(src, v.pending[src].cookie, now));
    } else if Knock(cfg, s, room, src, mint, now).1.Challenge? {
      SetRoomPendingKeeps(cfg, s, room, src, Fresh(src, mint, now));
    }
  }

  lemma PlainRegKeeps(cfg: Config, s: State, room: Room, src: Addr, mint: Cookie, now: nat)
    requires Inv(cfg, s)
    ensures Inv(cfg, PlainReg(cfg, s, room, src, mint, now).0)
  {
    hide Inv, SweepRoom, Issue, Knock;
    IssueKeeps(cfg, s, room, src, mint, now);
    if room in s.rooms {
      SweepRoomKeeps(cfg, s, room, now);
      KnockKeeps(cfg, SweepRoom(cfg, s, room, now), room, src, mint, now);
    }
  }

  lemma CookieRegKeeps(cfg: Config, s: State, room: Room, src: Addr, cookie: Cookie, mint: Cookie, now: nat)
    requires Inv(cfg, s) && Positive(cfg)
    ensures Inv(cfg, CookieReg(cfg, s, room, src, cookie, mint, now).0)
  {
    if (room, src) in s.pending {
      DropPendingKeeps(cfg, s, room, src);
      CompleteGlobalKeeps(cfg, DropPending(s, room, src), room, src, now);
    } else if room !in s.rooms {
      IssueKeeps(cfg, s, room, src, mint, now);
    } else {
      CompleteInRoomKeeps(cfg, s, room, src, cookie, now);
    }
  }

  lemma MsgKeeps(cfg: Config, s: State, room: Room, src: Addr, now: nat)
    requires Inv(cfg, s)
    ensures Inv(cfg, MsgStep(cfg, s, room, src, now).0)
  {
    hide Inv;
    if room in s.rooms && src in s.rooms[room].clients {
      RoomFacts(cfg, s, room);
      var v := s.rooms[room];
      var m := Meet(v.clients[src].limiter, now, cfg.rateWindow, cfg.maxMsgRate).1;
      var c := v.clients[src].(limiter := m);
      assert v.clients[src := c].Keys == v.clients.Keys;
      RoomChangeKeeps(cfg, s, room, v.(clients := v.clients[src := c]));
    }
  }

  lemma RoomTickKeeps(cfg: Config, s: State, now: nat)
    requires Inv(cfg, s)
    ensures Inv(cfg, RoomTick(cfg, s, now))
  {
    SweepAllKeeps(cfg, s, now);
    var pending := FreshPending(s.pending, now);
    SubmapSize(pending, s.pending);
    forall ip ensures |PendingFrom(cfg, pending.Keys, ip)| <= cfg.maxPendingPerIp {
      SubsetSize(PendingFrom(cfg, pending.Keys, ip), PendingFrom(cfg, s.pending.Keys, ip));
    }
  }

  /** Every step keeps the index and every cap. */
  lemma StepKeeps(cfg: Config, s: State, e: Event)
    requires Inv(cfg, s) && Positive(cfg)
    ensures Inv(cfg, Step(cfg, s, e).0)
  {
    hide PlainReg, CookieReg, RegMeet, RoomTick, MsgStep, SweptShards;
    hide Linked, LinksCapped, RoomsOk, PendingOk;
    match e
    case Reg(room, cred, src, mint, now) =>
      var ip := cfg.ipKey(src);
      var i := cfg.regShard(ip);
      var s1 := s.(reg := s.reg[i := RegMeet(s.reg[i], ip, now, cfg.rateWindow, cfg.maxRegRate).1]);
      assert Inv(cfg, s1);
      PlainRegKeeps(cfg, s1, room, src, mint, now);
      if cred.Presented? { CookieRegKeeps(cfg, s1, room, src, cred.cookie, mint, now); }
    case Msg(room, src, now) => MsgKeeps(cfg, s, room, src, now);
    case Sweep(now) => RoomTickKeeps(cfg, s, now);
    case RateCleanup(_) =>
  }
}
