/** The relay server over its sharded tables and redundant counters. Every handler is proved to
    take the step of the counter-free machine in `RelaySpec`. */
module RelayServer {
  import opened Net
  import opened Limiters
  import opened RelaySpec
  import opened RelayInv
  import opened RoomEntries
  import opened Tables

  // ---- the all-shard sweep, shard by shard ----

  ghost function PartRooms(cfg: Config, at: Room -> ShardId, rooms: Rooms, now: nat, i: nat): Rooms {
    map r | r in rooms && (at(r) < i ==> Survives(cfg, rooms[r], now)) ::
      if at(r) < i then Swept(cfg, rooms[r], now) else rooms[r]
  }

  ghost function PartLinks(cfg: Config, at: Room -> ShardId, rooms: Rooms, links: set<Link>, now: nat,
                           i: nat): set<Link> {
    set l | l in links && !(l.1 in rooms && at(l.1) < i && l.0 in Unlinked(cfg, rooms[l.1], now))
  }

  lemma PartStart(cfg: Config, at: Room -> ShardId, rooms: Rooms, links: set<Link>, now: nat)
    ensures PartRooms(cfg, at, rooms, now, 0) == rooms && PartLinks(cfg, at, rooms, links, now, 0) == links
  {
    hide Survives, Swept, Unlinked;
  }

  lemma PartStep(cfg: Config, at: Room -> ShardId, rooms: Rooms, now: nat, i: nat)
    ensures EvictedRooms(cfg, at, PartRooms(cfg, at, rooms, now, i), now, i) == PartRooms(cfg, at, rooms, now, i + 1)
  {
    hide Survives, Swept;
  }

  lemma PartLinkStep(cfg: Config, at: Room -> ShardId, rooms: Rooms, links: set<Link>, now: nat, i: nat,
                     unlinked: seq<Link>)
    requires var part := PartRooms(cfg, at, rooms, now, i);
             forall l :: l in unlinked <==> DropsLink(cfg, part, now, InShard(at, part, i), l)
    ensures PartLinks(cfg, at, rooms, links, now, i) - Elements(unlinked)
            == PartLinks(cfg, at, rooms, links, now, i + 1)
  {
    hide Survives, Swept, Unlinked;
    var part := PartRooms(cfg, at, rooms, now, i);
    forall l ensures l in Elements(unlinked)
        <==> l.1 in rooms && at(l.1) == i && l.0 in Unlinked(cfg, rooms[l.1], now) {
      assert l in unlinked <==> DropsLink(cfg, part, now, InShard(at, part, i), l);
    }
  }

  lemma PartEnd(cfg: Config, at: Room -> ShardId, rooms: Rooms, links: set<Link>, now: nat)
    ensures PartRooms(cfg, at, rooms, now, NUM_SHARDS) == SweptRooms(cfg, rooms, now)
    ensures PartLinks(cfg, at, rooms, links, now, NUM_SHARDS) == SweptLinks(cfg, links, rooms, now)
  {
    hide Survives, Swept, Unlinked;
  }

  /** Sweeping one shard again, at the same instant, after all of them, changes nothing. */
  lemma ResweepIsNoop(cfg: Config, at: Room -> ShardId, rooms: Rooms, now: nat, i: nat)
    ensures var swept := SweptRooms(cfg, rooms, now);
            && EvictedRooms(cfg, at, swept, now, i) == swept
            && forall l :: !DropsLink(cfg, swept, now, InShard(at, swept, i), l)
  {
    var swept := SweptRooms(cfg, rooms, now);
    forall r | r in swept
      ensures Swept(cfg, swept[r], now) == swept[r] && Unlinked(cfg, swept[r], now) == {}
              && Survives(cfg, swept[r], now)
    {
      assert Swept(cfg, swept[r], now).clients == swept[r].clients;
      assert Swept(cfg, swept[r], now).pending == swept[r].pending;
    }
  }

  lemma DroppingLinks(links: set<Link>, ips: seq<Ip>, r: Room)
    ensures links - Elements(LinksTo(ips, r)) == Without(links, Elements(ips), r)
  {
    var q := LinksTo(ips, r);
    forall l ensures l in Elements(q) <==> l.1 == r && l.0 in Elements(ips) {
      if l.1 == r && l.0 in Elements(ips) {
        var j :| 0 <= j < |ips| && ips[j] == l.0;
        assert q[j] == l;
      }
      if l in q {
        var j :| 0 <= j < |q| && q[j] == l;
        assert ips[j] in Elements(ips);
      }
    }
  }

  lemma HostLinked(cfg: Config, s: State, room: Room, ip: Ip)
    requires Inv(cfg, s) && room in s.rooms && Bucket(cfg, s.rooms[room].clients.Keys, ip) != {}
    ensures (ip, room) in s.links
  {
    var b :| b in Bucket(cfg, s.rooms[room].clients.Keys, ip);
    assert b in s.rooms[room].clients;
  }

  lemma FewerBucket(cfg: Config, addrs: set<Addr>, src: Addr, ip: Ip)
    requires Bucket(cfg, addrs - {src}, ip) != {}
    ensures Bucket(cfg, addrs, ip) != {}
  {
    var b :| b in Bucket(cfg, addrs - {src}, ip);
    assert b in Bucket(cfg, addrs, ip);
  }

  lemma CreatedRoom(cfg: Config, s: State, room: Room, src: Addr, resolved: Addr, now: nat)
    ensures Admit(cfg, s.(rooms := s.rooms[room := RoomView(map[], map[], now)]), room, src, resolved, now)
         == s.(rooms := s.rooms[room := RoomView(map[src := NewClient(now, resolved)], map[], now)],
               links := s.links + {(cfg.ipKey(src), room)})
  {
    assert map[][src := NewClient(now, resolved)] == map[src := NewClient(now, resolved)];
  }

  /** Distinct, empty REG limiter shards. */
  ghost predicate Idle(regs: seq<RegShard<Ip>>)
    reads regs
  {
    && (forall i :: 0 <= i < |regs| ==> regs[i].Valid() && regs[i].View() == map[])
    && (forall i, j :: 0 <= i < j < |regs| ==> regs[i] != regs[j])
  }

  method NewRegShards() returns (regs: seq<RegShard<Ip>>)
    ensures |regs| == NUM_SHARDS && Idle(regs) && forall i :: 0 <= i < |regs| ==> fresh(regs[i])
  {
    regs := [];
    for i := 0 to NUM_SHARDS
      invariant |regs| == i && Idle(regs)
      invariant forall j :: 0 <= j < |regs| ==> fresh(regs[j])
    {
      var shard := new RegShard<Ip>();
      regs := regs + [shard];
    }
  }

  /** Everyone but `src` that is no longer `todo`. */
  ghost function Served<T>(all: set<T>, todo: set<T>, src: T): set<T> { all - todo - {src} }

  lemma ServedStep<T>(all: set<T>, todo: set<T>, src: T, a: T)
    requires a in todo && todo <= all
    ensures Served(all, todo - {a}, src) == Served(all, todo, src) + if a == src then {} else {a}
    ensures |Served(all, todo - {a}, src)| == |Served(all, todo, src)| + if a == src then 0 else 1
  {
    assert Served(all, todo - {a}, src) == Served(all, todo, src) + if a == src then {} else {a};
    assert a !in Served(all, todo, src);
  }

  lemma ServedEnds<T>(all: set<T>, src: T)
    ensures Served(all, all, src) == Elements([]) && Served(all, {}, src) == all - {src}
  {
  }

  /** The resolved addresses of everyone in the room but the sender, once each. */
  method Targets(clients: map<Addr, Client>, src: Addr) returns (targets: seq<Addr>)
    requires forall a :: a in clients ==> clients[a].resolved == Some(a)
    ensures Elements(targets) == clients.Keys - {src} && |targets| == |clients.Keys - {src}|
  {
    hide Elements, Served;
    var todo := clients.Keys;
    targets := [];
    ServedEnds(clients.Keys, src);
    assert |Served(clients.Keys, clients.Keys, src)| == 0 by { NoElements<Addr>(); }
    while todo != {}
      invariant todo <= clients.Keys && Elements(targets) == Served(clients.Keys, todo, src)
      invariant |targets| == |Served(clients.Keys, todo, src)|
      decreases todo
    {
      var a :| a in todo;
      ServedStep(clients.Keys, todo, src, a);
      if a != src && clients[a].resolved.Some? {
        ElementsSnoc(targets, clients[a].resolved.value);
        targets := targets + [clients[a].resolved.value];
      }
      todo := todo - {a};
    }
  }

  lemma NoElements<T>()
    ensures Elements<T>([]) == {}
  {
  }

  /** What the server does for an event, as its caller sees it. */
  datatype Answer = Replies(reply: Reply) | Drops(why: MsgReason) | Relays(targets: seq<Addr>) | Nothing

  /** The answer is the outcome; targets are the routed addresses, once each. */
  ghost predicate Gives(a: Answer, o: Outcome) {
    match o
    case Replied(reply) => a == Replies(reply)
    case Forwarded(Refused(why)) => a == Drops(why)
    case Forwarded(Routed(to)) => a.Relays? && Elements(a.targets) == to && |a.targets| == |to|
    case Silent => a == Nothing
  }

  class Relay {
    const cfg: Config
    const table: RoomTable
    const index: IpIndex
    const store: PendingStore
    const regs: seq<RegShard<Ip>>
    ghost var reg: seq<map<Ip, Meter>>

    /** The flat state the tables stand for. */
    ghost function Abs(): State
      reads this, table, index, store
    {
      State(table.rooms, index.links, store.pending, reg)
    }

    /** Tables, placement and counters all agree with `Abs()`. */
    ghost predicate Coupled()
      reads this, table, table.entries, index, store, regs
    {
      && table.cfg == cfg && store.cfg == cfg && store.at == table.at
      && table.Valid() && index.Valid() && store.Valid() && RegsOk()
    }

    ghost predicate RegsOk()
      reads this, regs
    {
      && |regs| == NUM_SHARDS && |reg| == NUM_SHARDS
      && (forall i :: 0 <= i < NUM_SHARDS ==> regs[i].Valid() && regs[i].View() == reg[i])
      && (forall i, j :: 0 <= i < j < NUM_SHARDS ==> regs[i] != regs[j])
    }

    ghost predicate Valid()
      reads this, table, table.entries, index, store, regs
    {
      Coupled() && Inv(cfg, Abs())
    }

    constructor (cfg: Config, at: Room -> ShardId, atIp: Ip -> ShardId)
      ensures Valid() && this.cfg == cfg && Abs() == Init()
      ensures fresh(table) && fresh(table.entries) && fresh(index) && fresh(store) && fresh(regs)
    {
      hide RoomTable.Coupled, IpIndex.Valid, PendingStore.Valid, Inv, Idle, RegsOk;
      this.cfg := cfg;
      table := new RoomTable(cfg, at);
      index := new IpIndex(atIp);
      store := new PendingStore(cfg, at, atIp);
      var shards := NewRegShards();
      regs := shards;
      reg := IdleShards();
      new;
      RegsIdle();
      InitHolds(cfg);
    }

    lemma RegsIdle()
      requires |regs| == NUM_SHARDS && Idle(regs) && reg == IdleShards()
      ensures RegsOk()
    {
    }

    method DropLinks(unlinked: seq<Link>)
      requires index.Valid()
      modifies index
      ensures index.Valid() && index.links == old(index.links) - Elements(unlinked)
    {
      hide IpIndex.Valid;
      assert Elements(unlinked[..0]) == {};
      for j := 0 to |unlinked|
        invariant index.Valid() && index.links == old(index.links) - Elements(unlinked[..j])
      {
        assert unlinked[..j+1] == unlinked[..j] + [unlinked[j]];
        ElementsSnoc(unlinked[..j], unlinked[j]);
        index.Remove(unlinked[j].0, unlinked[j].1);
      }
      assert unlinked[..|unlinked|] == unlinked;
    }

    method SweepEntry(room: Room, e: RoomEntry, now: nat)
      requires Coupled() && room in table.byRoom && e == table.byRoom[room]
      modifies table`rooms, e, index
      ensures Coupled() && Abs() == SweepRoom(cfg, old(Abs()), room, now)
    {
      hide Swept, Unlinked, IpIndex.Valid, PendingStore.Valid, RegsOk, RoomTable.Coupled;
      var ips := table.SweepEntry(room, e, now);
      DroppingLinks(index.links, ips, room);
      DropLinks(LinksTo(ips, room));
    }

    /** Locks one shard at a time; equal to sweeping the whole flat table at once. */
    method EvictStaleRoomsAll(now: nat)
      requires Coupled()
      modifies table, table.entries, index
      ensures Coupled() && Abs() == SweepAll(cfg, old(Abs()), now)
      ensures table.entries == old(table.entries)
    {
      hide Swept, Unlinked, Survives, PartRooms, PartLinks, EvictedRooms, DropsLink, SweptRooms, SweptLinks, InShard;
      hide IpIndex.Valid, PendingStore.Valid, RegsOk, RoomTable.Coupled;
      var n := 0;
      ghost var rooms, links := table.rooms, index.links;
      PartStart(cfg, table.at, rooms, links, now);
      for i := 0 to NUM_SHARDS
        invariant table.Coupled() && index.Valid() && table.entries == old(table.entries)
        invariant table.rooms == PartRooms(cfg, table.at, rooms, now, i) && n + |table.rooms| == |rooms|
        invariant index.links == PartLinks(cfg, table.at, rooms, links, now, i)
        invariant table.total == |rooms|
      {
        var m, unlinked := table.EvictShard(i, now);
        n := n + m;
        DropLinks(unlinked);
        PartStep(cfg, table.at, rooms, now, i);
        PartLinkStep(cfg, table.at, rooms, links, now, i, unlinked);
      }
      PartEnd(cfg, table.at, rooms, links, now);
      table.total := table.total - n;
    }

    // ---- REG ----

    /** A challenge for a room that does not exist. */
    method IssueChallenge(room: Room, src: Addr, mint: Cookie, now: nat) returns (reply: Reply)
      requires Coupled()
      modifies store
      ensures Coupled() && (Abs(), reply) == Issue(cfg, old(Abs()), room, src, mint, now)
    {
      hide IpIndex.Valid, PendingStore.Valid, RegsOk, RoomTable.Valid, PendingFrom;
      var n := store.CountFor(cfg.ipKey(src));
      if n >= cfg.maxPendingPerIp {
        return Dropped(PendingPerIp);
      }
      var ok := store.Store(room, src, Fresh(src, mint, now));
      reply := if ok then Challenge(mint) else Dropped(PendingFull);
    }

    /** The cap checks of a cookie completion, on the room as it stands. */
    method CapsRefuse(room: Room, e: RoomEntry, src: Addr) returns (why: Option<Reason>)
      requires Coupled() && room in table.byRoom && e == table.byRoom[room]
      ensures room in table.rooms && why == Refusal(cfg, table.rooms[room], index.links, src)
    {
      hide IpIndex.Valid, PendingStore.Valid, RegsOk, LinkedTo;
      table.LooksView(room);
      var ip := cfg.ipKey(src);
      var here := Bucket(cfg, e.udpClients.Keys, ip);
      if src !in e.udpClients && |e.udpClients| >= cfg.maxClientsHard {
        return Some(HardCap);
      }
      var linked := index.Count(ip);
      if here == {} && linked >= cfg.maxRoomsPerIp {
        return Some(RoomsPerIp);
      }
      if src !in e.udpClients && |here| >= cfg.maxPerPrefix {
        return Some(PrefixCap);
      }
      why := None;
    }

    /** Admission into an existing room. The host is indexed only when no client of it was seen
        in the room; otherwise its link must already be there. */
    method AdmitInto(room: Room, e: RoomEntry, src: Addr, resolved: Addr, now: nat, already: bool)
      requires Coupled() && room in table.byRoom && e == table.byRoom[room]
      requires already ==> (cfg.ipKey(src), room) in index.links
      modifies table`rooms, e, index
      ensures Coupled() && room in old(table.rooms) && Abs() == Admit(cfg, old(Abs()), room, src, resolved, now)
    {
      hide IpIndex.Valid, PendingStore.Valid, RegsOk;
      hide RoomTable.Coupled;
      table.PutClient(room, e, src, NewClient(now, resolved), now);
      if !already {
        index.Add(cfg.ipKey(src), room);
      }
    }

    /** The stale-room sweeps of a completion: all shards when the cap is reached, then the target
        shard again when that did not help. The second sweep never changes anything. */
    method MakeRoom(room: Room, now: nat)
      requires Coupled()
      modifies table, table.entries, index
      ensures Coupled() && table.entries == old(table.entries)
      ensures Abs() == if |old(Abs()).rooms| >= cfg.maxRooms then SweepAll(cfg, old(Abs()), now) else old(Abs())
    {
      hide SweptRooms, SweptLinks, EvictedRooms, DropsLink, InShard;
      hide IpIndex.Valid, PendingStore.Valid, RegsOk, RoomTable.Coupled;
      if table.total < cfg.maxRooms {
        return;
      }
      EvictStaleRoomsAll(now);
      var e := table.Get(room);
      if e == null && table.total >= cfg.maxRooms {
        Resweep(table.at(room), now, old(table.rooms));
      }
    }

    method Resweep(i: ShardId, now: nat, ghost before: Rooms)
      requires Coupled() && table.rooms == SweptRooms(cfg, before, now)
      modifies table, table.entries, index
      ensures Coupled() && Abs() == old(Abs()) && table.entries == old(table.entries)
    {
      hide SweptRooms, EvictedRooms, DropsLink, InShard;
      hide IpIndex.Valid, PendingStore.Valid, RegsOk, RoomTable.Coupled;
      ResweepIsNoop(cfg, table.at, before, now, i);
      var n, unlinked := table.EvictShard(i, now);
      table.total := table.total - n;
      assert Elements(unlinked) == {};
      DropLinks(unlinked);
    }

    method CreateRoom(room: Room, src: Addr, resolved: Addr, now: nat)
      requires Coupled() && room !in table.rooms
      modifies table, index
      ensures Coupled() && fresh(table.entries - old(table.entries))
      ensures var s := old(Abs());
              Abs() == Admit(cfg, s.(rooms := s.rooms[room := RoomView(map[], map[], now)]), room, src, resolved, now)
    {
      hide IpIndex.Valid, PendingStore.Valid, RegsOk, RoomTable.Coupled, Admit, Tallies;
      CreatedRoom(cfg, Abs(), room, src, resolved, now);
      var e := new RoomEntry(cfg, now);
      e.udpClients := map[src := NewClient(now, resolved)];
      e.t := now;
      table.Insert(room, e);
      index.Add(cfg.ipKey(src), room);
    }

    /** Completion of a challenge issued before the room existed. */
    method RegCookieCreateOrAdmit(room: Room, src: Addr, resolved: Addr, now: nat) returns (reply: Reply)
      requires Coupled() && Inv(cfg, Abs())
      modifies table, table.entries, index
      ensures Coupled() && fresh(table.entries - old(table.entries))
      ensures (Abs(), reply) == CompleteGlobal(cfg, old(Abs()), room, src, resolved, now)
    {
      hide IpIndex.Valid, PendingStore.Valid, RegsOk, RoomTable.Coupled, Admit, SweepAll, SweepRoom, Inv, Refusal;
      hide LinkedTo, Bucket;
      ghost var s := if |Abs().rooms| >= cfg.maxRooms then SweepAll(cfg, Abs(), now) else Abs();
      SweepAllKeeps(cfg, Abs(), now);
      MakeRoom(room, now);
      var ip := cfg.ipKey(src);
      var e := table.Get(room);
      if e == null {
        if table.total >= cfg.maxRooms {
          return Dropped(MaxRooms);
        }
        var linked := index.Count(ip);
        if linked >= cfg.maxRoomsPerIp {
          return Dropped(RoomsPerIp);
        }
        CreateRoom(room, src, resolved, now);
        return Regd;
      }
      reply := AdmitSwept(room, e, src, resolved, now);
    }

    /** Sweep the room, check the caps, admit. */
    method AdmitSwept(room: Room, e: RoomEntry, src: Addr, resolved: Addr, now: nat) returns (reply: Reply)
      requires Coupled() && Inv(cfg, Abs()) && room in table.byRoom && e == table.byRoom[room]
      modifies table`rooms, e, index
      ensures Coupled() && room in old(table.rooms)
      ensures var s1 := SweepRoom(cfg, old(Abs()), room, now);
              room in s1.rooms &&
              (Abs(), reply) == match Refusal(cfg, s1.rooms[room], s1.links, src)
                                case Some(why) => (s1, Dropped(why))
                                case None => (Admit(cfg, s1, room, src, resolved, now), Regd)
    {
      hide IpIndex.Valid, PendingStore.Valid, RegsOk, Admit, SweepRoom, Inv, Refusal, LinkedTo, Bucket;
      hide RoomTable.Coupled;
      table.LooksView(room);
      SweepRoomKeeps(cfg, Abs(), room, now);
      SweepEntry(room, e, now);
      table.LooksView(room);
      var ip := cfg.ipKey(src);
      var already := Bucket(cfg, e.udpClients.Keys, ip) != {};
      if already { HostLinked(cfg, Abs(), room, ip); }
      var why := CapsRefuse(room, e, src);
      if why.Some? {
        return Dropped(why.value);
      }
      AdmitInto(room, e, src, resolved, now, already);
      reply := Regd;
    }

    /** Completion of a challenge issued inside an existing room. */
    method RegCookieInRoom(room: Room, e: RoomEntry, src: Addr, cookie: Cookie, now: nat) returns (reply: Reply)
      requires Coupled() && Inv(cfg, Abs()) && room in table.byRoom && e == table.byRoom[room]
      modifies table`rooms, e, index
      ensures Coupled() && room in old(table.rooms)
      ensures (Abs(), reply) == CompleteInRoom(cfg, old(Abs()), room, src, cookie, now)
    {
      hide IpIndex.Valid, PendingStore.Valid, RegsOk, Admit, SweepRoom, Inv, Refusal, LinkedTo, Bucket, Expired;
      hide RoomTable.Coupled;
      table.LooksView(room);
      if src !in e.pending || e.pending[src].cookie != cookie {
        return Dropped(MismatchedCookie);
      }
      if Expired(e.pending[src], now) {
        table.RemovePending(room, e, src);
        return Dropped(ExpiredCookie);
      }
      var resolved := e.pending[src].resolved;
      reply := AdmitPending(room, e, src, resolved, now);
    }

    /** Sweep the room, check the caps, and turn the pending registration into a client. The host
        is indexed again unless another of its addresses is in the room. */
    method AdmitPending(room: Room, e: RoomEntry, src: Addr, resolved: Addr, now: nat) returns (reply: Reply)
      requires Coupled() && Inv(cfg, Abs()) && room in table.byRoom && e == table.byRoom[room]
      modifies table`rooms, e, index
      ensures Coupled() && room in old(table.rooms)
      ensures var s1 := SweepRoom(cfg, old(Abs()), room, now);
              room in s1.rooms &&
              (Abs(), reply) == match Refusal(cfg, s1.rooms[room], s1.links, src)
                                case Some(why) => (s1, Dropped(why))
                                case None => (Admit(cfg, DropRoomPending(s1, room, src), room, src, resolved, now),
                                              Regd)
    {
      hide IpIndex.Valid, PendingStore.Valid, RegsOk, Admit, SweepRoom, Inv, Refusal, LinkedTo, Bucket;
      hide RoomTable.Coupled;
      table.LooksView(room);
      SweepRoomKeeps(cfg, Abs(), room, now);
      SweepEntry(room, e, now);
      table.LooksView(room);
      var ip := cfg.ipKey(src);
      var already := Bucket(cfg, e.udpClients.Keys - {src}, ip) != {};
      if already {
        FewerBucket(cfg, e.udpClients.Keys, src, ip);
        HostLinked(cfg, Abs(), room, ip);
      }
      var why := CapsRefuse(room, e, src);
      if why.Some? {
        return Dropped(why.value);
      }
      table.RemovePending(room, e, src);
      AdmitInto(room, e, src, resolved, now, already);
      reply := Regd;
    }

    /** A REG with a cookie, for a challenge kept in the pending store. */
    method RegCookiePending(room: Room, src: Addr, pend: PendingReg, cookie: Cookie, ghost mint: Cookie, now: nat)
      returns (reply: Reply)
      requires Coupled() && Inv(cfg, Abs()) && (room, src) in store.pending && pend == store.pending[(room, src)]
      modifies table, table.entries, index, store
      ensures Coupled() && fresh(table.entries - old(table.entries))
      ensures (Abs(), reply) == CookieReg(cfg, old(Abs()), room, src, cookie, mint, now)
    {
      hide IpIndex.Valid, PendingStore.Valid, RegsOk, RoomTable.Valid, Inv, LinkedTo, Expired, CompleteGlobal;
      hide CompleteInRoom, Issue;
      DropPendingKeeps(cfg, Abs(), room, src);
      if pend.cookie != cookie {
        return Dropped(MismatchedCookie);
      }
      if Expired(pend, now) {
        store.Delete(room, src);
        return Dropped(ExpiredCookie);
      }
      store.Delete(room, src);
      reply := RegCookieCreateOrAdmit(room, src, pend.resolved, now);
    }

    /** A REG with a cookie. */
    method RegWithCookie(room: Room, src: Addr, cookie: Cookie, mint: Cookie, now: nat) returns (reply: Reply)
      requires Coupled() && Inv(cfg, Abs())
      modifies table, table.entries, index, store
      ensures Coupled() && fresh(table.entries - old(table.entries))
      ensures (Abs(), reply) == CookieReg(cfg, old(Abs()), room, src, cookie, mint, now)
    {
      hide IpIndex.Valid, PendingStore.Valid, RegsOk, RoomTable.Valid, Inv, LinkedTo, Expired, CompleteGlobal;
      hide CompleteInRoom, Issue;
      var pend := store.Get(room, src);
      if pend.Some? {
        reply := RegCookiePending(room, src, pend.value, cookie, mint, now);
        return;
      }
      table.IsCoupled();
      var e := table.Get(room);
      if e == null {
        var linked := index.Count(cfg.ipKey(src));
        if linked >= cfg.maxRoomsPerIp {
          return Dropped(RoomsPerIp);
        }
        reply := IssueChallenge(room, src, mint, now);
      } else {
        reply := RegCookieInRoom(room, e, src, cookie, now);
      }
    }

    /** A REG without a cookie, in a freshly swept room. */
    method KnockOn(room: Room, e: RoomEntry, src: Addr, mint: Cookie, now: nat) returns (reply: Reply)
      requires Coupled() && room in table.byRoom && e == table.byRoom[room]
      modifies table`rooms, e
      ensures Coupled() && room in old(table.rooms)
      ensures (Abs(), reply) == Knock(cfg, old(Abs()), room, src, mint, now)
    {
      hide IpIndex.Valid, PendingStore.Valid, RegsOk, RoomTable.Coupled, PendingFrom, Bucket;
      table.LooksView(room);
      if |e.udpClients| >= cfg.maxClientsHard && src !in e.udpClients {
        return Dropped(HardCap);
      }
      if src in e.udpClients {
        table.PutClient(room, e, src, e.udpClients[src].(lastSeen := now, resolved := Some(src)), e.t);
        return Regd;
      }
      if src in e.pending {
        var cookie := e.pending[src].cookie;
        table.RenewPending(room, e, src, Fresh(src, cookie, now));
        return Challenge(cookie);
      }
      var outside := store.CountFor(cfg.ipKey(src));
      var inside := e.PendingCountForIp(cfg.ipKey(src));
      if outside + inside >= cfg.maxPendingPerIp {
        return Dropped(PendingPerIp);
      }
      var ok := table.AddPending(room, e, src, Fresh(src, mint, now));
      reply := if ok then Challenge(mint) else Dropped(PendingFull);
    }

    /** A REG without a cookie. */
    method RegPlain(room: Room, src: Addr, mint: Cookie, now: nat) returns (reply: Reply)
      requires Coupled()
      modifies table, table.entries, index, store
      ensures Coupled() && table.entries == old(table.entries)
      ensures (Abs(), reply) == PlainReg(cfg, old(Abs()), room, src, mint, now)
    {
      hide IpIndex.Valid, PendingStore.Valid, RegsOk, RoomTable.Valid, LinkedTo, Issue, Knock, SweepRoom;
      var linked := index.Count(cfg.ipKey(src));
      if linked >= cfg.maxRoomsPerIp {
        return Dropped(RoomsPerIp);
      }
      table.IsCoupled();
      var e := table.Get(room);
      if e == null {
        reply := IssueChallenge(room, src, mint, now);
      } else {
        SweepEntry(room, e, now);
        reply := KnockOn(room, e, src, mint, now);
      }
    }

    method RegLimited(ip: Ip, now: nat) returns (limited: bool)
      requires RegsOk()
      modifies regs, this`reg
      ensures RegsOk()
      ensures var i := cfg.regShard(ip);
              && |old(reg)| == NUM_SHARDS
              && limited == RegMeet(old(reg)[i], ip, now, cfg.rateWindow, cfg.maxRegRate).0
              && reg == old(reg)[i := RegMeet(old(reg)[i], ip, now, cfg.rateWindow, cfg.maxRegRate).1]
    {
      hide RegMeet;
      var i := cfg.regShard(ip);
      limited := regs[i].IsLimited(ip, now, cfg.rateWindow, cfg.maxRegRate);
      reg := reg[i := regs[i].View()];
    }

    /** Every REG: the rate limit first, then the shape of the packet decides. */
    method HandleReg(room: Room, cred: Credential, src: Addr, mint: Cookie, now: nat) returns (reply: Reply)
      requires Valid() && Positive(cfg)
      modifies this`reg, regs, table, table.entries, index, store
      ensures Valid() && fresh(table.entries - old(table.entries)) && |old(reg)| == NUM_SHARDS
      ensures (Abs(), reply) == RegStep(cfg, old(Abs()), room, cred, src, mint, now)
    {
      hide IpIndex.Valid, PendingStore.Valid, RoomTable.Valid, Inv, RegMeet, PlainReg, CookieReg;
      StepKeeps(cfg, Abs(), Reg(room, cred, src, mint, now));
      hide RegsOk;
      ghost var s := Abs();
      var limited := RegLimited(cfg.ipKey(src), now);
      MeterKeeps(cfg, s, Abs().reg);
      if limited {
        return Dropped(RateLimited);
      }
      match cred
      case Absent => reply := RegPlain(room, src, mint, now);
      case Malformed => reply := Dropped(BadCookie);
      case Presented(cookie) => reply := RegWithCookie(room, src, cookie, mint, now);
    }

    // ---- MSG ----

    /** A well-formed MSG: either a reason it was dropped, or the address of every other client of
        the room, once each. */
    method HandleMsg(room: Room, src: Addr, now: nat) returns (why: Option<MsgReason>, targets: seq<Addr>)
      requires Valid()
      modifies table, table.entries
      ensures Valid() && table.entries == old(table.entries)
      ensures Abs() == MsgStep(cfg, old(Abs()), room, src, now).0
      ensures match MsgStep(cfg, old(Abs()), room, src, now).1
              case Refused(reason) => why == Some(reason) && targets == []
              case Routed(to) => why == None && Elements(targets) == to && |targets| == |to|
    {
      hide IpIndex.Valid, PendingStore.Valid, RegsOk, RoomTable.Coupled, Inv, Elements, Meet, Homed;
      MsgKeeps(cfg, Abs(), room, src, now);
      var e := table.Get(room);
      if e == null {
        return Some(UnknownRoom), [];
      }
      table.LooksView(room);
      if src !in e.udpClients {
        return Some(NotAClient), [];
      }
      HomedClients(cfg, Abs(), room);
      targets := Targets(e.udpClients, src);
      var c := e.udpClients[src];
      var (limited, m) := Meet(c.limiter, now, cfg.rateWindow, cfg.maxMsgRate);
      table.PutClient(room, e, src, c.(limiter := m), e.t);
      if limited {
        return Some(MsgRateLimited), [];
      }
      why := None;
    }

    // ---- timers ----

    method HandleSweep(now: nat)
      requires Valid()
      modifies table, table.entries, index, store
      ensures Valid() && table.entries == old(table.entries)
      ensures Abs() == RoomTick(cfg, old(Abs()), now)
    {
      hide IpIndex.Valid, PendingStore.Valid, RegsOk, RoomTable.Valid, Inv, SweepAll, FreshPending;
      RoomTickKeeps(cfg, Abs(), now);
      EvictStaleRoomsAll(now);
      store.RemoveStale(now);
    }

    method HandleRateCleanup(now: nat)
      requires Valid()
      modifies this`reg, regs
      ensures Valid() && Abs() == RateTick(cfg, old(Abs()), now)
    {
      hide IpIndex.Valid, PendingStore.Valid, RoomTable.Valid, Inv, RegsOk, SweptShards;
      RegCount();
      MeterKeeps(cfg, Abs(), SweptShards(reg, now, 2 * cfg.rateWindow));
      CleanupShards(now, 2 * cfg.rateWindow);
    }

    lemma RegCount()
      requires Valid()
      ensures |reg| == NUM_SHARDS
    {
    }

    method CleanupShards(now: nat, age: nat)
      requires RegsOk()
      modifies this`reg, regs
      ensures RegsOk() && reg == SweptShards(old(reg), now, age)
    {
      hide RegSweep, RegShard.Valid, RegShard.View;
      for i := 0 to NUM_SHARDS
        invariant reg == old(reg)
        invariant forall j :: 0 <= j < i ==> regs[j].Valid() && regs[j].View() == RegSweep(reg[j], now, age)
        invariant forall j :: i <= j < NUM_SHARDS ==> regs[j].Valid() && regs[j].View() == reg[j]
      {
        regs[i].CleanupStale(now, age);
      }
      reg := SweptShards(reg, now, age);
    }

    // ---- runs ----

    method Forward(room: Room, src: Addr, now: nat) returns (answer: Answer)
      requires Valid()
      modifies table, table.entries
      ensures Valid() && table.entries == old(table.entries)
      ensures var (s, routing) := MsgStep(cfg, old(Abs()), room, src, now);
              Abs() == s && Gives(answer, Forwarded(routing))
    {
      hide Coupled, Inv, MsgStep, Elements;
      var why, targets := HandleMsg(room, src, now);
      answer := if why.Some? then Drops(why.value) else Relays(targets);
    }

    method Handle(event: Event) returns (answer: Answer)
      requires Valid() && Positive(cfg)
      modifies this`reg, regs, table, table.entries, index, store
      ensures Valid() && fresh(table.entries - old(table.entries)) && |old(reg)| == NUM_SHARDS
      ensures Abs() == Step(cfg, old(Abs()), event).0 && Gives(answer, Step(cfg, old(Abs()), event).1)
    {
      hide Valid, RegStep, MsgStep, RoomTick, RateTick, Elements;
      RegCount();
      match event
      case Reg(room, cred, src, mint, now) =>
        var reply := HandleReg(room, cred, src, mint, now);
        answer := Replies(reply);
      case Msg(room, src, now) =>
        answer := Forward(room, src, now);
      case Sweep(now) =>
        HandleSweep(now);
        answer := Nothing;
      case RateCleanup(now) =>
        HandleRateCleanup(now);
        answer := Nothing;
    }
  }

  lemma HomedClients(cfg: Config, s: State, room: Room)
    requires Inv(cfg, s) && room in s.rooms
    ensures forall a :: a in s.rooms[room].clients ==> s.rooms[room].clients[a].resolved == Some(a)
  {
    RoomFacts(cfg, s, room);
  }

  lemma MeterKeeps(cfg: Config, s: State, reg: seq<map<Ip, Meter>>)
    requires Inv(cfg, s) && |reg| == NUM_SHARDS
    ensures Inv(cfg, s.(reg := reg))
  {
  }

  /** Any run of the sharded server from the start ends in the state the flat machine ends in, and has
      answered every event as the flat machine does. */
  method Serve(cfg: Config, at: Room -> ShardId, atIp: Ip -> ShardId, events: seq<Event>)
    returns (relay: Relay, answers: seq<Answer>)
    requires Positive(cfg)
    ensures fresh(relay) && relay.Valid() && relay.cfg == cfg && relay.Abs() == Run(cfg, events)
    ensures |answers| == |events|
    ensures forall i :: 0 <= i < |events| ==> Gives(answers[i], OutcomeAt(cfg, events, i))
  {
    hide Relay.Coupled, Inv, Step, Gives;
    relay := new Relay(cfg, at, atIp);
    answers := [];
    for i := 0 to |events|
      invariant fresh(relay) && fresh(relay.table) && fresh(relay.table.entries) && fresh(relay.index)
      invariant fresh(relay.store) && fresh(relay.regs)
      invariant relay.Valid() && relay.cfg == cfg && relay.Abs() == Run(cfg, events[..i])
      invariant |answers| == i && forall j :: 0 <= j < i ==> Gives(answers[j], OutcomeAt(cfg, events, j))
    {
      var answer := relay.Handle(events[i]);
      answers := answers + [answer];
      assert events[..i + 1][..i] == events[..i];
    }
    assert events[..|events|] == events;
  }
}
