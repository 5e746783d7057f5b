/** Runs that show where the relay falls short: each starts from the empty server and needs only caps that
    leave a little room. */
module RelayScenarios {
  import opened Net
  import opened Sizes
  import opened Limiters
  import opened RelaySpec
  import opened RelayInv
  import opened RelayIndex
  import opened RelayLiveness
  import opened RelayMembership

  /** Caps and rate that do not get in the way of a handful of packets. */
  predicate Roomy(cfg: Config) {
    && cfg.maxRooms >= 2 && cfg.maxRoomsPerIp >= 1 && cfg.maxClientsHard >= 2 && cfg.maxPerPrefix >= 2
    && cfg.maxPendingPerIp >= 2 && cfg.maxPendingGlobal >= 2 && cfg.maxPendingPerRoom >= 1 && cfg.maxRegRate >= 5
  }

  // ---- the registration limiter stays out of the way ----

  /** No limiter shard knows more than `n` hosts or has counted more than `n` of any. */
  ghost predicate Calm(reg: seq<map<Ip, Meter>>, n: nat) {
    && |reg| == NUM_SHARDS
    && forall i :: 0 <= i < |reg| ==> |reg[i]| <= n && forall ip :: ip in reg[i] ==> reg[i][ip].count <= n
  }

  lemma MeetCalm(cfg: Config, reg: seq<map<Ip, Meter>>, ip: Ip, now: nat, n: nat)
    requires Calm(reg, n) && n < cfg.maxRegRate && n < MAX_REG_SHARD_ENTRIES
    ensures var i := cfg.regShard(ip);
            var (limited, shard) := RegMeet(reg[i], ip, now, cfg.rateWindow, cfg.maxRegRate);
            !limited && Calm(reg[i := shard], n + 1)
  {
    var v := reg[cfg.regShard(ip)];
    InsertSize(v, ip, Meter(1, now));
    if ip in v { InsertSize(v, ip, v[ip].(count := v[ip].count + 1)); }
  }

  // ---- single packets ----

  lemma FewPending(cfg: Config, keys: set<PendKey>, ip: Ip)
    ensures |PendingFrom(cfg, keys, ip)| <= |keys|
  {
    SubsetSize(PendingFrom(cfg, keys, ip), keys);
  }

  ghost predicate Unlinkable(links: set<Link>, ip: Ip) { forall l :: l in links ==> l.0 != ip }

  lemma NoLinks(links: set<Link>, ip: Ip)
    requires Unlinkable(links, ip)
    ensures LinkedTo(links, ip) == {}
  {
  }

  /** A REG for a room that does not exist, with no entry of its own waiting, gets a challenge. */
  lemma Ask(cfg: Config, s: State, room: Room, cred: Credential, src: Addr, mint: Cookie, now: nat, n: nat)
    requires Roomy(cfg) && Calm(s.reg, n) && n < 5 && !cred.Malformed?
             && (cred.Presented? ==> (room, src) !in s.pending)
    requires room !in s.rooms && Unlinkable(s.links, cfg.ipKey(src)) && |s.pending| < 2
    ensures var (s', o) := Step(cfg, s, Reg(room, cred, src, mint, now));
            && o == Replied(Challenge(mint)) && Calm(s'.reg, n + 1) && s'.rooms == s.rooms && s'.links == s.links
            && s'.pending == s.pending[(room, src) := PendingReg(mint, now, src)]
  {
    hide RegMeet, LinkedTo, PendingFrom, CompleteGlobal, CompleteInRoom, SweepRoom, Calm;
    CalmSize(s.reg, n);
    MeetCalm(cfg, s.reg, cfg.ipKey(src), now, n);
    NoLinks(s.links, cfg.ipKey(src));
    FewPending(cfg, s.pending.Keys, cfg.ipKey(src));
    assert |s.pending| == |s.pending.Keys|;
  }

  lemma CalmSize(reg: seq<map<Ip, Meter>>, n: nat)
    requires Calm(reg, n)
    ensures |reg| == NUM_SHARDS
  {
  }

  /** The cookie comes back: the room opens. */
  lemma Open(cfg: Config, s: State, room: Room, src: Addr, cookie: Cookie, mint: Cookie, now: nat, n: nat)
    requires Roomy(cfg) && Calm(s.reg, n) && n < 5 && s.rooms == map[] && s.links == {}
    requires (room, src) in s.pending && s.pending[(room, src)] == PendingReg(cookie, now, src)
    ensures var (s', o) := Step(cfg, s, Reg(room, Presented(cookie), src, mint, now));
            && o == Replied(Regd) && Calm(s'.reg, n + 1) && s'.links == {(cfg.ipKey(src), room)}
            && s'.rooms == map[room := RoomView(map[src := NewClient(now, src)], map[], now)]
            && s'.pending == s.pending - {(room, src)}
  {
    hide RegMeet, CompleteInRoom, SweepRoom, SweepAll, Refusal, Issue, Calm;
    CalmSize(s.reg, n);
    MeetCalm(cfg, s.reg, cfg.ipKey(src), now, n);
    assert LinkedTo(s.links, cfg.ipKey(src)) == {};
    var c := NewClient(now, src);
    assert map[][src := c] == map[src := c];
  }

  /** Everybody in the room is fresh. */
  ghost predicate Lively(cfg: Config, v: RoomView, now: nat) {
    && (forall a :: a in v.clients ==> !Stale(cfg, v.clients[a], now))
    && (forall a :: a in v.pending ==> !Expired(v.pending[a], now))
  }

  lemma LivelySweep(cfg: Config, s: State, room: Room, now: nat)
    requires room in s.rooms && Lively(cfg, s.rooms[room], now)
    ensures SweepRoom(cfg, s, room, now) == s
  {
    var v := s.rooms[room];
    var w := Swept(cfg, v, now);
    assert w.clients == v.clients && w.pending == v.pending;
    assert Unlinked(cfg, v, now) == {};
    assert s.rooms[room := w] == s.rooms;
    assert Without(s.links, {}, room) == s.links;
  }

  /** The cookie comes back and somebody of the same host has opened the room: the source joins it. */
  lemma Join(cfg: Config, s: State, room: Room, a: Addr, src: Addr, cookie: Cookie, mint: Cookie, now: nat, n: nat)
    requires Roomy(cfg) && Calm(s.reg, n) && n < 5 && src != a && cfg.ipKey(src) == cfg.ipKey(a)
    requires s.rooms == map[room := RoomView(map[a := NewClient(now, a)], map[], now)]
    requires (room, src) in s.pending && s.pending[(room, src)] == PendingReg(cookie, now, src)
    ensures var (s', o) := Step(cfg, s, Reg(room, Presented(cookie), src, mint, now));
            && o == Replied(Regd) && s'.links == s.links + {(cfg.ipKey(src), room)} && Calm(s'.reg, n + 1)
            && s'.rooms == map[room := RoomView(map[a := NewClient(now, a), src := NewClient(now, src)], map[], now)]
            && s'.pending == s.pending - {(room, src)}
  {
    hide RegMeet, CompleteInRoom, SweepRoom, SweepAll, Issue, Calm, LinkedTo;
    CalmSize(s.reg, n);
    MeetCalm(cfg, s.reg, cfg.ipKey(src), now, n);
    var v := s.rooms[room];
    var s1 := DropPending(Metered(cfg, s, src, now), room, src);
    LivelySweep(cfg, s1, room, now);
    assert v.clients.Keys == {a} && Bucket(cfg, v.clients.Keys, cfg.ipKey(src)) == {a};
    assert v.clients[src := NewClient(now, src)] == map[a := NewClient(now, a), src := NewClient(now, src)];
  }

  /** A REG from a stranger for an open, lively room with one client gets a challenge inside the room. */
  lemma Knocks(cfg: Config, s: State, room: Room, src: Addr, mint: Cookie, now: nat, n: nat)
    requires Roomy(cfg) && Calm(s.reg, n) && n < 5 && room in s.rooms && Lively(cfg, s.rooms[room], now)
    requires Unlinkable(s.links, cfg.ipKey(src)) && |s.pending| < 2
    requires src !in s.rooms[room].clients && |s.rooms[room].clients| == 1 && s.rooms[room].pending == map[]
    ensures var (s', o) := Step(cfg, s, Reg(room, Absent, src, mint, now));
            && o == Replied(Challenge(mint)) && Calm(s'.reg, n + 1) && s'.links == s.links && s'.pending == s.pending
            && s'.rooms == s.rooms[room := s.rooms[room].(pending := map[src := PendingReg(mint, now, src)])]
  {
    hide RegMeet, LinkedTo, PendingFrom, CookieReg, Issue, SweepRoom, Calm;
    CalmSize(s.reg, n);
    MeetCalm(cfg, s.reg, cfg.ipKey(src), now, n);
    NoLinks(s.links, cfg.ipKey(src));
    FewPending(cfg, s.pending.Keys, cfg.ipKey(src));
    assert |s.pending| == |s.pending.Keys|;
    var s1 := Metered(cfg, s, src, now);
    LivelySweep(cfg, s1, room, now);
    assert Bucket(cfg, s.rooms[room].pending.Keys, cfg.ipKey(src)) == {};
    assert map[][src := PendingReg(mint, now, src)] == map[src := PendingReg(mint, now, src)];
  }

  lemma RunSnoc(cfg: Config, es: seq<Event>, e: Event)
    ensures Run(cfg, es + [e]) == Step(cfg, Run(cfg, es), e).0
  {
    assert (es + [e])[..|es|] == es;
  }

  lemma StartsEmpty(cfg: Config)
    ensures Run(cfg, []) == Init() && Calm(Init().reg, 0)
  {
  }

  /** Two sources ask for a room that does not exist. */
  lemma TwoAsked(cfg: Config, r: Room, a: Addr, b: Addr, x: Cookie, y: Cookie)
    requires Roomy(cfg) && a != b
    ensures var s := Run(cfg, [Reg(r, Absent, a, x, 0)] + [Reg(r, Absent, b, y, 0)]);
            && s.rooms == map[] && s.links == {} && Calm(s.reg, 2)
            && s.pending == map[(r, a) := PendingReg(x, 0, a), (r, b) := PendingReg(y, 0, b)]
  {
    hide Step, Run, Calm;
    var e1, e2 := Reg(r, Absent, a, x, 0), Reg(r, Absent, b, y, 0);
    StartsEmpty(cfg);
    RunSnoc(cfg, [], e1);
    assert [] + [e1] == [e1];
    Ask(cfg, Init(), r, Absent, a, x, 0, 0);
    var s1 := Run(cfg, [e1]);
    RunSnoc(cfg, [e1], e2);
    OnePending(s1.pending, (r, a), PendingReg(x, 0, a));
    Ask(cfg, s1, r, Absent, b, y, 0, 1);
    var p, q := PendingReg(x, 0, a), PendingReg(y, 0, b);
    assert map[][(r, a) := p][(r, b) := q] == map[(r, a) := p, (r, b) := q];
  }

  // ---- the index goes out of step ----

  /** Two addresses of one host ask for a room, open it and join it. */
  function TwinsMeet(r: Room, a: Addr, b: Addr, x: Cookie, y: Cookie): seq<Event> {
    [Reg(r, Absent, a, x, 0)] + [Reg(r, Absent, b, y, 0)] + [Reg(r, Presented(x), a, x, 0)]
        + [Reg(r, Presented(y), b, y, 0)]
  }

  lemma TwinsMet(cfg: Config, r: Room, a: Addr, b: Addr, x: Cookie, y: Cookie)
    requires Roomy(cfg) && a != b && cfg.ipKey(a) == cfg.ipKey(b)
    ensures var s := Run(cfg, TwinsMeet(r, a, b, x, y));
            s.rooms == map[r := Twins(a, b)] && s.links == {(cfg.ipKey(a), r)} && s.pending == map[]
  {
    hide Step, Run, Calm, Twins;
    var e1, e2 := Reg(r, Absent, a, x, 0), Reg(r, Absent, b, y, 0);
    var e3, e4 := Reg(r, Presented(x), a, x, 0), Reg(r, Presented(y), b, y, 0);
    TwoAsked(cfg, r, a, b, x, y);
    var s2 := Run(cfg, [e1] + [e2]);
    RunSnoc(cfg, [e1] + [e2], e3);
    Open(cfg, s2, r, a, x, x, 0, 2);
    var s3 := Run(cfg, [e1] + [e2] + [e3]);
    RunSnoc(cfg, [e1] + [e2] + [e3], e4);
    Join(cfg, s3, r, a, b, y, y, 0, 3);
    AreTwins(a, b);
    assert s3.pending - {(r, b)} == map[];
  }

  /** When nobody is heard of for the TTL, the index ends up with a room that does not exist, and the leak of
      `PhantomIff` has happened. */
  lemma TwinsLeakInARun(cfg: Config, r: Room, a: Addr, b: Addr, x: Cookie, y: Cookie)
    requires Roomy(cfg) && a != b && cfg.ipKey(a) == cfg.ipKey(b)
    ensures var es := TwinsMeet(r, a, b, x, y) + [Sweep(cfg.regTtl + 1)]; var s := Run(cfg, es);
            && r !in s.rooms && (cfg.ipKey(a), r) in s.links && !Exact(cfg, s.rooms, s.links)
            && Unrepaired(cfg, es, cfg.ipKey(a), r)
  {
    hide Step, Run, SweepAll, RoomTick, Exact, Twins, TwinsMeet, Unrepaired;
    var es := TwinsMeet(r, a, b, x, y);
    var s := Run(cfg, es);
    TwinsMet(cfg, r, a, b, x, y);
    RunSnoc(cfg, es, Sweep(cfg.regTtl + 1));
    TwinsLeak(cfg, s, r, a, b);
    SweepIs(cfg, s, cfg.regTtl + 1);
    LinkWithoutRoom(cfg, Run(cfg, es + [Sweep(cfg.regTtl + 1)]), cfg.ipKey(a), r);
    PhantomIff(cfg, es + [Sweep(cfg.regTtl + 1)], cfg.ipKey(a), r);
  }

  /** And with a limit of one room per host, that host is never let in again: every REG it sends after this run is
      dropped, whatever else happens. */
  lemma TwinsLockedOut(cfg: Config, r: Room, a: Addr, b: Addr, x: Cookie, y: Cookie, more: seq<Event>)
    requires Roomy(cfg) && cfg.maxRoomsPerIp == 1 && a != b && cfg.ipKey(a) == cfg.ipKey(b)
    ensures var es := TwinsMeet(r, a, b, x, y) + [Sweep(cfg.regTtl + 1)];
            forall j :: 0 <= j < |more| && more[j].Reg? && cfg.ipKey(more[j].src) == cfg.ipKey(a) ==>
              var o := Step(cfg, Run(cfg, es + more[..j]), more[j]).1; o.Replied? && o.reply.Dropped?
  {
    hide Step, Run, SweepAll, Twins, TwinsMeet, LockedOut;
    var es, e := TwinsMeet(r, a, b, x, y), Sweep(cfg.regTtl + 1);
    var s := Run(cfg, es);
    TwinsMet(cfg, r, a, b, x, y);
    RunSnoc(cfg, es, e);
    TwinsLeak(cfg, s, r, a, b);
    SweepIs(cfg, s, cfg.regTtl + 1);
    EmptyLockout(cfg, s, cfg.regTtl + 1, r, cfg.ipKey(a));
    LockedOutForGood(cfg, es + [e], more, cfg.ipKey(a));
  }

  lemma EmptyLockout(cfg: Config, s: State, now: nat, r: Room, ip: Ip)
    requires s.rooms.Keys == {r} && s.pending == map[] && cfg.maxRoomsPerIp == 1
    requires r !in SweepAll(cfg, s, now).rooms && (ip, r) in SweepAll(cfg, s, now).links
    ensures LockedOut(cfg, RoomTick(cfg, s, now), ip)
  {
    hide Survives, Swept, SweptLinks;
    var s' := RoomTick(cfg, s, now);
    assert s'.rooms == map[] && s'.pending == map[];
    assert r in LinkedTo(s'.links, ip);
  }

  lemma OnePending(pending: map<PendKey, PendingReg>, k: PendKey, p: PendingReg)
    requires pending == map[][k := p]
    ensures |pending| == 1
  {
    assert pending.Keys == {k};
    assert |pending| == |pending.Keys|;
  }

  lemma AreTwins(a: Addr, b: Addr)
    ensures Twins(a, b) == RoomView(map[a := NewClient(0, a), b := NewClient(0, b)], map[], 0)
  {
  }

  lemma SweepIs(cfg: Config, s: State, now: nat)
    requires |s.reg| == NUM_SHARDS
    ensures Step(cfg, s, Sweep(now)).0 == RoomTick(cfg, s, now)
    ensures RoomTick(cfg, s, now).rooms == SweepAll(cfg, s, now).rooms
            && RoomTick(cfg, s, now).links == SweepAll(cfg, s, now).links
  {
  }

  lemma LinkWithoutRoom(cfg: Config, s: State, ip: Ip, r: Room)
    requires r !in s.rooms && (ip, r) in s.links
    ensures !Exact(cfg, s.rooms, s.links)
  {
  }

  // ---- a challenge inside a room is lost with the room ----

  /** `a` opens the room; `b` asks for it just before it goes stale; the timer fires one tick later. */
  function Evicting(cfg: Config, r: Room, a: Addr, b: Addr, x: Cookie, y: Cookie): seq<Event> {
    [Reg(r, Absent, a, x, 0)] + [Reg(r, Presented(x), a, x, 0)]
        + [Reg(r, Absent, b, y, cfg.regTtl)] + [Sweep(cfg.regTtl + 1)]
  }

  lemma Opened(cfg: Config, r: Room, a: Addr, x: Cookie)
    requires Roomy(cfg)
    ensures var s := Run(cfg, [Reg(r, Absent, a, x, 0)] + [Reg(r, Presented(x), a, x, 0)]);
            && s.rooms == map[r := RoomView(map[a := NewClient(0, a)], map[], 0)] && s.links == {(cfg.ipKey(a), r)}
            && s.pending == map[] && Calm(s.reg, 2)
  {
    hide Step, Run, Calm;
    var e1, e2 := Reg(r, Absent, a, x, 0), Reg(r, Presented(x), a, x, 0);
    StartsEmpty(cfg);
    RunSnoc(cfg, [], e1);
    assert [] + [e1] == [e1];
    Ask(cfg, Init(), r, Absent, a, x, 0, 0);
    RunSnoc(cfg, [e1], e2);
    Open(cfg, Run(cfg, [e1]), r, a, x, x, 0, 1);
  }

  /** The answer to `b`'s cookie, one tick after it was issued, is another challenge. */
  lemma ChallengeLostWithRoom(cfg: Config, r: Room, a: Addr, b: Addr, x: Cookie, y: Cookie, z: Cookie)
    requires Roomy(cfg) && cfg.ipKey(a) != cfg.ipKey(b)
    ensures var es := Evicting(cfg, r, a, b, x, y);
            && OutcomeAt(cfg, es, 2) == Replied(Challenge(y))
            && Step(cfg, Run(cfg, es), Reg(r, Presented(y), b, z, cfg.regTtl + 1)).1 == Replied(Challenge(z))
  {
    hide Step, Run, Calm, RoomTick, Lively;
    LivelyAlone(cfg, a, cfg.regTtl);
    var e1, e2 := Reg(r, Absent, a, x, 0), Reg(r, Presented(x), a, x, 0);
    var e3, e4 := Reg(r, Absent, b, y, cfg.regTtl), Sweep(cfg.regTtl + 1);
    var es2 := [e1] + [e2];
    var s2 := Run(cfg, es2);
    Opened(cfg, r, a, x);
    RunSnoc(cfg, es2, e3);
    Knocks(cfg, s2, r, b, y, cfg.regTtl, 2);
    var s3 := Run(cfg, es2 + [e3]);
    RunSnoc(cfg, es2 + [e3], e4);
    CalmSize(s3.reg, 3);
    SweepIs(cfg, s3, cfg.regTtl + 1);
    GoesStale(cfg, s3, r, a, b);
    Ask(cfg, Run(cfg, es2 + [e3] + [e4]), r, Presented(y), b, z, cfg.regTtl + 1, 3);
    assert Evicting(cfg, r, a, b, x, y)[..2] == es2;
  }

  /** One tick past the TTL the room and everything in it is gone. */
  lemma GoesStale(cfg: Config, s: State, r: Room, a: Addr, b: Addr)
    requires s.rooms.Keys == {r} && s.rooms[r].clients == map[a := NewClient(0, a)] && s.rooms[r].t == 0
    requires s.links == {(cfg.ipKey(a), r)} && s.pending == map[] && cfg.ipKey(a) != cfg.ipKey(b)
    ensures var s' := RoomTick(cfg, s, cfg.regTtl + 1);
            s'.rooms == map[] && Unlinkable(s'.links, cfg.ipKey(b)) && s'.pending == map[] && s'.reg == s.reg
  {
    var v, now := s.rooms[r], cfg.regTtl + 1;
    assert Stale(cfg, v.clients[a], now);
    assert Swept(cfg, v, now).clients == map[];
    assert !Survives(cfg, v, now);
    assert SweptRooms(cfg, s.rooms, now) == map[];
  }

  // ---- a challenge inside a room is shadowed by an older one ----

  /** `b` asks for a room that does not exist and does not answer; `a` opens it; `b` asks again. */
  function Shadowing(r: Room, a: Addr, b: Addr, x: Cookie, y: Cookie, z: Cookie): seq<Event> {
    [Reg(r, Absent, b, x, 0)] + [Reg(r, Absent, a, y, 0)] + [Reg(r, Presented(y), a, y, 0)] + [Reg(r, Absent, b, z, 0)]
  }

  lemma ShadowOpened(cfg: Config, r: Room, a: Addr, b: Addr, x: Cookie, y: Cookie)
    requires Roomy(cfg) && a != b
    ensures var s := Run(cfg, [Reg(r, Absent, b, x, 0)] + [Reg(r, Absent, a, y, 0)] + [Reg(r, Presented(y), a, y, 0)]);
            && s.rooms == map[r := RoomView(map[a := NewClient(0, a)], map[], 0)] && s.links == {(cfg.ipKey(a), r)}
            && s.pending == map[(r, b) := PendingReg(x, 0, b)] && |s.pending| == 1 && Calm(s.reg, 3)
  {
    hide Step, Run, Calm;
    var e1, e2, e3 := Reg(r, Absent, b, x, 0), Reg(r, Absent, a, y, 0), Reg(r, Presented(y), a, y, 0);
    TwoAsked(cfg, r, b, a, x, y);
    var s2 := Run(cfg, [e1] + [e2]);
    RunSnoc(cfg, [e1] + [e2], e3);
    Open(cfg, s2, r, a, y, y, 0, 2);
    var s3 := Run(cfg, [e1] + [e2] + [e3]);
    assert s3.pending == map[][(r, b) := PendingReg(x, 0, b)];
    OnePending(s3.pending, (r, b), PendingReg(x, 0, b));
  }

  lemma LivelyAlone(cfg: Config, a: Addr, now: nat)
    requires now <= cfg.regTtl
    ensures var v := RoomView(map[a := NewClient(0, a)], map[], 0); Lively(cfg, v, now) && |v.clients| == 1
  {
    var v := RoomView(map[a := NewClient(0, a)], map[], 0);
    assert v.clients.Keys == {a} && |v.clients| == |v.clients.Keys|;
  }

  /** The cookie of the second challenge, presented at once, is a mismatch: the first one is still waiting in
      the global store, which is asked first. */
  lemma ChallengeShadowed(cfg: Config, r: Room, a: Addr, b: Addr, x: Cookie, y: Cookie, z: Cookie, w: Cookie)
    requires Roomy(cfg) && cfg.ipKey(a) != cfg.ipKey(b) && x != z
    ensures var es := Shadowing(r, a, b, x, y, z);
            && OutcomeAt(cfg, es, 3) == Replied(Challenge(z))
            && Step(cfg, Run(cfg, es), Reg(r, Presented(z), b, w, 0)).1 == Replied(Dropped(MismatchedCookie))
  {
    hide Step, Run, Calm, Lively;
    var es3 := [Reg(r, Absent, b, x, 0)] + [Reg(r, Absent, a, y, 0)] + [Reg(r, Presented(y), a, y, 0)];
    var e4 := Reg(r, Absent, b, z, 0);
    ShadowOpened(cfg, r, a, b, x, y);
    LivelyAlone(cfg, a, 0);
    RunSnoc(cfg, es3, e4);
    Knocks(cfg, Run(cfg, es3), r, b, z, 0, 3);
    Mismatch(cfg, Run(cfg, es3 + [e4]), r, b, z, w, 4);
    assert Shadowing(r, a, b, x, y, z)[..3] == es3;
  }

  lemma Mismatch(cfg: Config, s: State, r: Room, b: Addr, z: Cookie, w: Cookie, n: nat)
    requires Roomy(cfg) && Calm(s.reg, n) && n < 5 && (r, b) in s.pending && s.pending[(r, b)].cookie != z
    ensures |s.reg| == NUM_SHARDS && Step(cfg, s, Reg(r, Presented(z), b, w, 0)).1 == Replied(Dropped(MismatchedCookie))
  {
    hide RegMeet, Calm, CompleteGlobal, CompleteInRoom;
    CalmSize(s.reg, n);
    MeetCalm(cfg, s.reg, cfg.ipKey(b), 0, n);
  }
}
