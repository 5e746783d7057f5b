/** Who is a client after a run: exactly whom the relay last answered OK and has not swept since. From it follow
    what keeps a client registered, what does not, and what becomes of a host whose links have all leaked. */
module RelayMembership {
  import opened Net
  import opened Sizes
  import opened Limiters
  import opened RelaySpec
  import opened RelayInv
  import opened RelayIndex
  import opened RelayAdmission
  import opened RelayLiveness
  import RelayInRoom

  /** What the relay keeps of client `a` of room `r`. */
  ghost function Record(s: State, r: Room, a: Addr): Option<Client> {
    if HasClient(s, r, a) then Some(s.rooms[r].clients[a]) else None
  }

  /** When it was last heard of. */
  ghost function Stamp(s: State, r: Room, a: Addr): Option<nat> {
    if HasClient(s, r, a) then Some(s.rooms[r].clients[a].lastSeen) else None
  }

  predicate Late(cfg: Config, t: nat, now: nat) { Since(now, t) > cfg.regTtl }

  /** What a sweep leaves of a client. */
  ghost function Aged(cfg: Config, c: Option<Client>, now: nat): Option<Client> {
    if c.Some? && Late(cfg, c.value.lastSeen, now) then None else c
  }

  // ---- the parts of a step ----

  lemma SweepRoomRecord(cfg: Config, s: State, room: Room, now: nat, r: Room, a: Addr)
    requires room in s.rooms
    ensures Record(SweepRoom(cfg, s, room, now), r, a)
         == if r == room then Aged(cfg, Record(s, r, a), now) else Record(s, r, a)
  {
    hide Unlinked, Without;
  }

  lemma SweepAllRecord(cfg: Config, s: State, now: nat, r: Room, a: Addr)
    ensures Record(SweepAll(cfg, s, now), r, a) == Aged(cfg, Record(s, r, a), now)
  {
    hide SweptLinks;
    if Record(s, r, a).Some? && !Late(cfg, Record(s, r, a).value.lastSeen, now) {
      assert a in Swept(cfg, s.rooms[r], now).clients;
    }
  }

  lemma AdmitRecord(cfg: Config, s: State, room: Room, src: Addr, resolved: Addr, now: nat, r: Room, a: Addr)
    requires room in s.rooms
    ensures Record(Admit(cfg, s, room, src, resolved, now), r, a)
         == if (r, a) == (room, src) then Some(NewClient(now, resolved)) else Record(s, r, a)
  {
  }

  lemma NewRoomRecord(s: State, room: Room, now: nat, r: Room, a: Addr)
    requires room !in s.rooms
    ensures Record(s.(rooms := s.rooms[room := RoomView(map[], map[], now)]), r, a) == Record(s, r, a)
  {
  }

  lemma SameRecord(s: State, room: Room, v: RoomView, r: Room, a: Addr)
    requires room in s.rooms && v.clients == s.rooms[room].clients
    ensures Record(s.(rooms := s.rooms[room := v]), r, a) == Record(s, r, a)
  {
  }

  /** The record after a REG of `src` for `room`: `c` if it was answered OK, aged if the room was swept. */
  ghost predicate Moves(cfg: Config, s: State, s': State, swept: bool, reply: Reply, room: Room, src: Addr, c: Client,
                        now: nat, r: Room, a: Addr) {
    Record(s', r, a) == if reply == Regd && (r, a) == (room, src) then Some(c)
                        else if swept then Aged(cfg, Record(s, r, a), now) else Record(s, r, a)
  }

  lemma CompleteGlobalRecord(cfg: Config, s: State, room: Room, src: Addr, resolved: Addr, now: nat, r: Room, a: Addr)
    ensures var (s', reply) := CompleteGlobal(cfg, s, room, src, resolved, now);
            Moves(cfg, s, s', |s.rooms| >= cfg.maxRooms || r == room, reply, room, src, NewClient(now, resolved), now,
                  r, a)
  {
    hide SweepAll, SweepRoom, Admit, Refusal, LinkedTo, Record;
    var s1 := if |s.rooms| >= cfg.maxRooms then SweepAll(cfg, s, now) else s;
    SweepAllRecord(cfg, s, now, r, a);
    if room !in s1.rooms {
      var s2 := s1.(rooms := s1.rooms[room := RoomView(map[], map[], now)]);
      NewRoomRecord(s1, room, now, r, a);
      AdmitRecord(cfg, s2, room, src, resolved, now, r, a);
      NobodyHome(s1, room, a);
    } else {
      SweepRoomRecord(cfg, s1, room, now, r, a);
      RelayInRoom.StillThere(cfg, s1, room, now);
      AdmitRecord(cfg, SweepRoom(cfg, s1, room, now), room, src, resolved, now, r, a);
    }
  }

  lemma NobodyHome(s: State, r: Room, a: Addr)
    requires r !in s.rooms
    ensures Record(s, r, a) == None
  {
  }

  lemma CompleteInRoomRecord(cfg: Config, s: State, room: Room, src: Addr, cookie: Cookie, now: nat, r: Room, a: Addr)
    requires room in s.rooms
    ensures var (s', reply) := CompleteInRoom(cfg, s, room, src, cookie, now);
            var p := s.rooms[room].pending;
            var completes := src in p && p[src].cookie == cookie && !Expired(p[src], now);
            && (reply == Regd ==> src in p)
            && Moves(cfg, s, s', r == room && completes, reply, room, src,
                     NewClient(now, if src in p then p[src].resolved else src), now, r, a)
  {
    hide SweepRoom, Admit, Refusal, Record, Expired;
    SweepRoomRecord(cfg, s, room, now, r, a);
    RelayInRoom.StillThere(cfg, s, room, now);
    var s1 := SweepRoom(cfg, s, room, now);
    SameRecord(s, room, s.rooms[room].(pending := s.rooms[room].pending - {src}), r, a);
    SameRecord(s1, room, s1.rooms[room].(pending := s1.rooms[room].pending - {src}), r, a);
    if src in s.rooms[room].pending {
      AdmitRecord(cfg, DropRoomPending(s1, room, src), room, src, s.rooms[room].pending[src].resolved, now, r, a);
    }
  }

  /** A client heard of again: it keeps its meter. */
  ghost function Touched(c: Option<Client>, src: Addr, now: nat): Client {
    if c.Some? then c.value.(lastSeen := now, resolved := Some(src)) else NewClient(now, src)
  }

  lemma KnockRecord(cfg: Config, s: State, room: Room, src: Addr, mint: Cookie, now: nat, r: Room, a: Addr)
    requires room in s.rooms
    ensures var (s', reply) := Knock(cfg, s, room, src, mint, now);
            && Moves(cfg, s, s', false, reply, room, src, Touched(Record(s, room, src), src, now), now, r, a)
            && (reply == Regd <==> HasClient(s, room, src))
  {
    hide PendingFrom, Bucket;
  }

  lemma PlainRegRecord(cfg: Config, s: State, room: Room, src: Addr, mint: Cookie, now: nat, r: Room, a: Addr)
    ensures var (s', reply) := PlainReg(cfg, s, room, src, mint, now);
            var open := |LinkedTo(s.links, cfg.ipKey(src))| < cfg.maxRoomsPerIp;
            var c := Touched(Record(s, room, src), src, now);
            && Moves(cfg, s, s', open && r == room, reply, room, src, c, now, r, a)
            && (reply == Regd <==> open && Aged(cfg, Record(s, room, src), now).Some?)
  {
    hide SweepRoom, Knock, LinkedTo, PendingFrom;
    if room in s.rooms {
      SweepRoomRecord(cfg, s, room, now, r, a);
      SweepRoomRecord(cfg, s, room, now, room, src);
      RelayInRoom.StillThere(cfg, s, room, now);
      KnockRecord(cfg, SweepRoom(cfg, s, room, now), room, src, mint, now, r, a);
    } else {
      NobodyHome(s, room, a);
    }
  }

  /** The address the challenge of `a` for `r` was sent to: the one in the global store, or the one in the room. */
  ghost function SentTo(s: State, r: Room, a: Addr): Addr {
    if Global(s, r, a).Some? then Global(s, r, a).value.resolved
    else if InRoom(s, r, a).Some? then InRoom(s, r, a).value.resolved else a
  }

  lemma CookieRegRecord(cfg: Config, s: State, room: Room, src: Addr, cookie: Cookie, mint: Cookie, now: nat,
                        r: Room, a: Addr)
    ensures var (s', reply) := CookieReg(cfg, s, room, src, cookie, mint, now);
            Moves(cfg, s, s', r in CompletionSweeps(cfg, s, room, src, cookie, now), reply, room, src,
                  NewClient(now, SentTo(s, room, src)), now, r, a)
  {
    hide CompleteGlobal, CompleteInRoom, Expired, LinkedTo, PendingFrom;
    if r !in s.rooms { NobodyHome(s, r, a); }
    if (room, src) in s.pending {
      CompleteGlobalRecord(cfg, DropPending(s, room, src), room, src, s.pending[(room, src)].resolved, now, r, a);
    } else if room in s.rooms {
      CompleteInRoomRecord(cfg, s, room, src, cookie, now, r, a);
    }
  }

  // ---- the law of one step ----

  /** The relay answered `a`'s REG for `r` with OK. */
  ghost predicate Renews(e: Event, o: Outcome, r: Room, a: Addr) {
    e.Reg? && e.room == r && e.src == a && o == Replied(Regd)
  }

  /** What an OK leaves: a plain REG a client heard of again, a cookie a new one with its meter at zero. */
  ghost function Renewed(s: State, e: Event): Client
    requires e.Reg?
  {
    if e.cred.Presented? then NewClient(e.now, SentTo(s, e.room, e.src))
    else Touched(Record(s, e.room, e.src), e.src, e.now)
  }

  /** The step sweeps room `r` after a client last heard of at `t` has gone stale. */
  ghost predicate Lapses(cfg: Config, s: State, e: Event, r: Room, t: nat)
    requires |s.reg| == NUM_SHARDS
  {
    r in SweptBy(cfg, s, e) && Late(cfg, t, e.now)
  }

  /** `a` sends a message to room `r`. */
  ghost predicate Speaks(e: Event, r: Room, a: Addr) { e.Msg? && e.room == r && e.src == a }

  /** What becomes of a client in a step that does not answer it OK. */
  ghost function Left(cfg: Config, s: State, e: Event, r: Room, a: Addr): Option<Client>
    requires |s.reg| == NUM_SHARDS
  {
    var c := Record(s, r, a);
    if c.None? || Lapses(cfg, s, e, r, c.value.lastSeen) then None
    else if Speaks(e, r, a)
    then Some(c.value.(limiter := Meet(c.value.limiter, e.now, cfg.rateWindow, cfg.maxMsgRate).1))
    else c
  }

  /** Exactly what a step does to a client: an OK writes it, a sweep of its room that finds it stale drops it, its
      own message counts on its meter, and nothing else, from anybody, touches it or makes one. */
  lemma RecordStep(cfg: Config, s: State, e: Event, r: Room, a: Addr)
    requires |s.reg| == NUM_SHARDS
    ensures var (s', o) := Step(cfg, s, e);
            Record(s', r, a) == if Renews(e, o, r, a) then Some(Renewed(s, e)) else Left(cfg, s, e, r, a)
  {
    match e
    case Reg(room, cred, src, mint, now) => RegRecord(cfg, s, e, r, a);
    case Msg(room, src, now) => hide Meet;
    case Sweep(now) =>
      hide SweepAll;
      SweepAllRecord(cfg, s, now, r, a);
    case RateCleanup(_) => hide SweptShards;
  }

  lemma RegRecord(cfg: Config, s: State, e: Event, r: Room, a: Addr)
    requires |s.reg| == NUM_SHARDS && e.Reg?
    ensures var (s', o) := Step(cfg, s, e);
            Record(s', r, a) == if Renews(e, o, r, a) then Some(Renewed(s, e)) else Left(cfg, s, e, r, a)
  {
    hide PlainReg, CookieReg, RegMeet, CompletionSweeps, LinkedTo, Late;
    var s1 := Metered(cfg, s, e.src, e.now);
    if e.cred.Presented? {
      CookieRegRecord(cfg, s1, e.room, e.src, e.cred.cookie, e.mint, e.now, r, a);
      SameSweeps(cfg, s, s1, e.room, e.src, e.cred.cookie, e.now);
    } else {
      PlainRegRecord(cfg, s1, e.room, e.src, e.mint, e.now, r, a);
    }
  }

  lemma SameSweeps(cfg: Config, s: State, s1: State, room: Room, src: Addr, cookie: Cookie, now: nat)
    requires s1 == s.(reg := s1.reg)
    ensures CompletionSweeps(cfg, s1, room, src, cookie, now) == CompletionSweeps(cfg, s, room, src, cookie, now)
  {
  }

  /** Of the time stamp alone: an OK renews it, and nothing else moves it. */
  lemma StampStep(cfg: Config, s: State, e: Event, r: Room, a: Addr)
    requires |s.reg| == NUM_SHARDS
    ensures var (s', o) := Step(cfg, s, e);
            Stamp(s', r, a) == if Renews(e, o, r, a) then Some(e.now)
                               else if Stamp(s, r, a).Some? && Lapses(cfg, s, e, r, Stamp(s, r, a).value) then None
                               else Stamp(s, r, a)
  {
    hide Step, Lapses, Meet;
    RecordStep(cfg, s, e, r, a);
  }

  // ---- whole runs ----

  ghost predicate RenewsAt(cfg: Config, es: seq<Event>, i: nat, r: Room, a: Addr)
    requires i < |es|
  {
    Renews(es[i], OutcomeAt(cfg, es, i), r, a)
  }

  ghost predicate LapsesAt(cfg: Config, es: seq<Event>, i: nat, r: Room, t: nat)
    requires i < |es|
  {
    Lapses(cfg, Run(cfg, es[..i]), es[i], r, t)
  }

  /** `a` was answered OK at step `i`, not again, and no sweep of the room came too late for it. */
  ghost predicate Keeps(cfg: Config, es: seq<Event>, i: nat, r: Room, a: Addr)
    requires i < |es|
  {
    && RenewsAt(cfg, es, i, r, a)
    && forall j :: i < j < |es| ==> !RenewsAt(cfg, es, j, r, a) && !LapsesAt(cfg, es, j, r, es[i].now)
  }

  lemma PrefixKeeps(cfg: Config, es: seq<Event>, n: nat, i: nat, r: Room, a: Addr, t: nat)
    requires i < n <= |es|
    ensures RenewsAt(cfg, es[..n], i, r, a) == RenewsAt(cfg, es, i, r, a)
    ensures LapsesAt(cfg, es[..n], i, r, t) == LapsesAt(cfg, es, i, r, t)
  {
    hide Run, Step, Renews, Lapses;
    assert es[..n][..i] == es[..i];
  }

  lemma KeepsSnoc(cfg: Config, es: seq<Event>, i: nat, r: Room, a: Addr)
    requires i < |es|
    ensures var n := |es| - 1;
            Keeps(cfg, es, i, r, a) <==>
            if i == n then RenewsAt(cfg, es, n, r, a)
            else Keeps(cfg, es[..n], i, r, a) && !RenewsAt(cfg, es, n, r, a) && !LapsesAt(cfg, es, n, r, es[i].now)
  {
    hide RenewsAt, LapsesAt;
    var n := |es| - 1;
    forall j | 0 <= j < n
      ensures RenewsAt(cfg, es[..n], j, r, a) == RenewsAt(cfg, es, j, r, a)
      ensures LapsesAt(cfg, es[..n], j, r, es[i].now) == LapsesAt(cfg, es, j, r, es[i].now)
    {
      PrefixKeeps(cfg, es, n, j, r, a, es[i].now);
    }
    if i < n { assert es[..n][i] == es[i]; }
  }

  lemma {:induction false} StampIff(cfg: Config, es: seq<Event>, r: Room, a: Addr)
    ensures forall i :: 0 <= i < |es| && Keeps(cfg, es, i, r, a) ==> Stamp(Run(cfg, es), r, a) == Some(es[i].now)
    ensures Stamp(Run(cfg, es), r, a).Some? ==> exists i :: 0 <= i < |es| && Keeps(cfg, es, i, r, a)
    decreases |es|
  {
    hide Step, Keeps, RenewsAt, LapsesAt, Stamp;
    if es == [] {
      NobodyYet(cfg, r, a);
    } else {
      var n := |es| - 1;
      StampIff(cfg, es[..n], r, a);
      StampAt(cfg, es, r, a);
      forall i | 0 <= i < |es| && Keeps(cfg, es, i, r, a) ensures Stamp(Run(cfg, es), r, a) == Some(es[i].now) {
        KeepsSnoc(cfg, es, i, r, a);
      }
      if Stamp(Run(cfg, es), r, a).Some? {
        KeepsSnoc(cfg, es, n, r, a);
        if !RenewsAt(cfg, es, n, r, a) {
          var i :| 0 <= i < n && Keeps(cfg, es[..n], i, r, a);
          KeepsSnoc(cfg, es, i, r, a);
        }
      }
    }
  }

  lemma NobodyYet(cfg: Config, r: Room, a: Addr)
    ensures Stamp(Run(cfg, []), r, a) == None
  {
  }

  lemma StampAt(cfg: Config, es: seq<Event>, r: Room, a: Addr)
    requires es != []
    ensures var n := |es| - 1; var before := Stamp(Run(cfg, es[..n]), r, a);
            Stamp(Run(cfg, es), r, a) == if RenewsAt(cfg, es, n, r, a) then Some(es[n].now)
                                         else if before.Some? && LapsesAt(cfg, es, n, r, before.value) then None
                                         else before
  {
    hide Step, Stamp, Lapses, Renews;
    var n := |es| - 1;
    StampStep(cfg, Run(cfg, es[..n]), es[n], r, a);
  }

  /** Over every run: a source is a client of a room if and only if its last OK for that room has not been followed
      by a sweep of the room later than the TTL. */
  lemma MemberIff(cfg: Config, es: seq<Event>, r: Room, a: Addr)
    ensures HasClient(Run(cfg, es), r, a) <==> exists i :: 0 <= i < |es| && Keeps(cfg, es, i, r, a)
  {
    hide Keeps, Run;
    StampIff(cfg, es, r, a);
  }

  // ---- what renews a client ----

  /** A plain REG of a client renews it if and only if the limiter lets it pass, its host is below the room limit, and
      it has not gone stale; otherwise nothing but a sweep of its room can touch it. */
  lemma PlainRenewsIff(cfg: Config, s: State, e: Event)
    requires |s.reg| == NUM_SHARDS && e.Reg? && e.cred.Absent? && HasClient(s, e.room, e.src)
    ensures Renews(e, Step(cfg, s, e).1, e.room, e.src) <==>
            && !RegLimited(cfg, s, e.src, e.now) && |LinkedTo(s.links, cfg.ipKey(e.src))| < cfg.maxRoomsPerIp
            && !Stale(cfg, s.rooms[e.room].clients[e.src], e.now)
  {
    hide PlainReg, RegMeet, LinkedTo;
    PlainRegRecord(cfg, Metered(cfg, s, e.src, e.now), e.room, e.src, e.mint, e.now, e.room, e.src);
  }

  /** At its room limit a host renews nobody: a plain REG is dropped and leaves rooms, links and entries alone. */
  lemma FullHostRenewsNobody(cfg: Config, s: State, e: Event)
    requires |s.reg| == NUM_SHARDS && e.Reg? && e.cred.Absent?
    requires |LinkedTo(s.links, cfg.ipKey(e.src))| >= cfg.maxRoomsPerIp
    ensures var (s', o) := Step(cfg, s, e);
            && o in {Replied(Dropped(RateLimited)), Replied(Dropped(RoomsPerIp))}
            && s'.rooms == s.rooms && s'.links == s.links && s'.pending == s.pending
  {
    hide RegMeet, LinkedTo;
  }

  /** With a limit of one room per host that is every client, in every reachable state. */
  lemma OneRoomRenewsNobody(cfg: Config, es: seq<Event>, e: Event)
    requires Positive(cfg) && cfg.maxRoomsPerIp == 1
    requires e.Reg? && e.cred.Absent? && HasClient(Run(cfg, es), e.room, e.src)
    ensures !Renews(e, Step(cfg, Run(cfg, es), e).1, e.room, e.src)
  {
    hide Step, Run;
    RunKeeps(cfg, es);
    var s := Run(cfg, es);
    assert (cfg.ipKey(e.src), e.room) in s.links;
    assert e.room in LinkedTo(s.links, cfg.ipKey(e.src));
    FullHostRenewsNobody(cfg, s, e);
  }

  // ---- a spent cookie ----

  /** `a` never sends a plain REG for `r`. */
  predicate OnlyCookies(es: seq<Event>, r: Room, a: Addr) {
    forall e :: e in es && e.Reg? && e.room == r && e.src == a ==> !e.cred.Absent?
  }

  /** While a client has no challenge waiting, a REG with any cookie neither renews it nor brings it one. */
  lemma SpentStep(cfg: Config, s: State, e: Event, r: Room, a: Addr)
    requires |s.reg| == NUM_SHARDS && HasClient(s, r, a) && Live(s, r, a) == 0
    requires e.Reg? && e.room == r && e.src == a ==> !e.cred.Absent?
    ensures var (s', o) := Step(cfg, s, e); !Renews(e, o, r, a) && Live(s', r, a) == 0
  {
    hide RegStep, Step;
    EntryBudget(cfg, s, e, r, a);
    if e.Reg? && e.room == r && e.src == a {
      SpentReply(cfg, s, e);
    }
  }

  lemma SpentReply(cfg: Config, s: State, e: Event)
    requires |s.reg| == NUM_SHARDS && e.Reg? && !e.cred.Absent?
    requires HasClient(s, e.room, e.src) && Live(s, e.room, e.src) == 0
    ensures Step(cfg, s, e).1.Replied? && Step(cfg, s, e).1.reply.Dropped?
  {
    hide RegMeet, CompleteGlobal, SweepRoom, Admit, Refusal, Issue;
  }

  /** `a` is a client of `r` after `es` and after every further event of `more`. */
  ghost predicate Stays(cfg: Config, es: seq<Event>, more: seq<Event>, r: Room, a: Addr) {
    forall j :: 0 <= j <= |more| ==> HasClient(Run(cfg, es + more[..j]), r, a)
  }

  /** Some event of `more` sweeps the room when a client last heard of at `t` is stale. */
  ghost predicate LapsesIn(cfg: Config, es: seq<Event>, more: seq<Event>, r: Room, t: nat) {
    exists j :: 0 <= j < |more| && Lapses(cfg, Run(cfg, es + more[..j]), more[j], r, t)
  }

  lemma StaysSnoc(cfg: Config, es: seq<Event>, more: seq<Event>, r: Room, a: Addr)
    requires more != []
    ensures var n := |more| - 1;
            Stays(cfg, es, more, r, a) <==> Stays(cfg, es, more[..n], r, a) && HasClient(Run(cfg, es + more), r, a)
  {
    hide Run, HasClient;
    var n := |more| - 1;
    assert more[..|more|] == more;
    assert forall j :: 0 <= j <= n ==> more[..n][..j] == more[..j];
    if Stays(cfg, es, more[..n], r, a) && HasClient(Run(cfg, es + more), r, a) {
      forall j | 0 <= j <= |more| ensures HasClient(Run(cfg, es + more[..j]), r, a) {
        if j <= n { assert HasClient(Run(cfg, es + more[..n][..j]), r, a); }
      }
    }
    if Stays(cfg, es, more, r, a) {
      forall j | 0 <= j <= n ensures HasClient(Run(cfg, es + more[..n][..j]), r, a) {
        assert HasClient(Run(cfg, es + more[..j]), r, a);
      }
      assert HasClient(Run(cfg, es + more[..|more|]), r, a);
    }
  }

  lemma LapsesSnoc(cfg: Config, es: seq<Event>, more: seq<Event>, r: Room, t: nat)
    requires more != []
    ensures var n := |more| - 1;
            LapsesIn(cfg, es, more, r, t) <==>
            LapsesIn(cfg, es, more[..n], r, t) || Lapses(cfg, Run(cfg, es + more[..n]), more[n], r, t)
  {
    hide Run, Lapses;
    var n := |more| - 1;
    var init := more[..n];
    assert forall j :: 0 <= j < n ==> init[..j] == more[..j] && init[j] == more[j];
    if LapsesIn(cfg, es, init, r, t) {
      var j :| 0 <= j < n && Lapses(cfg, Run(cfg, es + init[..j]), init[j], r, t);
      assert Lapses(cfg, Run(cfg, es + more[..j]), more[j], r, t);
    }
    if LapsesIn(cfg, es, more, r, t) {
      var j :| 0 <= j < |more| && Lapses(cfg, Run(cfg, es + more[..j]), more[j], r, t);
      if j < n { assert Lapses(cfg, Run(cfg, es + init[..j]), init[j], r, t); }
    }
  }

  /** A client that has no challenge waiting and sends only REGs with cookies, as a peer does once it has one, keeps
      the time stamp of its admission: it stays exactly until the room is first swept later than the TTL after it. */
  lemma {:induction false} SpentCookieLapses(cfg: Config, es: seq<Event>, more: seq<Event>, r: Room, a: Addr, t: nat)
    requires Stamp(Run(cfg, es), r, a) == Some(t) && Live(Run(cfg, es), r, a) == 0 && OnlyCookies(more, r, a)
    ensures Stays(cfg, es, more, r, a) <==> !LapsesIn(cfg, es, more, r, t)
    ensures Stays(cfg, es, more, r, a) ==>
              Stamp(Run(cfg, es + more), r, a) == Some(t) && Live(Run(cfg, es + more), r, a) == 0
  {
    hide Step, Stays, LapsesIn, Lapses, Renews, Live;
    if more == [] {
      assert es + more == es;
      AtOnce(cfg, es, r, a, t);
    } else {
      var n := |more| - 1;
      var s := Run(cfg, es + more[..n]);
      SpentCookieLapses(cfg, es, more[..n], r, a, t);
      StaysSnoc(cfg, es, more, r, a);
      LapsesSnoc(cfg, es, more, r, t);
      assert more[n] in more;
      assert (es + more)[..|es + more| - 1] == es + more[..n];
      StampStep(cfg, s, more[n], r, a);
      if Stays(cfg, es, more[..n], r, a) { SpentStep(cfg, s, more[n], r, a); }
    }
  }

  lemma AtOnce(cfg: Config, es: seq<Event>, r: Room, a: Addr, t: nat)
    requires Stamp(Run(cfg, es), r, a) == Some(t)
    ensures Stays(cfg, es, [], r, a) && !LapsesIn(cfg, es, [], r, t)
  {
    assert forall j :: 0 <= j <= 0 ==> es + [][..j] == es;
  }

  // ---- a host whose links have all leaked ----

  /** No address of the host is a client or has a challenge waiting, anywhere. */
  ghost predicate Gone(cfg: Config, s: State, ip: Ip) {
    forall r, a :: cfg.ipKey(a) == ip ==> !HasClient(s, r, a) && InRoom(s, r, a) == None && Global(s, r, a) == None
  }

  ghost predicate LockedOut(cfg: Config, s: State, ip: Ip) {
    Gone(cfg, s, ip) && |LinkedTo(s.links, ip)| >= cfg.maxRoomsPerIp
  }

  lemma LockedReply(cfg: Config, s: State, e: Event)
    requires |s.reg| == NUM_SHARDS && e.Reg? && LockedOut(cfg, s, cfg.ipKey(e.src))
    ensures Step(cfg, s, e).1.Replied? && Step(cfg, s, e).1.reply.Dropped?
  {
    hide RegMeet, LinkedTo, CompleteGlobal, SweepRoom, Admit, Refusal, Issue, Knock, Gone;
    GoneAt(cfg, s, e.room, e.src);
  }

  lemma GoneAt(cfg: Config, s: State, r: Room, a: Addr)
    requires Gone(cfg, s, cfg.ipKey(a))
    ensures !HasClient(s, r, a) && InRoom(s, r, a) == None && Global(s, r, a) == None
  {
  }

  lemma LockedStep(cfg: Config, s: State, e: Event, ip: Ip)
    requires Inv(cfg, s) && LockedOut(cfg, s, ip)
    ensures LockedOut(cfg, Step(cfg, s, e).0, ip)
  {
    hide Step, Inv, LinkedTo, Gone, HasClient, InRoom, Global;
    RegsCounted(cfg, s);
    var (s', o) := Step(cfg, s, e);
    if e.Reg? && cfg.ipKey(e.src) == ip { LockedReply(cfg, s, e); }
    StaysGone(cfg, s, e, ip);
    LinksKept(cfg, s, e, ip);
    SubsetSize(LinkedTo(s.links, ip), LinkedTo(s'.links, ip));
  }

  lemma RegsCounted(cfg: Config, s: State)
    requires Inv(cfg, s)
    ensures |s.reg| == NUM_SHARDS
  {
  }

  lemma StaysGone(cfg: Config, s: State, e: Event, ip: Ip)
    requires |s.reg| == NUM_SHARDS && Gone(cfg, s, ip)
    requires e.Reg? && cfg.ipKey(e.src) == ip ==> Step(cfg, s, e).1.Replied? && Step(cfg, s, e).1.reply.Dropped?
    ensures Gone(cfg, Step(cfg, s, e).0, ip)
  {
    hide Step, HasClient, InRoom, Global, Completes;
    var s' := Step(cfg, s, e).0;
    forall r, a | cfg.ipKey(a) == ip
      ensures !HasClient(s', r, a) && InRoom(s', r, a) == None && Global(s', r, a) == None
    {
      Newcomer(cfg, s, e, r, a);
      EntryOrigin(cfg, s, e, r, a);
    }
  }

  lemma GonePhantom(cfg: Config, s: State, ip: Ip, q: Room)
    requires Gone(cfg, s, ip) && (ip, q) in s.links
    ensures Phantom(cfg, s, ip, q)
  {
    if q in s.rooms {
      forall a | a in s.rooms[q].clients ensures cfg.ipKey(a) != ip {
        assert HasClient(s, q, a);
      }
    }
  }

  lemma LinksKept(cfg: Config, s: State, e: Event, ip: Ip)
    requires Inv(cfg, s) && |s.reg| == NUM_SHARDS && Gone(cfg, s, ip)
    requires e.Reg? && cfg.ipKey(e.src) == ip ==> Step(cfg, s, e).1.Replied? && Step(cfg, s, e).1.reply.Dropped?
    ensures LinkedTo(s.links, ip) <= LinkedTo(Step(cfg, s, e).0.links, ip)
  {
    hide Step, Inv, Leaks, SweptBy;
    var s' := Step(cfg, s, e).0;
    forall q | q in LinkedTo(s.links, ip) ensures q in LinkedTo(s'.links, ip) {
      assert (ip, q) in s.links;
      GonePhantom(cfg, s, ip, q);
      StepPhantoms(cfg, s, e, ip, q);
      assert (ip, q) in s'.links;
    }
  }

  /** Once a host has no client and no challenge left and its links, all leaked, are at the limit, every REG it ever
      sends again is dropped, whatever anybody does. */
  lemma {:induction false} LockedOutForGood(cfg: Config, es: seq<Event>, more: seq<Event>, ip: Ip)
    requires Positive(cfg) && LockedOut(cfg, Run(cfg, es), ip)
    ensures LockedOut(cfg, Run(cfg, es + more), ip)
    ensures forall j :: 0 <= j < |more| && more[j].Reg? && cfg.ipKey(more[j].src) == ip ==>
              var o := Step(cfg, Run(cfg, es + more[..j]), more[j]).1; o.Replied? && o.reply.Dropped?
  {
    hide Step, LockedOut, Inv;
    if more == [] {
      assert es + more == es;
    } else {
      var n := |more| - 1;
      var init := more[..n];
      LockedOutForGood(cfg, es, init, ip);
      assert (es + more)[..|es + more| - 1] == es + init;
      RunKeeps(cfg, es + init);
      LockedStep(cfg, Run(cfg, es + init), more[n], ip);
      forall j | 0 <= j < |more| && more[j].Reg? && cfg.ipKey(more[j].src) == ip
        ensures var o := Step(cfg, Run(cfg, es + more[..j]), more[j]).1; o.Replied? && o.reply.Dropped?
      {
        if j < n {
          assert init[j] == more[j] && init[..j] == more[..j];
        } else {
          LockedReply(cfg, Run(cfg, es + init), more[n]);
        }
      }
    }
  }
}
