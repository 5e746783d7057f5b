/** What the relay answers to a REG, read off the state before it arrives: who was heard of lately, which challenges
    still wait, and which links would be left. The reference says nothing of sweeping; every answer of the relay,
    in every state, is the one it gives. */
module RelayAnswers {
  import opened Net
  import opened Sizes
  import opened Limiters
  import opened RelaySpec
  import opened RelayIndex
  import opened RelayAdmission
  import opened RelayLiveness
  import opened RelayInRoom
  import opened RelayMembership

  // ---- what counts ----

  /** The clients of room `r` heard of within the TTL. */
  ghost function Heard(cfg: Config, s: State, r: Room, now: nat): set<Addr> {
    if r in s.rooms
    then set a | a in s.rooms[r].clients && Since(now, s.rooms[r].clients[a].lastSeen) <= cfg.regTtl
    else {}
  }

  /** The sources challenged inside room `r` within the last 5 s. */
  ghost function Waiting(s: State, r: Room, now: nat): set<Addr> {
    if r in s.rooms
    then set a | a in s.rooms[r].pending && Since(now, s.rooms[r].pending[a].createdAt) <= PENDING_REG_TTL
    else {}
  }

  /** Host `ip` has one client in room `q`, not heard of within the TTL. */
  ghost predicate LosesHost(cfg: Config, s: State, q: Room, now: nat, ip: Ip) {
    && q in s.rooms
    && exists a ::
        && a in s.rooms[q].clients && Bucket(cfg, s.rooms[q].clients.Keys, ip) == {a}
        && Since(now, s.rooms[q].clients[a].lastSeen) > cfg.regTtl
  }

  /** The rooms host `ip` is linked to once `swept` have been swept. */
  ghost function Held(cfg: Config, s: State, swept: set<Room>, now: nat, ip: Ip): set<Room> {
    set q | q in LinkedTo(s.links, ip) && !(q in swept && LosesHost(cfg, s, q, now, ip))
  }

  // ---- the reference ----

  /** A source with a good cookie at a room with clients `live`, its host linked to `held` rooms. */
  function Judged(cfg: Config, live: set<Addr>, held: nat, src: Addr): Reply {
    var mine := Bucket(cfg, live, cfg.ipKey(src));
    if src !in live && |live| >= cfg.maxClientsHard then Dropped(HardCap)
    else if mine == {} && held >= cfg.maxRoomsPerIp then Dropped(RoomsPerIp)
    else if src !in live && |mine| >= cfg.maxPerPrefix then Dropped(PrefixCap)
    else Regd
  }

  /** The rooms there are when a cookie of the global store comes back: a full table is cleared of abandoned ones. */
  ghost function Kept(cfg: Config, s: State, now: nat): set<Room> {
    if |s.rooms| >= cfg.maxRooms then Survivors(cfg, s.rooms, now) else s.rooms.Keys
  }

  /** The rooms swept on that occasion. */
  ghost function Cleared(cfg: Config, s: State, room: Room): set<Room> {
    if |s.rooms| >= cfg.maxRooms then s.rooms.Keys else {room}
  }

  /** A good cookie of the global store. */
  ghost function Completion(cfg: Config, s: State, room: Room, src: Addr, now: nat): Reply {
    var held := |Held(cfg, s, Cleared(cfg, s, room), now, cfg.ipKey(src))|;
    if room in Kept(cfg, s, now) then Judged(cfg, Heard(cfg, s, room, now), held, src)
    else if |Kept(cfg, s, now)| >= cfg.maxRooms then Dropped(MaxRooms)
    else if held >= cfg.maxRoomsPerIp then Dropped(RoomsPerIp)
    else Regd
  }

  /** A source asks for a room that does not exist. */
  ghost function Asked(cfg: Config, s: State, room: Room, src: Addr, mint: Cookie): Reply {
    if |LinkedTo(s.links, cfg.ipKey(src))| >= cfg.maxRoomsPerIp then Dropped(RoomsPerIp)
    else if |PendingFrom(cfg, s.pending.Keys, cfg.ipKey(src))| >= cfg.maxPendingPerIp then Dropped(PendingPerIp)
    else if Global(s, room, src) == None && |s.pending| >= cfg.maxPendingGlobal then Dropped(PendingFull)
    else Challenge(mint)
  }

  /** A source knocks at a room that exists. */
  ghost function Knocked(cfg: Config, s: State, room: Room, src: Addr, mint: Cookie, now: nat): Reply {
    var ip := cfg.ipKey(src);
    var live, wait := Heard(cfg, s, room, now), Waiting(s, room, now);
    if |LinkedTo(s.links, ip)| >= cfg.maxRoomsPerIp then Dropped(RoomsPerIp)
    else if src in live then Regd
    else if |live| >= cfg.maxClientsHard then Dropped(HardCap)
    else if src in wait then Challenge(s.rooms[room].pending[src].cookie)
    else if |PendingFrom(cfg, s.pending.Keys, ip)| + |Bucket(cfg, wait, ip)| >= cfg.maxPendingPerIp
    then Dropped(PendingPerIp)
    else if |wait| >= cfg.maxPendingPerRoom then Dropped(PendingFull)
    else Challenge(mint)
  }

  /** A source shows a cookie. */
  ghost function Shown(cfg: Config, s: State, room: Room, src: Addr, cookie: Cookie, mint: Cookie, now: nat): Reply {
    match Global(s, room, src)
    case Some(p) =>
      if p.cookie != cookie then Dropped(MismatchedCookie)
      else if Unexpired(Some(p), now) == None then Dropped(ExpiredCookie)
      else Completion(cfg, s, room, src, now)
    case None =>
      if room !in s.rooms then Asked(cfg, s, room, src, mint)
      else match InRoom(s, room, src)
        case None => Dropped(MismatchedCookie)
        case Some(p) =>
          if p.cookie != cookie then Dropped(MismatchedCookie)
          else if Unexpired(Some(p), now) == None then Dropped(ExpiredCookie)
          else Judged(cfg, Heard(cfg, s, room, now), |Held(cfg, s, {room}, now, cfg.ipKey(src))|, src)
  }

  ghost function Answer(cfg: Config, s: State, e: Event): Reply
    requires |s.reg| == NUM_SHARDS && e.Reg?
  {
    if RegLimited(cfg, s, e.src, e.now) then Dropped(RateLimited)
    else match e.cred
      case Malformed => Dropped(BadCookie)
      case Presented(cookie) => Shown(cfg, s, e.room, e.src, cookie, e.mint, e.now)
      case Absent =>
        if e.room in s.rooms then Knocked(cfg, s, e.room, e.src, e.mint, e.now)
        else Asked(cfg, s, e.room, e.src, e.mint)
  }

  // ---- what sweeping does to the counts ----

  lemma SweptHeard(cfg: Config, s: State, room: Room, now: nat)
    requires room in s.rooms
    ensures Swept(cfg, s.rooms[room], now).clients.Keys == Heard(cfg, s, room, now)
    ensures Swept(cfg, s.rooms[room], now).pending.Keys == Waiting(s, room, now)
  {
  }

  lemma UnlinkedIff(cfg: Config, s: State, q: Room, now: nat, ip: Ip)
    requires q in s.rooms
    ensures ip in Unlinked(cfg, s.rooms[q], now) <==> LosesHost(cfg, s, q, now, ip)
  {
    var v := s.rooms[q];
    if ip in Unlinked(cfg, v, now) {
      var a :| a in v.clients && Stale(cfg, v.clients[a], now) && Sole(cfg, v.clients.Keys, a) && cfg.ipKey(a) == ip;
      assert Bucket(cfg, v.clients.Keys, ip) == {a};
    }
    if LosesHost(cfg, s, q, now, ip) {
      var a :|
        && a in v.clients && Bucket(cfg, v.clients.Keys, ip) == {a}
        && Since(now, v.clients[a].lastSeen) > cfg.regTtl;
      assert a in Bucket(cfg, v.clients.Keys, ip);
      forall b | b in v.clients && b != a ensures cfg.ipKey(b) != ip {
        assert cfg.ipKey(b) == ip <==> b in Bucket(cfg, v.clients.Keys, ip);
      }
      SoleStaleUnlinked(cfg, v, now, a);
    }
  }

  lemma SweepRoomHeld(cfg: Config, s: State, room: Room, now: nat, ip: Ip)
    requires room in s.rooms
    ensures LinkedTo(SweepRoom(cfg, s, room, now).links, ip) == Held(cfg, s, {room}, now, ip)
  {
    hide Unlinked, LosesHost, Swept;
    UnlinkedIff(cfg, s, room, now, ip);
    var s' := SweepRoom(cfg, s, room, now);
    forall q ensures q in LinkedTo(s'.links, ip) <==> q in Held(cfg, s, {room}, now, ip) {
      assert (ip, q) in s'.links <==> (ip, q) in s.links && !(q == room && LosesHost(cfg, s, q, now, ip));
    }
  }

  lemma SweepAllHeld(cfg: Config, s: State, now: nat, ip: Ip)
    ensures LinkedTo(SweepAll(cfg, s, now).links, ip) == Held(cfg, s, s.rooms.Keys, now, ip)
  {
    hide Unlinked, LosesHost, SweptRooms;
    var s' := SweepAll(cfg, s, now);
    forall q ensures q in LinkedTo(s'.links, ip) <==> q in Held(cfg, s, s.rooms.Keys, now, ip) {
      if q in s.rooms { UnlinkedIff(cfg, s, q, now, ip); }
      assert (ip, q) in s'.links <==> (ip, q) in s.links && !(q in s.rooms && LosesHost(cfg, s, q, now, ip));
    }
  }

  /** Nobody is left to lose in a room that has just been swept. */
  lemma TwiceHeld(cfg: Config, s: State, room: Room, now: nat, ip: Ip)
    requires room in SweepAll(cfg, s, now).rooms
    ensures var s1 := SweepAll(cfg, s, now);
            && Held(cfg, s1, {room}, now, ip) == LinkedTo(s1.links, ip)
            && Heard(cfg, s1, room, now) == Heard(cfg, s, room, now)
  {
    hide SweptLinks, LinkedTo, Survives;
    var s1 := SweepAll(cfg, s, now);
    assert s1.rooms[room] == Swept(cfg, s.rooms[room], now);
    assert !LosesHost(cfg, s1, room, now, ip);
  }

  // ---- the parts of an answer ----

  lemma RefusalIs(cfg: Config, s: State, room: Room, src: Addr, now: nat)
    requires room in s.rooms
    ensures var s1 := SweepRoom(cfg, s, room, now);
            room in s1.rooms &&
            var refusal := Refusal(cfg, s1.rooms[room], s1.links, src);
            Judged(cfg, Heard(cfg, s, room, now), |Held(cfg, s, {room}, now, cfg.ipKey(src))|, src)
              == if refusal.Some? then Dropped(refusal.value) else Regd
  {
    hide Swept, Unlinked, Without, LinkedTo, Heard, Held, Bucket;
    SweptHeard(cfg, s, room, now);
    SweepRoomHeld(cfg, s, room, now, cfg.ipKey(src));
    var v := SweepRoom(cfg, s, room, now).rooms[room];
    assert |v.clients| == |v.clients.Keys|;
  }

  lemma CompletionIs(cfg: Config, s: State, room: Room, src: Addr, resolved: Addr, now: nat)
    ensures CompleteGlobal(cfg, s, room, src, resolved, now).1 == Completion(cfg, s, room, src, now)
  {
    hide SweepRoom, Admit, Refusal, SweptRooms, SweptLinks, Survivors, LinkedTo, Heard, Held, Judged;
    var ip := cfg.ipKey(src);
    var full := |s.rooms| >= cfg.maxRooms;
    var s1 := if full then SweepAll(cfg, s, now) else s;
    SurvivorsAre(cfg, s.rooms, now);
    SweepAllHeld(cfg, s, now, ip);
    assert s1.rooms.Keys == Kept(cfg, s, now) && |s1.rooms| == |s1.rooms.Keys|;
    if room in s1.rooms {
      RefusalIs(cfg, s1, room, src, now);
      if full { TwiceHeld(cfg, s, room, now, ip); }
    } else if !full {
      NothingSwept(cfg, s, room, now, ip);
    }
  }

  lemma NothingSwept(cfg: Config, s: State, room: Room, now: nat, ip: Ip)
    requires room !in s.rooms
    ensures Held(cfg, s, {room}, now, ip) == LinkedTo(s.links, ip)
  {
  }

  lemma ShownIs(cfg: Config, s: State, room: Room, src: Addr, cookie: Cookie, mint: Cookie, now: nat)
    ensures CookieReg(cfg, s, room, src, cookie, mint, now).1 == Shown(cfg, s, room, src, cookie, mint, now)
  {
    hide CompleteGlobal, Completion, SweepRoom, Admit, Refusal, Judged, Heard, Held, LinkedTo, PendingFrom;
    if (room, src) in s.pending {
      var s1 := DropPending(s, room, src);
      CompletionIs(cfg, s1, room, src, s.pending[(room, src)].resolved, now);
      SameCompletion(cfg, s, s1, room, src, now);
    } else if room in s.rooms {
      RefusalIs(cfg, s, room, src, now);
    }
  }

  lemma SameCompletion(cfg: Config, s: State, s1: State, room: Room, src: Addr, now: nat)
    requires s1.rooms == s.rooms && s1.links == s.links
    ensures Completion(cfg, s1, room, src, now) == Completion(cfg, s, room, src, now)
  {
    hide Judged, LinkedTo, Survivors, LosesHost;
    SameHeld(cfg, s, s1, Cleared(cfg, s, room), now, cfg.ipKey(src));
  }

  lemma SameHeld(cfg: Config, s: State, s1: State, swept: set<Room>, now: nat, ip: Ip)
    requires s1.rooms == s.rooms && s1.links == s.links
    ensures Held(cfg, s1, swept, now, ip) == Held(cfg, s, swept, now, ip)
  {
  }

  lemma KnockedIs(cfg: Config, s: State, room: Room, src: Addr, mint: Cookie, now: nat)
    requires room in s.rooms
    ensures PlainReg(cfg, s, room, src, mint, now).1 == Knocked(cfg, s, room, src, mint, now)
  {
    hide Unlinked, Without, LinkedTo, PendingFrom, Bucket, Heard, Waiting;
    SweptHeard(cfg, s, room, now);
    var v := Swept(cfg, s.rooms[room], now);
    assert |v.clients| == |v.clients.Keys| && |v.pending| == |v.pending.Keys|;
  }

  lemma AskedIs(cfg: Config, s: State, room: Room, src: Addr, mint: Cookie, now: nat)
    requires room !in s.rooms
    ensures PlainReg(cfg, s, room, src, mint, now).1 == Asked(cfg, s, room, src, mint)
  {
  }

  /** In every state, every REG gets the answer of the reference. */
  lemma Answered(cfg: Config, s: State, e: Event)
    requires |s.reg| == NUM_SHARDS && e.Reg?
    ensures Step(cfg, s, e).1 == Replied(Answer(cfg, s, e))
  {
    hide RegMeet, PlainReg, CookieReg, Knocked, Asked, Shown;
    var s1 := Metered(cfg, s, e.src, e.now);
    SameAnswers(cfg, s, s1, e);
    match e.cred
    case Malformed =>
    case Presented(cookie) => ShownIs(cfg, s1, e.room, e.src, cookie, e.mint, e.now);
    case Absent =>
      if e.room in s.rooms { KnockedIs(cfg, s1, e.room, e.src, e.mint, e.now); }
      else { AskedIs(cfg, s1, e.room, e.src, e.mint, e.now); }
  }

  lemma SameAnswers(cfg: Config, s: State, s1: State, e: Event)
    requires e.Reg? && s1 == s.(reg := s1.reg)
    ensures e.cred.Presented? ==>
              Shown(cfg, s1, e.room, e.src, e.cred.cookie, e.mint, e.now)
                == Shown(cfg, s, e.room, e.src, e.cred.cookie, e.mint, e.now)
    ensures Knocked(cfg, s1, e.room, e.src, e.mint, e.now) == Knocked(cfg, s, e.room, e.src, e.mint, e.now)
    ensures Asked(cfg, s1, e.room, e.src, e.mint) == Asked(cfg, s, e.room, e.src, e.mint)
  {
    hide Judged, LinkedTo, PendingFrom, Bucket, Completion, Held;
    SameCompletion(cfg, s, s1, e.room, e.src, e.now);
    SameHeld(cfg, s, s1, {e.room}, e.now, cfg.ipKey(e.src));
  }

  // ---- being let in ----

  /** The source of `e` is in its room, at the address its challenge was sent to, and linked to it; of the others
      exactly those heard of lately are still there, as they were. */
  ghost predicate Joined(cfg: Config, s: State, s': State, e: Event)
    requires e.Reg?
  {
    && Record(s', e.room, e.src) == Some(NewClient(e.now, SentTo(s, e.room, e.src)))
    && (cfg.ipKey(e.src), e.room) in s'.links
    && forall x :: x != e.src ==>
        Record(s', e.room, x) == if x in Heard(cfg, s, e.room, e.now) then Record(s, e.room, x) else None
  }

  lemma CookieLinks(cfg: Config, s: State, room: Room, src: Addr, cookie: Cookie, mint: Cookie, now: nat)
    ensures var (s', reply) := CookieReg(cfg, s, room, src, cookie, mint, now);
            reply == Regd ==> (cfg.ipKey(src), room) in s'.links
  {
    hide SweepAll, SweepRoom, Refusal, LinkedTo, PendingFrom, Expired, DropRoomPending;
    if room in s.rooms {
      StillThere(cfg, s, room, now);
      DroppedEntry(SweepRoom(cfg, s, room, now), room, src, room, src);
    }
  }

  lemma CompletesSweeps(cfg: Config, s: State, e: Event)
    requires |s.reg| == NUM_SHARDS && e.Reg? && e.cred.Presented? && !RegLimited(cfg, s, e.src, e.now)
    requires Completes(s, e.room, e.src, e.cred.cookie, e.now) && e.room in s.rooms
    ensures e.room in SweptBy(cfg, s, e)
  {
    hide RegMeet, Expired;
  }

  /** Whoever is let in with a cookie has joined, and the challenge is used up: the one in the global store if there
      was one, the one in the room otherwise. */
  lemma AdmittedJoins(cfg: Config, s: State, e: Event)
    requires |s.reg| == NUM_SHARDS && e.Reg? && e.cred.Presented? && Step(cfg, s, e).1 == Replied(Regd)
    ensures var s' := Step(cfg, s, e).0;
            && Joined(cfg, s, s', e) && Global(s', e.room, e.src) == None
            && (Global(s, e.room, e.src) == None ==> InRoom(s', e.room, e.src) == None)
  {
    hide RegMeet, RegStep, SweptBy, Completes, Live, InRoom, Claims, Spends, Evicts, Effect;
    var s' := Step(cfg, s, e).0;
    NotLimited(cfg, s, e);
    RegStepEffect(cfg, s, e.room, e.cred, e.src, e.mint, e.now);
    if e.room in s.rooms { CompletesSweeps(cfg, s, e); }
    RecordStep(cfg, s, e, e.room, e.src);
    forall x | x != e.src
      ensures Record(s', e.room, x) == if x in Heard(cfg, s, e.room, e.now) then Record(s, e.room, x) else None
    {
      RecordStep(cfg, s, e, e.room, x);
    }
    UsedUp(cfg, s, e);
  }

  /** Only the limiter and the cookie decide whether a REG is completed at all. */
  lemma NotLimited(cfg: Config, s: State, e: Event)
    requires |s.reg| == NUM_SHARDS && e.Reg? && e.cred.Presented? && Step(cfg, s, e).1 == Replied(Regd)
    ensures !RegLimited(cfg, s, e.src, e.now) && (cfg.ipKey(e.src), e.room) in Step(cfg, s, e).0.links
  {
    hide RegMeet, CookieReg;
    CookieLinks(cfg, Metered(cfg, s, e.src, e.now), e.room, e.src, e.cred.cookie, e.mint, e.now);
  }

  lemma UsedUp(cfg: Config, s: State, e: Event)
    requires |s.reg| == NUM_SHARDS && e.Reg? && e.cred.Presented? && Step(cfg, s, e).1 == Replied(Regd)
    requires !RegLimited(cfg, s, e.src, e.now) && Completes(s, e.room, e.src, e.cred.cookie, e.now)
    ensures var s' := Step(cfg, s, e).0;
            && Global(s', e.room, e.src) == None
            && (Global(s, e.room, e.src) == None ==> InRoom(s', e.room, e.src) == None)
  {
    hide RegMeet, RegStep, SweptBy, Evicts, Expired, Unexpired;
    GlobalStep(cfg, s, e, e.room, e.src);
    InRoomStep(cfg, s, e, e.room, e.src);
  }

  /** A good cookie of a challenge made inside the room lets its source in if and only if, of those heard of lately and
      of the links left after the sweep: the source is a client already or the room is below its hard cap; its host is
      present or below its room limit; and the source is a client already or its host is below its share of the room.
      The first of the three that fails is the reason it is told. */
  lemma InRoomAdmitsIff(cfg: Config, s: State, e: Event)
    requires |s.reg| == NUM_SHARDS && e.Reg? && e.cred.Presented? && !RegLimited(cfg, s, e.src, e.now)
    requires Global(s, e.room, e.src) == None && InRoom(s, e.room, e.src).Some?
    requires InRoom(s, e.room, e.src).value.cookie == e.cred.cookie
    requires Since(e.now, InRoom(s, e.room, e.src).value.createdAt) <= PENDING_REG_TTL
    ensures var (s', o) := Step(cfg, s, e);
            var live, ip := Heard(cfg, s, e.room, e.now), cfg.ipKey(e.src);
            var below := e.src in live || |live| < cfg.maxClientsHard;
            var linkable := Bucket(cfg, live, ip) != {} || |Held(cfg, s, {e.room}, e.now, ip)| < cfg.maxRoomsPerIp;
            var share := e.src in live || |Bucket(cfg, live, ip)| < cfg.maxPerPrefix;
            && (o == Replied(Regd) <==> below && linkable && share)
            && (o == Replied(Dropped(HardCap)) <==> !below)
            && (o == Replied(Dropped(RoomsPerIp)) <==> below && !linkable)
            && (o == Replied(Dropped(PrefixCap)) <==> below && linkable && !share)
            && (o == Replied(Regd) ==> Joined(cfg, s, s', e) && InRoom(s', e.room, e.src) == None)
  {
    hide Step, RegMeet, Heard, Held, Bucket, Joined;
    InRoomHere(s, e.room, e.src);
    Answered(cfg, s, e);
    if Step(cfg, s, e).1 == Replied(Regd) { AdmittedJoins(cfg, s, e); }
  }

  /** The same for a challenge made before the room existed, if by now it does (and survives, should the table be
      full); the challenge is gone whatever the answer. */
  lemma GlobalAdmitsIff(cfg: Config, s: State, e: Event)
    requires |s.reg| == NUM_SHARDS && e.Reg? && e.cred.Presented? && !RegLimited(cfg, s, e.src, e.now)
    requires Global(s, e.room, e.src).Some? && Global(s, e.room, e.src).value.cookie == e.cred.cookie
    requires Since(e.now, Global(s, e.room, e.src).value.createdAt) <= PENDING_REG_TTL
    requires e.room in Kept(cfg, s, e.now)
    ensures var (s', o) := Step(cfg, s, e);
            var live, ip := Heard(cfg, s, e.room, e.now), cfg.ipKey(e.src);
            var held := |Held(cfg, s, Cleared(cfg, s, e.room), e.now, ip)|;
            var below := e.src in live || |live| < cfg.maxClientsHard;
            var linkable := Bucket(cfg, live, ip) != {} || held < cfg.maxRoomsPerIp;
            var share := e.src in live || |Bucket(cfg, live, ip)| < cfg.maxPerPrefix;
            && (o == Replied(Regd) <==> below && linkable && share)
            && (o == Replied(Dropped(HardCap)) <==> !below)
            && (o == Replied(Dropped(RoomsPerIp)) <==> below && !linkable)
            && (o == Replied(Dropped(PrefixCap)) <==> below && linkable && !share)
            && Global(s', e.room, e.src) == None && (o == Replied(Regd) ==> Joined(cfg, s, s', e))
  {
    hide Step, RegMeet, Heard, Held, Bucket, Joined, Kept, Cleared;
    Answered(cfg, s, e);
    GlobalStep(cfg, s, e, e.room, e.src);
    NoCompletionChallenges(cfg, s, e.room, e.src, e.now);
    if Step(cfg, s, e).1 == Replied(Regd) { AdmittedJoins(cfg, s, e); }
  }

  lemma NoCompletionChallenges(cfg: Config, s: State, room: Room, src: Addr, now: nat)
    ensures !Completion(cfg, s, room, src, now).Challenge?
  {
    hide Heard, Held, Bucket, Kept, Cleared;
  }

  /** And if the room is not there to join: it opens, with the source its only client, if and only if fewer than
      `max_rooms` rooms are kept and the host is below its room limit after the sweep. */
  lemma RoomOpensIff(cfg: Config, s: State, e: Event)
    requires |s.reg| == NUM_SHARDS && e.Reg? && e.cred.Presented? && !RegLimited(cfg, s, e.src, e.now)
    requires Global(s, e.room, e.src).Some? && Global(s, e.room, e.src).value.cookie == e.cred.cookie
    requires Since(e.now, Global(s, e.room, e.src).value.createdAt) <= PENDING_REG_TTL
    requires e.room !in Kept(cfg, s, e.now)
    ensures var (s', o) := Step(cfg, s, e);
            var space := |Kept(cfg, s, e.now)| < cfg.maxRooms;
            var linkable := |Held(cfg, s, Cleared(cfg, s, e.room), e.now, cfg.ipKey(e.src))| < cfg.maxRoomsPerIp;
            && (o == Replied(Regd) <==> space && linkable)
            && (o == Replied(Dropped(MaxRooms)) <==> !space)
            && (o == Replied(Dropped(RoomsPerIp)) <==> space && !linkable)
            && Global(s', e.room, e.src) == None
            && (o == Replied(Regd) ==> Joined(cfg, s, s', e) && Heard(cfg, s, e.room, e.now) == {})
  {
    hide Step, RegMeet, Held, Bucket, Joined, Cleared;
    Answered(cfg, s, e);
    GlobalStep(cfg, s, e, e.room, e.src);
    NoCompletionChallenges(cfg, s, e.room, e.src, e.now);
    if Step(cfg, s, e).1 == Replied(Regd) { AdmittedJoins(cfg, s, e); }
  }

  // ---- asking again ----

  /** In any run: a source challenged inside a room that asks again within 5 s, after no sweep took the room away, gets
      the same cookie once more if and only if the limiter lets it pass, its host is below the room limit, it is not a
      client, and the room is below its hard cap; a cap on challenges never stands in its way. */
  lemma SameCookieAgain(cfg: Config, es: seq<Event>, e: Event, more: seq<Event>, again: Event)
    requires e.Reg? && e.room in Run(cfg, es).rooms && Step(cfg, Run(cfg, es), e).1.reply.Challenge?
    requires !EvictedIn(cfg, es + [e], more, e.room)
    requires forall x :: x in more ==> Silences(x, (e.room, e.src)) && Since(x.now, e.now) <= PENDING_REG_TTL
    requires again.Reg? && again.room == e.room && again.src == e.src && again.cred.Absent?
    requires Since(again.now, e.now) <= PENDING_REG_TTL
    ensures var s := Run(cfg, es + [e] + more);
            var live := Heard(cfg, s, e.room, again.now);
            Step(cfg, s, again).1 == Replied(
              if RegLimited(cfg, s, e.src, again.now) then Dropped(RateLimited)
              else if |LinkedTo(s.links, cfg.ipKey(e.src))| >= cfg.maxRoomsPerIp then Dropped(RoomsPerIp)
              else if e.src in live then Regd
              else if |live| >= cfg.maxClientsHard then Dropped(HardCap)
              else Step(cfg, Run(cfg, es), e).1.reply)
  {
    hide Step, Since, EvictedIn, DropsIn, Silences, RegLimited, LinkedTo, Heard, PendingFrom, Bucket;
    assert (es + [e])[..|es|] == es;
    InRoomRecorded(cfg, Run(cfg, es), e);
    FreshDropsIff(cfg, es + [e], more, e.room, e.now);
    InRoomOutlivesIff(cfg, es + [e], more, e.room, e.src);
    Answered(cfg, Run(cfg, es + [e] + more), again);
  }
}
