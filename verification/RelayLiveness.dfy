/** The other half of admission: a challenge the relay has sent is honoured when it comes back in time,
    whatever everybody else does in between. */
module RelayLiveness {
  import opened Net
  import opened Limiters
  import opened RelaySpec
  import opened RelayAdmission

  predicate RegLimited(cfg: Config, s: State, src: Addr, now: nat)
    requires |s.reg| == NUM_SHARDS
  {
    var ip := cfg.ipKey(src);
    RegMeet(s.reg[cfg.regShard(ip)], ip, now, cfg.rateWindow, cfg.maxRegRate).0
  }

  /** The state a REG works on once the limiter has counted it. */
  function Metered(cfg: Config, s: State, src: Addr, now: nat): State
    requires |s.reg| == NUM_SHARDS
  {
    var ip := cfg.ipKey(src);
    var i := cfg.regShard(ip);
    s.(reg := s.reg[i := RegMeet(s.reg[i], ip, now, cfg.rateWindow, cfg.maxRegRate).1])
  }

  // ---- the law of the global store ----

  /** What a sweep at `now` leaves of a challenge: it is kept for 5 s. */
  ghost function Unexpired(p: Option<PendingReg>, now: nat): Option<PendingReg> {
    if p.Some? && Since(now, p.value.createdAt) > PENDING_REG_TTL then None else p
  }

  /** The entry a challenge answered to `src` at `now` stands for. */
  ghost function Issued(reply: Reply, src: Addr, now: nat): Option<PendingReg>
    requires reply.Challenge?
  {
    Some(PendingReg(reply.cookie, now, src))
  }

  /** `a` shows the cookie of the challenge that waits for it in the global store. */
  ghost predicate Claims(cfg: Config, s: State, e: Event, r: Room, a: Addr)
    requires |s.reg| == NUM_SHARDS
  {
    && e.Reg? && e.room == r && e.src == a && e.cred.Presented? && !RegLimited(cfg, s, a, e.now)
    && Global(s, r, a).Some? && Global(s, r, a).value.cookie == e.cred.cookie
  }

  lemma CookieRegGlobal(cfg: Config, s: State, room: Room, src: Addr, cookie: Cookie, mint: Cookie, now: nat, r: Room,
                        a: Addr)
    ensures var (s', reply) := CookieReg(cfg, s, room, src, cookie, mint, now);
            && (reply.Challenge? ==> room !in s.rooms && Global(s, room, src) == None)
            && Global(s', r, a)
               == if (r, a) != (room, src) then Global(s, r, a)
                  else if reply.Challenge? then Issued(reply, src, now)
                  else if Global(s, r, a).Some? && Global(s, r, a).value.cookie == cookie then None
                  else Global(s, r, a)
  {
    hide CompleteInRoom, CompleteGlobal, PendingFrom, LinkedTo;
    if (room, src) in s.pending {
      var s1 := DropPending(s, room, src);
      CompletePendings(cfg, s1, room, src, s.pending[(room, src)].resolved, now);
      CompleteCaps(cfg, s1, room, src, s.pending[(room, src)].resolved, now);
    } else if room in s.rooms {
      InRoomPendings(cfg, s, room, src, cookie, now);
    }
  }

  lemma CompletePendings(cfg: Config, s: State, room: Room, src: Addr, resolved: Addr, now: nat)
    ensures CompleteGlobal(cfg, s, room, src, resolved, now).0.pending == s.pending
  {
    hide SweptRooms, SweptLinks, Swept, Unlinked, Without, Bucket, LinkedTo, Refusal;
  }

  lemma InRoomPendings(cfg: Config, s: State, room: Room, src: Addr, cookie: Cookie, now: nat)
    requires room in s.rooms
    ensures var (s', reply) := CompleteInRoom(cfg, s, room, src, cookie, now);
            s'.pending == s.pending && !reply.Challenge?
  {
    hide SweptRooms, SweptLinks, Swept, Unlinked, Without, Bucket, LinkedTo, Refusal;
  }

  lemma PlainRegGlobal(cfg: Config, s: State, room: Room, src: Addr, mint: Cookie, now: nat, r: Room, a: Addr)
    ensures var (s', reply) := PlainReg(cfg, s, room, src, mint, now);
            Global(s', r, a) == if (r, a) == (room, src) && reply.Challenge? && room !in s.rooms
                                then Issued(reply, src, now) else Global(s, r, a)
  {
    hide Swept, Unlinked, Without, Bucket, LinkedTo, PendingFrom;
  }

  /** Exactly what a step does to an entry of the global store: a challenge for a room that does not exist writes
      it, showing its cookie takes it away whatever comes of it, the timer drops it 5 s after it was made, and
      nothing else, from anybody, touches it. */
  lemma GlobalStep(cfg: Config, s: State, e: Event, r: Room, a: Addr)
    requires |s.reg| == NUM_SHARDS
    ensures var (s', o) := Step(cfg, s, e);
            Global(s', r, a) == if SomeChallenge(e, o, r, a) && r !in s.rooms then Issued(o.reply, a, e.now)
                                else if Claims(cfg, s, e, r, a) then None
                                else if e.Sweep? then Unexpired(Global(s, r, a), e.now)
                                else Global(s, r, a)
  {
    match e
    case Reg(room, cred, src, mint, now) => RegGlobal(cfg, s, e, r, a);
    case Msg(_, _, _) => hide Meet;
    case Sweep(_) => hide SweepAll;
    case RateCleanup(_) => hide SweptShards;
  }

  lemma RegGlobal(cfg: Config, s: State, e: Event, r: Room, a: Addr)
    requires |s.reg| == NUM_SHARDS && e.Reg?
    ensures var (s', o) := Step(cfg, s, e);
            Global(s', r, a) == if SomeChallenge(e, o, r, a) && r !in s.rooms then Issued(o.reply, a, e.now)
                                else if Claims(cfg, s, e, r, a) then None else Global(s, r, a)
  {
    hide PlainReg, CookieReg, RegMeet;
    var s1 := Metered(cfg, s, e.src, e.now);
    PlainRegGlobal(cfg, s1, e.room, e.src, e.mint, e.now, r, a);
    if e.cred.Presented? { CookieRegGlobal(cfg, s1, e.room, e.src, e.cred.cookie, e.mint, e.now, r, a); }
  }

  /** `k`'s own sender does not speak to its room. */
  predicate Silences(e: Event, k: PendKey) { e.Reg? ==> (e.room, e.src) != k }

  /** Some sweep timer of `more` fires more than 5 s after `p` was made. */
  ghost predicate TimedOutIn(more: seq<Event>, p: PendingReg) {
    exists e :: e in more && e.Sweep? && Since(e.now, p.createdAt) > PENDING_REG_TTL
  }

  /** Over any stretch of any run in which its own source is silent, an entry of the global store is there at the
      end, unchanged, if and only if no timer fired more than 5 s after it was made. */
  lemma {:induction false} GlobalOutlivesIff(cfg: Config, es: seq<Event>, more: seq<Event>, r: Room, a: Addr)
    requires Global(Run(cfg, es), r, a).Some?
    requires forall e :: e in more ==> Silences(e, (r, a))
    ensures var p := Global(Run(cfg, es), r, a);
            Global(Run(cfg, es + more), r, a) == if TimedOutIn(more, p.value) then None else p
  {
    hide Step, Global, RegLimited, Since;
    var p := Global(Run(cfg, es), r, a).value;
    if more == [] {
      assert es + more == es;
    } else {
      var n := |more| - 1;
      GlobalOutlivesIff(cfg, es, more[..n], r, a);
      TimedOutSnoc(more, p);
      assert more[n] in more;
      assert (es + more)[..|es + more| - 1] == es + more[..n];
      GlobalStep(cfg, Run(cfg, es + more[..n]), more[n], r, a);
    }
  }

  lemma TimedOutSnoc(more: seq<Event>, p: PendingReg)
    requires more != []
    ensures var n := |more| - 1;
            TimedOutIn(more, p) <==>
            TimedOutIn(more[..n], p) || (more[n].Sweep? && Since(more[n].now, p.createdAt) > PENDING_REG_TTL)
  {
    var n := |more| - 1;
    assert more == more[..n] + [more[n]];
  }

  /** The reasons left once the cookie is right. */
  predicate OnlyCaps(reply: Reply) {
    reply in {Regd, Dropped(RateLimited), Dropped(MaxRooms), Dropped(RoomsPerIp), Dropped(HardCap), Dropped(PrefixCap)}
  }

  lemma CompleteCaps(cfg: Config, s: State, room: Room, src: Addr, resolved: Addr, now: nat)
    ensures OnlyCaps(CompleteGlobal(cfg, s, room, src, resolved, now).1)
  {
    hide SweptRooms, SweptLinks, Swept, Unlinked, Without, Bucket, LinkedTo;
  }

  /** What a challenge for a room that does not exist leaves behind. */
  lemma ChallengeRecorded(cfg: Config, s: State, e: Event)
    requires |s.reg| == NUM_SHARDS && e.Reg? && e.room !in s.rooms && Step(cfg, s, e).1.reply.Challenge?
    ensures var s' := Step(cfg, s, e).0; var k := (e.room, e.src);
            k in s'.pending && s'.pending[k] == PendingReg(Step(cfg, s, e).1.reply.cookie, e.now, e.src)
  {
    hide RegMeet, RegStep, Claims, Unexpired;
    GlobalStep(cfg, s, e, e.room, e.src);
  }

  /** In any run: a challenge sent to a source for a room that does not exist, answered with its cookie
      while it is fresh, admits the source or meets a cap. No event of others, no sweep and no traffic of
      the source elsewhere can turn it into a mismatch, an expiry or a second challenge. */
  lemma ChallengeHonoured(cfg: Config, es: seq<Event>, e: Event, more: seq<Event>, back: Event)
    requires e.Reg? && e.room !in Run(cfg, es).rooms && Step(cfg, Run(cfg, es), e).1.reply.Challenge?
    requires forall x :: x in more ==> Silences(x, (e.room, e.src)) && Since(x.now, e.now) <= PENDING_REG_TTL
    requires back.Reg? && back.room == e.room && back.src == e.src && Since(back.now, e.now) <= PENDING_REG_TTL
    requires back.cred == Presented(Step(cfg, Run(cfg, es), e).1.reply.cookie)
    ensures OnlyCaps(Step(cfg, Run(cfg, es + [e] + more), back).1.reply)
  {
    hide Step, Since;
    assert (es + [e])[..|es|] == es;
    ChallengeRecorded(cfg, Run(cfg, es), e);
    GlobalOutlivesIff(cfg, es + [e], more, e.room, e.src);
    CookieAccepted(cfg, Run(cfg, es + [e] + more), back);
  }

  lemma CookieAccepted(cfg: Config, s: State, e: Event)
    requires |s.reg| == NUM_SHARDS && e.Reg? && e.cred.Presented? && (e.room, e.src) in s.pending
    requires s.pending[(e.room, e.src)].cookie == e.cred.cookie && !Expired(s.pending[(e.room, e.src)], e.now)
    requires s.pending[(e.room, e.src)].resolved == e.src
    ensures Step(cfg, s, e).1.Replied? && OnlyCaps(Step(cfg, s, e).1.reply)
  {
    hide RegMeet, CompleteGlobal, CompleteInRoom, Expired;
    CompleteCaps(cfg, DropPending(Metered(cfg, s, e.src, e.now), e.room, e.src), e.room, e.src, e.src, e.now);
  }

  /** And with room under the caps it does admit: the room comes into being with the source as its only
      client, reachable at the address the cookie was sent to. */
  lemma RoomOpens(cfg: Config, s: State, e: Event)
    requires |s.reg| == NUM_SHARDS && e.Reg? && e.cred.Presented? && (e.room, e.src) in s.pending
    requires s.pending[(e.room, e.src)].cookie == e.cred.cookie && !Expired(s.pending[(e.room, e.src)], e.now)
    requires !RegLimited(cfg, s, e.src, e.now) && e.room !in s.rooms
    requires |s.rooms| < cfg.maxRooms && |LinkedTo(s.links, cfg.ipKey(e.src))| < cfg.maxRoomsPerIp
    ensures var (s', out) := Step(cfg, s, e);
            && out == Replied(Regd) && s'.rooms.Keys == s.rooms.Keys + {e.room}
            && s'.rooms[e.room].clients == map[e.src := NewClient(e.now, s.pending[(e.room, e.src)].resolved)]
            && s'.pending == s.pending - {(e.room, e.src)} && s'.links == s.links + {(cfg.ipKey(e.src), e.room)}
  {
    hide RegMeet, LinkedTo, Expired, SweepAll, SweepRoom, Refusal, CompleteInRoom, Issue;
  }
}
