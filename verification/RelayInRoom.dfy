/** Challenges for rooms that exist already. Their entries live in the room and go when the room goes, and
    they are looked up only after the global store; so they are honoured under exact conditions. */
module RelayInRoom {
  import opened Net
  import opened Limiters
  import opened RelaySpec
  import opened RelayIndex
  import opened RelayAdmission
  import opened RelayLiveness

  // ---- what removes an entry ----

  /** The step sweeps all rooms: the timer, or a completion that finds the table full. */
  ghost predicate SweepsAll(cfg: Config, s: State, e: Event)
    requires |s.reg| == NUM_SHARDS
  {
    || e.Sweep?
    || (e.Reg? && e.cred.Presented? && !RegLimited(cfg, s, e.src, e.now) && |s.rooms| >= cfg.maxRooms
        && (e.room, e.src) in s.pending && s.pending[(e.room, e.src)].cookie == e.cred.cookie
        && !Expired(s.pending[(e.room, e.src)], e.now))
  }

  /** The step's sweep finds room `r` abandoned. */
  ghost predicate Evicts(cfg: Config, s: State, e: Event, r: Room)
    requires |s.reg| == NUM_SHARDS
  {
    SweepsAll(cfg, s, e) && r in s.rooms && Abandoned(cfg, s.rooms[r], e.now)
  }

  /** A challenge that waits in the room is used up: its cookie comes with no other waiting in the global store,
      and either it is too old or the source is let in. */
  ghost predicate Spends(cfg: Config, s: State, e: Event, o: Outcome, r: Room, a: Addr)
    requires |s.reg| == NUM_SHARDS
  {
    && e.Reg? && e.room == r && e.src == a && e.cred.Presented? && !RegLimited(cfg, s, a, e.now)
    && Global(s, r, a) == None && InRoom(s, r, a).Some? && InRoom(s, r, a).value.cookie == e.cred.cookie
    && (Unexpired(InRoom(s, r, a), e.now) == None || o == Replied(Regd))
  }

  // ---- the parts of a step ----

  lemma SweepAllEntry(cfg: Config, s: State, now: nat, r: Room, a: Addr)
    ensures InRoom(SweepAll(cfg, s, now), r, a)
         == if r in s.rooms && !Abandoned(cfg, s.rooms[r], now) then Unexpired(InRoom(s, r, a), now) else None
  {
    hide SweptLinks, Survives, Abandoned, Stale;
    if r in s.rooms { SurvivesIff(cfg, s.rooms[r], now); }
  }

  lemma AdmitEntry(cfg: Config, s: State, room: Room, src: Addr, resolved: Addr, now: nat, r: Room, a: Addr)
    requires room in s.rooms
    ensures InRoom(Admit(cfg, s, room, src, resolved, now), r, a) == InRoom(s, r, a)
  {
  }

  lemma NewRoomEntry(s: State, room: Room, now: nat, r: Room, a: Addr)
    requires room !in s.rooms
    ensures InRoom(s.(rooms := s.rooms[room := RoomView(map[], map[], now)]), r, a) == InRoom(s, r, a)
  {
  }

  lemma StillThere(cfg: Config, s: State, room: Room, now: nat)
    requires room in s.rooms
    ensures room in SweepRoom(cfg, s, room, now).rooms
  {
  }

  lemma SweptEntry(cfg: Config, s: State, room: Room, now: nat, r: Room, a: Addr)
    requires room in s.rooms
    ensures InRoom(SweepRoom(cfg, s, room, now), r, a)
         == if r == room then Unexpired(InRoom(s, r, a), now) else InRoom(s, r, a)
  {
    hide Unlinked, Without, Stale;
  }

  lemma CompleteGlobalEntry(cfg: Config, s: State, room: Room, src: Addr, resolved: Addr, now: nat, r: Room, a: Addr)
    ensures var full := |s.rooms| >= cfg.maxRooms;
            InRoom(CompleteGlobal(cfg, s, room, src, resolved, now).0, r, a)
              == if full && r in s.rooms && Abandoned(cfg, s.rooms[r], now) then None
                 else if full || r == room then Unexpired(InRoom(s, r, a), now) else InRoom(s, r, a)
  {
    hide InRoom, SweepAll, SweepRoom, Admit, Refusal, Abandoned, LinkedTo;
    var s1 := if |s.rooms| >= cfg.maxRooms then SweepAll(cfg, s, now) else s;
    SweepAllEntry(cfg, s, now, r, a);
    InRoomHere(s, r, a);
    InRoomHere(s1, r, a);
    if room !in s1.rooms {
      NewRoomEntry(s1, room, now, r, a);
      AdmitEntry(cfg, s1.(rooms := s1.rooms[room := RoomView(map[], map[], now)]), room, src, resolved, now, r, a);
    } else {
      SweptEntry(cfg, s1, room, now, r, a);
      StillThere(cfg, s1, room, now);
      AdmitEntry(cfg, SweepRoom(cfg, s1, room, now), room, src, resolved, now, r, a);
    }
  }

  lemma InRoomHere(s: State, r: Room, a: Addr)
    ensures InRoom(s, r, a).Some? ==> r in s.rooms
  {
  }

  lemma DroppedEntry(s: State, room: Room, src: Addr, r: Room, a: Addr)
    requires room in s.rooms
    ensures room in DropRoomPending(s, room, src).rooms
    ensures InRoom(DropRoomPending(s, room, src), r, a) == if (r, a) == (room, src) then None else InRoom(s, r, a)
  {
  }

  lemma CompleteInRoomEntry(cfg: Config, s: State, room: Room, src: Addr, cookie: Cookie, now: nat, r: Room, a: Addr)
    requires room in s.rooms
    ensures var (s', reply) := CompleteInRoom(cfg, s, room, src, cookie, now);
            var p := InRoom(s, room, src);
            var matches, late := p.Some? && p.value.cookie == cookie, Unexpired(p, now) == None;
            InRoom(s', r, a) == if matches && (late || reply == Regd) && (r, a) == (room, src) then None
                                else if matches && !late && r == room then Unexpired(InRoom(s, r, a), now)
                                else InRoom(s, r, a)
  {
    hide SweepRoom, Admit, Refusal, DropRoomPending;
    SweptEntry(cfg, s, room, now, r, a);
    StillThere(cfg, s, room, now);
    var s1 := SweepRoom(cfg, s, room, now);
    DroppedEntry(s, room, src, r, a);
    DroppedEntry(s1, room, src, r, a);
    if src in s.rooms[room].pending {
      AdmitEntry(cfg, DropRoomPending(s1, room, src), room, src, s.rooms[room].pending[src].resolved, now, r, a);
    }
  }

  lemma KnockEntry(cfg: Config, s: State, room: Room, src: Addr, mint: Cookie, now: nat, r: Room, a: Addr)
    requires room in s.rooms
    ensures var (s', reply) := Knock(cfg, s, room, src, mint, now);
            InRoom(s', r, a) == if reply.Challenge? && (r, a) == (room, src) then Issued(reply, src, now)
                                else InRoom(s, r, a)
  {
    hide PendingFrom, Bucket;
  }

  lemma PlainRegEntry(cfg: Config, s: State, room: Room, src: Addr, mint: Cookie, now: nat, r: Room, a: Addr)
    ensures var (s', reply) := PlainReg(cfg, s, room, src, mint, now);
            InRoom(s', r, a)
              == if reply.Challenge? && room in s.rooms && (r, a) == (room, src) then Issued(reply, src, now)
                 else if |LinkedTo(s.links, cfg.ipKey(src))| < cfg.maxRoomsPerIp && r == room
                 then Unexpired(InRoom(s, r, a), now) else InRoom(s, r, a)
  {
    hide SweepRoom, Knock, LinkedTo, PendingFrom, Bucket;
    if room in s.rooms {
      SweptEntry(cfg, s, room, now, r, a);
      StillThere(cfg, s, room, now);
      KnockEntry(cfg, SweepRoom(cfg, s, room, now), room, src, mint, now, r, a);
    }
  }

  // ---- the law of one step ----

  /** Exactly what a step does to an entry inside a room: a challenge for a room that exists writes it; it goes when
      it is used up, when the step sweeps all rooms and its room does not survive, or when the step sweeps its room
      more than 5 s after it was made; and nothing else, from anybody, touches it. */
  lemma InRoomStep(cfg: Config, s: State, e: Event, r: Room, a: Addr)
    requires |s.reg| == NUM_SHARDS
    ensures var (s', o) := Step(cfg, s, e);
            InRoom(s', r, a) == if SomeChallenge(e, o, r, a) && r in s.rooms then Issued(o.reply, a, e.now)
                                else if Spends(cfg, s, e, o, r, a) || Evicts(cfg, s, e, r) then None
                                else if r in SweptBy(cfg, s, e) then Unexpired(InRoom(s, r, a), e.now)
                                else InRoom(s, r, a)
  {
    match e
    case Reg(_, cred, _, _, _) =>
      if RegLimited(cfg, s, e.src, e.now) || cred.Malformed? { TurnedAwayEntry(cfg, s, e, r, a); }
      else if cred.Absent? { PlainStepEntry(cfg, s, e, r, a); }
      else { CookieStepEntry(cfg, s, e, r, a); }
    case Msg(_, _, _) => hide Meet;
    case Sweep(now) =>
      hide SweepAll, Abandoned;
      SweepAllEntry(cfg, s, now, r, a);
    case RateCleanup(_) => hide SweptShards;
  }

  lemma TurnedAwayEntry(cfg: Config, s: State, e: Event, r: Room, a: Addr)
    requires |s.reg| == NUM_SHARDS && e.Reg? && (RegLimited(cfg, s, e.src, e.now) || e.cred.Malformed?)
    ensures var (s', o) := Step(cfg, s, e);
            && InRoom(s', r, a) == InRoom(s, r, a) && SweptBy(cfg, s, e) == {} && !SweepsAll(cfg, s, e)
            && !Spends(cfg, s, e, o, r, a) && !SomeChallenge(e, o, r, a)
  {
    hide RegMeet, PlainReg, CookieReg;
  }

  lemma PlainStepEntry(cfg: Config, s: State, e: Event, r: Room, a: Addr)
    requires |s.reg| == NUM_SHARDS && e.Reg? && !RegLimited(cfg, s, e.src, e.now) && e.cred.Absent?
    ensures var (s', o) := Step(cfg, s, e);
            InRoom(s', r, a) == if SomeChallenge(e, o, r, a) && r in s.rooms then Issued(o.reply, a, e.now)
                                else if r in SweptBy(cfg, s, e) then Unexpired(InRoom(s, r, a), e.now)
                                else InRoom(s, r, a)
  {
    hide RegMeet, PlainReg, LinkedTo;
    PlainRegEntry(cfg, Metered(cfg, s, e.src, e.now), e.room, e.src, e.mint, e.now, r, a);
  }

  lemma CookieStepEntry(cfg: Config, s: State, e: Event, r: Room, a: Addr)
    requires |s.reg| == NUM_SHARDS && e.Reg? && !RegLimited(cfg, s, e.src, e.now) && e.cred.Presented?
    ensures var (s', o) := Step(cfg, s, e);
            && !(SomeChallenge(e, o, r, a) && r in s.rooms)
            && InRoom(s', r, a) == if Spends(cfg, s, e, o, r, a) || Evicts(cfg, s, e, r) then None
                                   else if r in SweptBy(cfg, s, e) then Unexpired(InRoom(s, r, a), e.now)
                                   else InRoom(s, r, a)
  {
    hide RegMeet, CompleteGlobal, CompleteInRoom, Issue, LinkedTo, Abandoned;
    var s1 := Metered(cfg, s, e.src, e.now);
    CookieRegGlobal(cfg, s1, e.room, e.src, e.cred.cookie, e.mint, e.now, r, a);
    if (e.room, e.src) in s.pending {
      var s2 := DropPending(s1, e.room, e.src);
      CompleteGlobalEntry(cfg, s2, e.room, e.src, s.pending[(e.room, e.src)].resolved, e.now, r, a);
    } else if e.room in s.rooms {
      CompleteInRoomEntry(cfg, s1, e.room, e.src, e.cred.cookie, e.now, r, a);
    } else {
      IssueEntry(cfg, s1, e.room, e.src, e.mint, e.now, r, a);
    }
  }

  lemma IssueEntry(cfg: Config, s: State, room: Room, src: Addr, mint: Cookie, now: nat, r: Room, a: Addr)
    ensures InRoom(Issue(cfg, s, room, src, mint, now).0, r, a) == InRoom(s, r, a)
  {
  }

  // ---- whole runs ----

  /** The step removes a challenge of room `r` made at `t`, other than by a REG of its source. */
  ghost predicate Drops(cfg: Config, s: State, e: Event, r: Room, t: nat)
    requires |s.reg| == NUM_SHARDS
  {
    Evicts(cfg, s, e, r) || (r in SweptBy(cfg, s, e) && Since(e.now, t) > PENDING_REG_TTL)
  }

  /** Some event of `more`, after `es`, does. */
  ghost predicate DropsIn(cfg: Config, es: seq<Event>, more: seq<Event>, r: Room, t: nat) {
    exists j :: 0 <= j < |more| && Drops(cfg, Run(cfg, es + more[..j]), more[j], r, t)
  }

  /** Some event of `more`, after `es`, sweeps room `r` away. */
  ghost predicate EvictedIn(cfg: Config, es: seq<Event>, more: seq<Event>, r: Room) {
    exists j :: 0 <= j < |more| && Evicts(cfg, Run(cfg, es + more[..j]), more[j], r)
  }

  lemma DropsSnoc(cfg: Config, es: seq<Event>, more: seq<Event>, r: Room, t: nat)
    requires more != []
    ensures var n := |more| - 1;
            DropsIn(cfg, es, more, r, t) <==>
            DropsIn(cfg, es, more[..n], r, t) || Drops(cfg, Run(cfg, es + more[..n]), more[n], r, t)
  {
    hide Drops, Run;
    var n := |more| - 1;
    var init := more[..n];
    assert forall j :: 0 <= j < n ==> init[..j] == more[..j] && init[j] == more[j];
    if DropsIn(cfg, es, init, r, t) {
      var j :| 0 <= j < n && Drops(cfg, Run(cfg, es + init[..j]), init[j], r, t);
      assert Drops(cfg, Run(cfg, es + more[..j]), more[j], r, t);
    }
    if DropsIn(cfg, es, more, r, t) {
      var j :| 0 <= j < |more| && Drops(cfg, Run(cfg, es + more[..j]), more[j], r, t);
      if j < n { assert Drops(cfg, Run(cfg, es + init[..j]), init[j], r, t); }
    }
  }

  /** Over any stretch of any run in which its own source is silent, an entry inside a room is there at the end,
      unchanged, if and only if no sweep took the room away and none came to the room more than 5 s after the entry
      was made. */
  lemma {:induction false} InRoomOutlivesIff(cfg: Config, es: seq<Event>, more: seq<Event>, r: Room, a: Addr)
    requires InRoom(Run(cfg, es), r, a).Some?
    requires forall e :: e in more ==> Silences(e, (r, a))
    ensures var p := InRoom(Run(cfg, es), r, a);
            InRoom(Run(cfg, es + more), r, a) == if DropsIn(cfg, es, more, r, p.value.createdAt) then None else p
  {
    hide Step, InRoom, DropsIn, Evicts, SweptBy, Since;
    var t := InRoom(Run(cfg, es), r, a).value.createdAt;
    if more == [] {
      assert es + more == es;
      NeverDropped(cfg, es, r, t);
    } else {
      var n := |more| - 1;
      InRoomOutlivesIff(cfg, es, more[..n], r, a);
      DropsSnoc(cfg, es, more, r, t);
      assert more[n] in more;
      assert (es + more)[..|es + more| - 1] == es + more[..n];
      InRoomStep(cfg, Run(cfg, es + more[..n]), more[n], r, a);
    }
  }

  lemma NeverDropped(cfg: Config, es: seq<Event>, r: Room, t: nat)
    ensures !DropsIn(cfg, es, [], r, t)
  {
  }

  /** While it is fresh, only the loss of its room can take it away. */
  lemma FreshDropsIff(cfg: Config, es: seq<Event>, more: seq<Event>, r: Room, t: nat)
    requires forall e :: e in more ==> Since(e.now, t) <= PENDING_REG_TTL
    ensures DropsIn(cfg, es, more, r, t) <==> EvictedIn(cfg, es, more, r)
  {
    hide Run, Evicts, SweptBy, Since;
    if DropsIn(cfg, es, more, r, t) {
      var j :| 0 <= j < |more| && Drops(cfg, Run(cfg, es + more[..j]), more[j], r, t);
      assert more[j] in more;
    }
    if EvictedIn(cfg, es, more, r) {
      var j :| 0 <= j < |more| && Evicts(cfg, Run(cfg, es + more[..j]), more[j], r);
      assert Drops(cfg, Run(cfg, es + more[..j]), more[j], r, t);
    }
  }

  /** What a challenge for an existing room leaves behind. */
  lemma InRoomRecorded(cfg: Config, s: State, e: Event)
    requires |s.reg| == NUM_SHARDS && e.Reg? && e.room in s.rooms && Step(cfg, s, e).1.reply.Challenge?
    ensures InRoom(Step(cfg, s, e).0, e.room, e.src) == Some(PendingReg(Step(cfg, s, e).1.reply.cookie, e.now, e.src))
  {
    hide RegMeet, RegStep, Spends, Evicts, SweptBy, Unexpired, InRoom;
    InRoomStep(cfg, s, e, e.room, e.src);
  }

  lemma InRoomReply(cfg: Config, s: State, room: Room, src: Addr, cookie: Cookie, now: nat)
    requires room in s.rooms
    ensures !CompleteInRoom(cfg, s, room, src, cookie, now).1.Challenge?
    ensures (InRoom(s, room, src).Some? && InRoom(s, room, src).value.cookie == cookie
            && !Expired(InRoom(s, room, src).value, now))
            ==> OnlyCaps(CompleteInRoom(cfg, s, room, src, cookie, now).1)
  {
    hide Swept, Unlinked, Without, Bucket, LinkedTo, Expired;
  }

  /** No challenge of the pair that would turn the cookie away waits in the global store, which is asked
      first: none at all, or a fresh one with this very cookie. */
  ghost predicate Unshadowed(s: State, room: Room, src: Addr, cookie: Cookie, now: nat) {
    || Global(s, room, src) == None
    || (Global(s, room, src).value.cookie == cookie && !Expired(Global(s, room, src).value, now))
  }

  /** With its entry alive in the room, a cookie is met by nothing but the rate limit, a cap or admission if and
      only if it is rate-limited or unshadowed. */
  lemma InRoomHonouredIff(cfg: Config, s: State, e: Event)
    requires |s.reg| == NUM_SHARDS && e.Reg? && e.cred.Presented? && InRoom(s, e.room, e.src).Some?
    requires InRoom(s, e.room, e.src).value.cookie == e.cred.cookie && !Expired(InRoom(s, e.room, e.src).value, e.now)
    ensures Step(cfg, s, e).1.Replied?
    ensures OnlyCaps(Step(cfg, s, e).1.reply) <==>
            RegLimited(cfg, s, e.src, e.now) || Unshadowed(s, e.room, e.src, e.cred.cookie, e.now)
  {
    hide RegMeet, CompleteGlobal, CompleteInRoom, Expired;
    var s1 := Metered(cfg, s, e.src, e.now);
    InRoomReply(cfg, s1, e.room, e.src, e.cred.cookie, e.now);
    if (e.room, e.src) in s.pending {
      CompleteCaps(cfg, DropPending(s1, e.room, e.src), e.room, e.src, s.pending[(e.room, e.src)].resolved, e.now);
    }
  }

  /** In any run: a challenge sent for an existing room, answered with its cookie while it is fresh and after no
      sweep took the room away, meets only admission, the rate limit or a cap if and only if it is rate-limited
      or unshadowed when it comes back. */
  lemma InRoomChallengeHonoured(cfg: Config, es: seq<Event>, e: Event, more: seq<Event>, back: Event)
    requires e.Reg? && e.room in Run(cfg, es).rooms && Step(cfg, Run(cfg, es), e).1.reply.Challenge?
    requires !EvictedIn(cfg, es + [e], more, e.room)
    requires forall x :: x in more ==> Silences(x, (e.room, e.src)) && Since(x.now, e.now) <= PENDING_REG_TTL
    requires back.Reg? && back.room == e.room && back.src == e.src && Since(back.now, e.now) <= PENDING_REG_TTL
    requires back.cred == Presented(Step(cfg, Run(cfg, es), e).1.reply.cookie)
    ensures var s := Run(cfg, es + [e] + more);
            OnlyCaps(Step(cfg, s, back).1.reply) <==>
            RegLimited(cfg, s, back.src, back.now) || Unshadowed(s, back.room, back.src, back.cred.cookie, back.now)
  {
    hide Step, Since, EvictedIn, DropsIn, InRoom, Silences, RegLimited, Unshadowed;
    assert (es + [e])[..|es|] == es;
    InRoomRecorded(cfg, Run(cfg, es), e);
    FreshDropsIff(cfg, es + [e], more, e.room, e.now);
    InRoomOutlivesIff(cfg, es + [e], more, e.room, e.src);
    InRoomHonouredIff(cfg, Run(cfg, es + [e] + more), back);
  }

  /** And if a sweep did take it away, no cookie admits the source, even if the room has been opened again,
      except that of a fresh challenge waiting in the global store. */
  lemma InRoomChallengeLost(cfg: Config, es: seq<Event>, e: Event, more: seq<Event>, back: Event)
    requires e.Reg? && e.room in Run(cfg, es).rooms && Step(cfg, Run(cfg, es), e).1.reply.Challenge?
    requires EvictedIn(cfg, es + [e], more, e.room)
    requires forall x :: x in more ==> Silences(x, (e.room, e.src)) && Since(x.now, e.now) <= PENDING_REG_TTL
    requires back.Reg? && back.room == e.room && back.src == e.src && back.cred.Presented?
    ensures var s := Run(cfg, es + [e] + more);
            Step(cfg, s, back).1 == Replied(Regd) ==>
              && Global(s, back.room, back.src).Some? && Global(s, back.room, back.src).value.cookie == back.cred.cookie
              && !Expired(Global(s, back.room, back.src).value, back.now)
  {
    assert (es + [e])[..|es|] == es;
    hide Step, Since, EvictedIn, DropsIn, Silences;
    InRoomRecorded(cfg, Run(cfg, es), e);
    FreshDropsIff(cfg, es + [e], more, e.room, e.now);
    InRoomOutlivesIff(cfg, es + [e], more, e.room, e.src);
    OnlyGlobalCompletes(cfg, Run(cfg, es + [e] + more), back);
  }

  lemma OnlyGlobalCompletes(cfg: Config, s: State, e: Event)
    requires |s.reg| == NUM_SHARDS && e.Reg? && e.cred.Presented? && InRoom(s, e.room, e.src) == None
    ensures Step(cfg, s, e).1 == Replied(Regd) ==>
              && Global(s, e.room, e.src).Some? && Global(s, e.room, e.src).value.cookie == e.cred.cookie
              && !Expired(Global(s, e.room, e.src).value, e.now)
  {
    hide Effect, Live, RegStep, Expired;
    RegStepEffect(cfg, s, e.room, e.cred, e.src, e.mint, e.now);
  }
}
