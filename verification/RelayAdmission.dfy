/** Who may become a client: what one step can add, and what a whole run must contain. */
module RelayAdmission {
  import opened Net
  import opened Limiters
  import opened RelaySpec

  // ---- the parts of a state a step may touch ----

  ghost predicate HasClient(s: State, r: Room, a: Addr) { r in s.rooms && a in s.rooms[r].clients }

  /** The pending registration of `a` inside room `r`. */
  ghost function InRoom(s: State, r: Room, a: Addr): Option<PendingReg> {
    if r in s.rooms && a in s.rooms[r].pending then Some(s.rooms[r].pending[a]) else None
  }

  /** The pending registration of `a` for the (not yet existing) room `r`. */
  ghost function Global(s: State, r: Room, a: Addr): Option<PendingReg> {
    if (r, a) in s.pending then Some(s.pending[(r, a)]) else None
  }

  /** A challenge store entry that is new in `s'` is the one the reply announces. */
  ghost predicate Explained(now: Option<PendingReg>, before: Option<PendingReg>, mine: bool, reply: Reply, src: Addr,
                            t: nat) {
    now == None || now == before || (mine && reply.Challenge? && now == Some(PendingReg(reply.cookie, t, src)))
  }

  /** Everything a REG from `src` for `room`, answered by `reply`, may have added. */
  ghost predicate Effect(s: State, s': State, room: Room, src: Addr, reply: Reply, t: nat) {
    && (forall r :: r in s'.rooms ==> r in s.rooms || (r == room && reply == Regd))
    && (forall r, a :: HasClient(s', r, a) ==> HasClient(s, r, a) || (r == room && a == src && reply == Regd))
    && (forall r, a :: Explained(InRoom(s', r, a), InRoom(s, r, a), r == room && a == src, reply, src, t))
    && (forall r, a :: Explained(Global(s', r, a), Global(s, r, a), r == room && a == src, reply, src, t))
  }

  /** Nothing was added. */
  ghost predicate Shrinks(s: State, s': State) {
    && (forall r :: r in s'.rooms ==> r in s.rooms)
    && (forall r, a :: HasClient(s', r, a) ==> HasClient(s, r, a))
    && (forall r, a :: InRoom(s', r, a) == None || InRoom(s', r, a) == InRoom(s, r, a))
    && (forall r, a :: Global(s', r, a) == None || Global(s', r, a) == Global(s, r, a))
  }

  lemma ShrinksIsEffect(s: State, s': State, room: Room, src: Addr, reply: Reply, t: nat)
    requires Shrinks(s, s')
    ensures Effect(s, s', room, src, reply, t)
  {
  }

  lemma ShrinkThenEffect(s: State, s1: State, s2: State, room: Room, src: Addr, reply: Reply, t: nat)
    requires Shrinks(s, s1) && Effect(s1, s2, room, src, reply, t)
    ensures Effect(s, s2, room, src, reply, t)
  {
  }

  lemma ShrinksTwice(s: State, s1: State, s2: State)
    requires Shrinks(s, s1) && Shrinks(s1, s2)
    ensures Shrinks(s, s2)
  {
  }

  lemma SweepAllShrinks(cfg: Config, s: State, now: nat)
    ensures Shrinks(s, SweepAll(cfg, s, now))
  {
  }

  lemma SweepRoomShrinks(cfg: Config, s: State, r: Room, now: nat)
    requires r in s.rooms
    ensures Shrinks(s, SweepRoom(cfg, s, r, now)) && r in SweepRoom(cfg, s, r, now).rooms
  {
  }

  lemma DropPendingShrinks(s: State, r: Room, a: Addr)
    ensures Shrinks(s, DropPending(s, r, a))
  {
  }

  lemma DropRoomPendingShrinks(s: State, r: Room, a: Addr)
    requires r in s.rooms
    ensures Shrinks(s, DropRoomPending(s, r, a)) && r in DropRoomPending(s, r, a).rooms
  {
  }

  lemma AdmitEffect(cfg: Config, s: State, room: Room, src: Addr, resolved: Addr, now: nat)
    requires room in s.rooms
    ensures Effect(s, Admit(cfg, s, room, src, resolved, now), room, src, Regd, now)
  {
    var s' := Admit(cfg, s, room, src, resolved, now);
    assert forall r, a :: InRoom(s', r, a) == InRoom(s, r, a);
    assert forall r, a :: Global(s', r, a) == Global(s, r, a);
  }

  lemma CreateEffect(cfg: Config, s: State, room: Room, src: Addr, resolved: Addr, now: nat)
    requires room !in s.rooms
    ensures Effect(s, Admit(cfg, s.(rooms := s.rooms[room := RoomView(map[], map[], now)]), room, src, resolved, now),
                   room, src, Regd, now)
  {
    var s' := Admit(cfg, s.(rooms := s.rooms[room := RoomView(map[], map[], now)]), room, src, resolved, now);
    assert forall r, a :: InRoom(s', r, a) == InRoom(s, r, a);
    assert forall r, a :: Global(s', r, a) == Global(s, r, a);
  }

  lemma IssueEffect(cfg: Config, s: State, room: Room, src: Addr, mint: Cookie, now: nat)
    ensures var (s', reply) := Issue(cfg, s, room, src, mint, now);
            && reply != Regd && Effect(s, s', room, src, reply, now)
            && Live(s', room, src) <= Live(s, room, src) + if reply.Challenge? then 1 else 0
  {
  }

  lemma SetRoomPendingEffect(s: State, room: Room, src: Addr, cookie: Cookie, now: nat)
    requires room in s.rooms
    ensures Effect(s, SetRoomPending(s, room, src, Fresh(src, cookie, now)), room, src, Challenge(cookie), now)
  {
    var s' := SetRoomPending(s, room, src, Fresh(src, cookie, now));
    assert forall r, a :: Global(s', r, a) == Global(s, r, a);
  }

  lemma TouchEffect(s: State, room: Room, src: Addr, now: nat)
    requires HasClient(s, room, src)
    ensures Shrinks(s, Touch(s, room, src, now))
  {
  }

  lemma CompleteGlobalEffect(cfg: Config, s0: State, room: Room, src: Addr, resolved: Addr, now: nat)
    ensures var (s', reply) := CompleteGlobal(cfg, s0, room, src, resolved, now);
            !reply.Challenge? && Effect(s0, s', room, src, reply, now)
            && forall r, a :: Global(s', r, a) == Global(s0, r, a)
  {
    hide Effect, Shrinks, Refusal;
    var (s', reply) := CompleteGlobal(cfg, s0, room, src, resolved, now);
    var s := if |s0.rooms| >= cfg.maxRooms then SweepAll(cfg, s0, now) else s0;
    ShrinkRefl(s0);
    SweepAllShrinks(cfg, s0, now);
    if room !in s.rooms {
      CreateEffect(cfg, s, room, src, resolved, now);
      var s1 := s.(rooms := s.rooms[room := RoomView(map[], map[], now)]);
      ShrinkThenEffect(s0, s, Admit(cfg, s1, room, src, resolved, now), room, src, Regd, now);
      ShrinksIsEffect(s0, s, room, src, reply, now);
    } else {
      var s1 := SweepRoom(cfg, s, room, now);
      SweepRoomShrinks(cfg, s, room, now);
      ShrinksTwice(s0, s, s1);
      ShrinksIsEffect(s0, s1, room, src, reply, now);
      AdmitEffect(cfg, s1, room, src, resolved, now);
      ShrinkThenEffect(s0, s1, Admit(cfg, s1, room, src, resolved, now), room, src, Regd, now);
    }
  }

  lemma ShrinkRefl(s: State)
    ensures Shrinks(s, s)
  {
  }

  /** The challenge a presented cookie completes: unexpired, and either the global entry or, when
      there is none, the one inside the room. */
  ghost predicate Completes(s: State, room: Room, src: Addr, cookie: Cookie, now: nat) {
    match Global(s, room, src)
    case Some(p) => p.cookie == cookie && !Expired(p, now)
    case None =>
      match InRoom(s, room, src)
      case Some(p) => p.cookie == cookie && !Expired(p, now)
      case None => false
  }

  ghost function Live(s: State, r: Room, a: Addr): nat {
    (if Global(s, r, a).Some? then 1 else 0) + (if InRoom(s, r, a).Some? then 1 else 0)
  }

  lemma CompleteInRoomEffect(cfg: Config, s: State, room: Room, src: Addr, cookie: Cookie, now: nat)
    requires room in s.rooms && Global(s, room, src) == None
    ensures var (s', reply) := CompleteInRoom(cfg, s, room, src, cookie, now);
            && !reply.Challenge? && Effect(s, s', room, src, reply, now)
            && (reply == Regd ==> Completes(s, room, src, cookie, now) && Live(s', room, src) == 0)
  {
    hide Effect, Shrinks, Refusal;
    var (s', reply) := CompleteInRoom(cfg, s, room, src, cookie, now);
    ShrinkRefl(s);
    ShrinksIsEffect(s, s, room, src, reply, now);
    DropRoomPendingShrinks(s, room, src);
    ShrinksIsEffect(s, DropRoomPending(s, room, src), room, src, reply, now);
    var s1 := SweepRoom(cfg, s, room, now);
    SweepRoomShrinks(cfg, s, room, now);
    ShrinksIsEffect(s, s1, room, src, reply, now);
    var s2 := DropRoomPending(s1, room, src);
    DropRoomPendingShrinks(s1, room, src);
    ShrinksTwice(s, s1, s2);
    if reply == Regd {
      var p := s.rooms[room].pending[src];
      AdmitEffect(cfg, s2, room, src, p.resolved, now);
      ShrinkThenEffect(s, s2, s', room, src, Regd, now);
    }
  }

  lemma CookieRegEffect(cfg: Config, s: State, room: Room, src: Addr, cookie: Cookie, mint: Cookie, now: nat)
    ensures var (s', reply) := CookieReg(cfg, s, room, src, cookie, mint, now);
            && Effect(s, s', room, src, reply, now)
            && (reply == Regd ==> Completes(s, room, src, cookie, now) && Live(s', room, src) < Live(s, room, src))
            && Live(s', room, src) <= Live(s, room, src) + if reply.Challenge? then 1 else 0
  {
    hide Effect, Shrinks, CompleteGlobal, CompleteInRoom;
    var (s', reply) := CookieReg(cfg, s, room, src, cookie, mint, now);
    ShrinkRefl(s);
    ShrinksIsEffect(s, s, room, src, reply, now);
    if (room, src) in s.pending {
      var s1 := DropPending(s, room, src);
      DropPendingShrinks(s, room, src);
      ShrinksIsEffect(s, s1, room, src, reply, now);
      var p := s.pending[(room, src)];
      CompleteGlobalEffect(cfg, s1, room, src, p.resolved, now);
      if p.cookie == cookie && !Expired(p, now) {
        ShrinkThenEffect(s, s1, s', room, src, reply, now);
        EffectLive(s1, s', room, src, reply, now);
      }
    } else if room !in s.rooms {
      IssueEffect(cfg, s, room, src, mint, now);
    } else {
      CompleteInRoomEffect(cfg, s, room, src, cookie, now);
      EffectLive(s, s', room, src, reply, now);
    }
  }

  /** Only the challenged pair may gain an entry. */
  lemma EffectLive(s: State, s': State, room: Room, src: Addr, reply: Reply, t: nat)
    requires Effect(s, s', room, src, reply, t)
    ensures forall r, a :: !(r == room && a == src && reply.Challenge?) ==> Live(s', r, a) <= Live(s, r, a)
  {
  }

  lemma ShrinksLive(s: State, s': State)
    requires Shrinks(s, s')
    ensures forall r, a :: Live(s', r, a) <= Live(s, r, a)
  {
  }

  lemma KnockEffect(cfg: Config, s: State, room: Room, src: Addr, mint: Cookie, now: nat)
    requires room in s.rooms
    ensures var (s', reply) := Knock(cfg, s, room, src, mint, now);
            && Effect(s, s', room, src, reply, now)
            && (reply == Regd ==> HasClient(s, room, src))
            && Live(s', room, src) <= Live(s, room, src) + if reply.Challenge? then 1 else 0
  {
    hide Effect, Shrinks;
    var (s', reply) := Knock(cfg, s, room, src, mint, now);
    if reply.Challenge? {
      SetRoomPendingEffect(s, room, src, reply.cookie, now);
    } else {
      ShrinkRefl(s);
      if reply == Regd { TouchEffect(s, room, src, now); }
      ShrinksIsEffect(s, s', room, src, reply, now);
      ShrinksLive(s, s');
    }
  }

  lemma PlainRegEffect(cfg: Config, s: State, room: Room, src: Addr, mint: Cookie, now: nat)
    ensures var (s', reply) := PlainReg(cfg, s, room, src, mint, now);
            && Effect(s, s', room, src, reply, now)
            && (reply == Regd ==> HasClient(s, room, src))
            && Live(s', room, src) <= Live(s, room, src) + if reply.Challenge? then 1 else 0
  {
    hide Effect, Issue, SweepRoom, Knock, Live;
    var (s', reply) := PlainReg(cfg, s, room, src, mint, now);
    ShrinkRefl(s);
    ShrinksIsEffect(s, s, room, src, reply, now);
    if room !in s.rooms {
      IssueEffect(cfg, s, room, src, mint, now);
    } else {
      var s1 := SweepRoom(cfg, s, room, now);
      SweepRoomShrinks(cfg, s, room, now);
      ShrinksLive(s, s1);
      KnockEffect(cfg, s1, room, src, mint, now);
      var (s2, reply2) := Knock(cfg, s1, room, src, mint, now);
      ShrinkThenEffect(s, s1, s2, room, src, reply2, now);
    }
  }

  // ---- one step ----

  ghost predicate Admits(e: Event, o: Outcome, r: Room, a: Addr) {
    e.Reg? && e.room == r && e.src == a && e.cred.Presented? && o == Replied(Regd)
  }

  ghost predicate Challenges(e: Event, o: Outcome, r: Room, a: Addr, cookie: Cookie) {
    e.Reg? && e.room == r && e.src == a && o == Replied(Challenge(cookie))
  }

  ghost predicate SomeChallenge(e: Event, o: Outcome, r: Room, a: Addr) {
    e.Reg? && e.room == r && e.src == a && o.Replied? && o.reply.Challenge?
  }

  lemma QuietStep(cfg: Config, s: State, e: Event)
    requires |s.reg| == NUM_SHARDS && !e.Reg?
    ensures Shrinks(s, Step(cfg, s, e).0)
  {
    match e
    case Msg(room, src, now) =>
      var s' := MsgStep(cfg, s, room, src, now).0;
      assert forall r, a :: Global(s', r, a) == Global(s, r, a);
    case Sweep(now) =>
      SweepAllShrinks(cfg, s, now);
    case RateCleanup(_) =>
      ShrinkRefl(s);
  }

  /** A REG step, seen from the outside. */
  lemma RegStepEffect(cfg: Config, s: State, room: Room, cred: Credential, src: Addr, mint: Cookie, now: nat)
    requires |s.reg| == NUM_SHARDS
    ensures var (s', reply) := RegStep(cfg, s, room, cred, src, mint, now);
            && Effect(s, s', room, src, reply, now)
            && (reply == Regd && cred.Presented?
                ==> Completes(s, room, src, cred.cookie, now) && Live(s', room, src) < Live(s, room, src))
            && (reply == Regd && !cred.Presented? ==> HasClient(s, room, src))
            && Live(s', room, src) <= Live(s, room, src) + if reply.Challenge? then 1 else 0
  {
    hide Effect, Shrinks, PlainReg, CookieReg;
    var ip := cfg.ipKey(src);
    var i := cfg.regShard(ip);
    var s1 := s.(reg := s.reg[i := RegMeet(s.reg[i], ip, now, cfg.rateWindow, cfg.maxRegRate).1]);
    var (s', reply) := RegStep(cfg, s, room, cred, src, mint, now);
    ShrinkReg(s, s1);
    ShrinksIsEffect(s, s1, room, src, reply, now);
    PlainRegEffect(cfg, s1, room, src, mint, now);
    if cred.Presented? { CookieRegEffect(cfg, s1, room, src, cred.cookie, mint, now); }
    if s' != s1 { ShrinkThenEffect(s, s1, s', room, src, reply, now); }
  }

  lemma ShrinkReg(s: State, s1: State)
    requires s1 == s.(reg := s1.reg)
    ensures Shrinks(s, s1)
    ensures forall r, a :: Live(s1, r, a) == Live(s, r, a) && HasClient(s1, r, a) == HasClient(s, r, a)
    ensures forall r, a :: Global(s1, r, a) == Global(s, r, a) && InRoom(s1, r, a) == InRoom(s, r, a)
  {
  }

  /** A source that was not a client becomes one only by completing a live, unexpired challenge of
      its own. */
  lemma Newcomer(cfg: Config, s: State, e: Event, r: Room, a: Addr)
    requires |s.reg| == NUM_SHARDS
    ensures var (s', o) := Step(cfg, s, e);
            HasClient(s', r, a) && !HasClient(s, r, a) ==>
              Admits(e, o, r, a) && Completes(s, r, a, e.cred.cookie, e.now)
  {
    hide Completes, Live;
    match e
    case Reg(room, cred, src, mint, now) => RegStepEffect(cfg, s, room, cred, src, mint, now);
    case _ => QuietStep(cfg, s, e);
  }

  lemma NewRoom(cfg: Config, s: State, e: Event, r: Room)
    requires |s.reg| == NUM_SHARDS
    ensures var (s', o) := Step(cfg, s, e);
            r in s'.rooms && r !in s.rooms ==> e.Reg? && Admits(e, o, r, e.src)
  {
    hide Completes, Live;
    match e
    case Reg(room, cred, src, mint, now) => RegStepEffect(cfg, s, room, cred, src, mint, now);
    case _ => QuietStep(cfg, s, e);
  }

  /** Every store entry after a step was there before, or is the one this step's challenge created. */
  lemma EntryOrigin(cfg: Config, s: State, e: Event, r: Room, a: Addr)
    requires |s.reg| == NUM_SHARDS
    ensures var (s', o) := Step(cfg, s, e);
            forall p :: p == Global(s', r, a) || p == InRoom(s', r, a) ==>
              p == None || p == Global(s, r, a) || p == InRoom(s, r, a)
                  || (p.value.createdAt == e.now && Challenges(e, o, r, a, p.value.cookie))
  {
    hide Completes, Live;
    match e
    case Reg(room, cred, src, mint, now) => RegStepEffect(cfg, s, room, cred, src, mint, now);
    case _ => QuietStep(cfg, s, e);
  }

  /** Admissions are paid for by entries, entries by challenges. */
  lemma EntryBudget(cfg: Config, s: State, e: Event, r: Room, a: Addr)
    requires |s.reg| == NUM_SHARDS
    ensures var (s', o) := Step(cfg, s, e);
            Live(s', r, a) + (if Admits(e, o, r, a) then 1 else 0)
                <= Live(s, r, a) + (if SomeChallenge(e, o, r, a) then 1 else 0)
  {
    match e
    case Reg(room, cred, src, mint, now) =>
      RegStepEffect(cfg, s, room, cred, src, mint, now);
      var (s', reply) := RegStep(cfg, s, room, cred, src, mint, now);
      EffectLive(s, s', room, src, reply, now);
    case _ =>
      QuietStep(cfg, s, e);
      ShrinksLive(s, Step(cfg, s, e).0);
  }

  // ---- whole runs ----

  /** Step `i` of the run challenged `a` for room `r` with `cookie`. */
  ghost predicate ChallengedAt(cfg: Config, es: seq<Event>, i: nat, r: Room, a: Addr, cookie: Cookie) {
    i < |es| && Challenges(es[i], OutcomeAt(cfg, es, i), r, a, cookie)
  }

  lemma PrefixOutcome(cfg: Config, es: seq<Event>, n: nat, i: nat)
    requires i < n <= |es|
    ensures OutcomeAt(cfg, es[..n], i) == OutcomeAt(cfg, es, i)
  {
    assert es[..n][..i] == es[..i];
  }

  /** Every entry of either store goes back to a challenge sent at its time stamp. */
  lemma {:induction false} EntryWasChallenged(cfg: Config, es: seq<Event>, r: Room, a: Addr, p: PendingReg)
    returns (i: nat)
    requires var s := Run(cfg, es); Global(s, r, a) == Some(p) || InRoom(s, r, a) == Some(p)
    ensures ChallengedAt(cfg, es, i, r, a, p.cookie) && es[i].now == p.createdAt
    decreases |es|
  {
    hide Step;
    if es == [] {
      assert false;
    } else {
      var n := |es| - 1;
      var init := es[..n];
      var s := Run(cfg, init);
      EntryOrigin(cfg, s, es[n], r, a);
      if Global(s, r, a) == Some(p) || InRoom(s, r, a) == Some(p) {
        i := EntryWasChallenged(cfg, init, r, a, p);
        PrefixOutcome(cfg, es, n, i);
      } else {
        i := n;
      }
    }
  }

  /** Admission safety: whoever becomes a client of a room at step `j` was sent, at an earlier step
      `i`, the very cookie it presents now, no more than five seconds before. */
  lemma {:induction false} AdmissionSafety(cfg: Config, es: seq<Event>, j: nat, r: Room, a: Addr) returns (i: nat)
    requires j < |es| && HasClient(Run(cfg, es[..j+1]), r, a) && !HasClient(Run(cfg, es[..j]), r, a)
    ensures Admits(es[j], OutcomeAt(cfg, es, j), r, a)
    ensures i < j && ChallengedAt(cfg, es, i, r, a, es[j].cred.cookie)
    ensures es[j].now <= es[i].now + PENDING_REG_TTL
  {
    var s := Run(cfg, es[..j]);
    assert es[..j+1][..j] == es[..j];
    assert Run(cfg, es[..j+1]) == Step(cfg, s, es[j]).0;
    hide Step;
    Newcomer(cfg, s, es[j], r, a);
    var p := if Global(s, r, a).Some? then Global(s, r, a).value else InRoom(s, r, a).value;
    i := EntryWasChallenged(cfg, es[..j], r, a, p);
    PrefixOutcome(cfg, es, j, i);
  }

  /** A room comes into being only in a step that completes a challenge. */
  lemma {:induction false} RoomsBornByCookie(cfg: Config, es: seq<Event>, j: nat, r: Room)
    requires j < |es| && r in Run(cfg, es[..j+1]).rooms && r !in Run(cfg, es[..j]).rooms
    ensures es[j].Reg? && Admits(es[j], OutcomeAt(cfg, es, j), r, es[j].src)
  {
    assert es[..j+1][..j] == es[..j];
    assert Run(cfg, es[..j+1]) == Step(cfg, Run(cfg, es[..j]), es[j]).0;
    hide Step;
    NewRoom(cfg, Run(cfg, es[..j]), es[j], r);
  }

  ghost function Admissions(cfg: Config, es: seq<Event>, r: Room, a: Addr): nat {
    if es == [] then 0
    else
      var n := |es| - 1;
      Admissions(cfg, es[..n], r, a) + if Admits(es[n], OutcomeAt(cfg, es, n), r, a) then 1 else 0
  }

  ghost function ChallengesSent(cfg: Config, es: seq<Event>, r: Room, a: Addr): nat {
    if es == [] then 0
    else
      var n := |es| - 1;
      ChallengesSent(cfg, es[..n], r, a) + if SomeChallenge(es[n], OutcomeAt(cfg, es, n), r, a) then 1 else 0
  }

  /** The steps at which a pending entry of the pair comes into being: the next step leaves more of them than
      it found. A challenge that is sent again for an entry already there creates none. */
  ghost function Created(cfg: Config, es: seq<Event>, r: Room, a: Addr): nat {
    if es == [] then 0
    else
      var n := |es| - 1;
      Created(cfg, es[..n], r, a) + if Live(Run(cfg, es), r, a) > Live(Run(cfg, es[..n]), r, a) then 1 else 0
  }

  /** An admission uses up an entry. */
  lemma AdmissionSpends(cfg: Config, s: State, e: Event, r: Room, a: Addr)
    requires |s.reg| == NUM_SHARDS
    ensures var (s', o) := Step(cfg, s, e);
            && Live(s', r, a) <= Live(s, r, a) + 1
            && (Admits(e, o, r, a) ==> Live(s', r, a) < Live(s, r, a))
            && (Live(s', r, a) > Live(s, r, a) ==> SomeChallenge(e, o, r, a))
  {
    hide Step, Live;
    EntryBudget(cfg, s, e, r, a);
  }

  /** Conservation: admissions so far plus entries still live never exceed the entries created, so each
      entry yields at most one admission, however often its challenge was repeated; and every entry was
      created by a challenge. */
  lemma {:induction false} EntriesConserved(cfg: Config, es: seq<Event>, r: Room, a: Addr)
    ensures Admissions(cfg, es, r, a) + Live(Run(cfg, es), r, a)
            <= Created(cfg, es, r, a) <= ChallengesSent(cfg, es, r, a)
    decreases |es|
  {
    if es != [] {
      hide Step, Live;
      var n := |es| - 1;
      EntriesConserved(cfg, es[..n], r, a);
      AdmissionSpends(cfg, Run(cfg, es[..n]), es[n], r, a);
    } else {
      assert Live(Run(cfg, es), r, a) == 0;
    }
  }
}
