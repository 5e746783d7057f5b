/** Which rooms exist after a run: exactly those somebody was last let into and no sweep has found abandoned since. */
module RelayRooms {
  import opened Net
  import opened Limiters
  import opened RelaySpec
  import opened RelayIndex
  import opened RelayAdmission
  import opened RelayLiveness
  import opened RelayInRoom

  /** When somebody was last let into room `r`. */
  ghost function Age(s: State, r: Room): Option<nat> { if r in s.rooms then Some(s.rooms[r].t) else None }

  // ---- the parts of a step ----

  lemma SweepAllAge(cfg: Config, s: State, now: nat, r: Room)
    ensures Age(SweepAll(cfg, s, now), r)
         == if r in s.rooms && Abandoned(cfg, s.rooms[r], now) then None else Age(s, r)
  {
    hide SweptLinks, Survives, Abandoned;
    if r in s.rooms { SurvivesIff(cfg, s.rooms[r], now); }
  }

  lemma SweepRoomAge(cfg: Config, s: State, room: Room, now: nat, r: Room)
    requires room in s.rooms
    ensures Age(SweepRoom(cfg, s, room, now), r) == Age(s, r)
  {
  }

  lemma AdmitAge(cfg: Config, s: State, room: Room, src: Addr, resolved: Addr, now: nat, r: Room)
    requires room in s.rooms
    ensures Age(Admit(cfg, s, room, src, resolved, now), r) == if r == room then Some(now) else Age(s, r)
  {
  }

  lemma SameAge(s: State, room: Room, v: RoomView, r: Room)
    requires room in s.rooms && v.t == s.rooms[room].t
    ensures Age(s.(rooms := s.rooms[room := v]), r) == Age(s, r)
  {
  }

  lemma CompleteGlobalAge(cfg: Config, s: State, room: Room, src: Addr, resolved: Addr, now: nat, r: Room)
    ensures var (s', reply) := CompleteGlobal(cfg, s, room, src, resolved, now);
            Age(s', r) == if reply == Regd && r == room then Some(now)
                          else if |s.rooms| >= cfg.maxRooms && r in s.rooms && Abandoned(cfg, s.rooms[r], now) then None
                          else Age(s, r)
  {
    hide SweepAll, SweepRoom, Admit, Refusal, LinkedTo, Abandoned;
    var s1 := if |s.rooms| >= cfg.maxRooms then SweepAll(cfg, s, now) else s;
    SweepAllAge(cfg, s, now, r);
    if room !in s1.rooms {
      AdmitAge(cfg, s1.(rooms := s1.rooms[room := RoomView(map[], map[], now)]), room, src, resolved, now, r);
    } else {
      SweepRoomAge(cfg, s1, room, now, r);
      StillThere(cfg, s1, room, now);
      AdmitAge(cfg, SweepRoom(cfg, s1, room, now), room, src, resolved, now, r);
    }
  }

  lemma CompleteInRoomAge(cfg: Config, s: State, room: Room, src: Addr, cookie: Cookie, now: nat, r: Room)
    requires room in s.rooms
    ensures var (s', reply) := CompleteInRoom(cfg, s, room, src, cookie, now);
            Age(s', r) == if reply == Regd && r == room then Some(now) else Age(s, r)
  {
    hide SweepRoom, Admit, Refusal, Age, Expired;
    SweepRoomAge(cfg, s, room, now, r);
    StillThere(cfg, s, room, now);
    var s1 := SweepRoom(cfg, s, room, now);
    SameAge(s, room, s.rooms[room].(pending := s.rooms[room].pending - {src}), r);
    SameAge(s1, room, s1.rooms[room].(pending := s1.rooms[room].pending - {src}), r);
    if src in s.rooms[room].pending {
      AdmitAge(cfg, DropRoomPending(s1, room, src), room, src, s.rooms[room].pending[src].resolved, now, r);
    }
  }

  lemma KnockAge(cfg: Config, s: State, room: Room, src: Addr, mint: Cookie, now: nat, r: Room)
    requires room in s.rooms
    ensures Age(Knock(cfg, s, room, src, mint, now).0, r) == Age(s, r)
  {
    hide PendingFrom, Bucket;
  }

  lemma PlainRegAge(cfg: Config, s: State, room: Room, src: Addr, mint: Cookie, now: nat, r: Room)
    ensures Age(PlainReg(cfg, s, room, src, mint, now).0, r) == Age(s, r)
  {
    hide SweepRoom, Knock, LinkedTo, PendingFrom;
    if room in s.rooms {
      SweepRoomAge(cfg, s, room, now, r);
      StillThere(cfg, s, room, now);
      KnockAge(cfg, SweepRoom(cfg, s, room, now), room, src, mint, now, r);
    }
  }

  lemma CookieRegAge(cfg: Config, s: State, room: Room, src: Addr, cookie: Cookie, mint: Cookie, now: nat, r: Room)
    ensures var (s', reply) := CookieReg(cfg, s, room, src, cookie, mint, now);
            var p := Global(s, room, src);
            var sweeps := p.Some? && p.value.cookie == cookie && !Expired(p.value, now) && |s.rooms| >= cfg.maxRooms;
            Age(s', r) == if reply == Regd && r == room then Some(now)
                          else if sweeps && r in s.rooms && Abandoned(cfg, s.rooms[r], now) then None
                          else Age(s, r)
  {
    hide CompleteGlobal, CompleteInRoom, Expired, LinkedTo, PendingFrom, Abandoned;
    if (room, src) in s.pending {
      CompleteGlobalAge(cfg, DropPending(s, room, src), room, src, s.pending[(room, src)].resolved, now, r);
    } else if room in s.rooms {
      CompleteInRoomAge(cfg, s, room, src, cookie, now, r);
    }
  }

  // ---- the law of one step ----

  /** Somebody is let into room `r` with a cookie. */
  ghost predicate Enters(e: Event, o: Outcome, r: Room) { e.Reg? && Admits(e, o, r, e.src) }

  /** Exactly what a step does to a room: a cookie that is let in opens it or marks it used, a sweep of all rooms that
      finds it abandoned takes it away, and nothing else does either. */
  lemma RoomStep(cfg: Config, s: State, e: Event, r: Room)
    requires |s.reg| == NUM_SHARDS
    ensures var (s', o) := Step(cfg, s, e);
            Age(s', r) == if Enters(e, o, r) then Some(e.now) else if Evicts(cfg, s, e, r) then None else Age(s, r)
  {
    match e
    case Reg(_, _, _, _, _) => RegAge(cfg, s, e, r);
    case Msg(_, _, _) => hide Meet;
    case Sweep(now) =>
      hide SweepAll, Abandoned;
      SweepAllAge(cfg, s, now, r);
    case RateCleanup(_) => hide SweptShards;
  }

  lemma RegAge(cfg: Config, s: State, e: Event, r: Room)
    requires |s.reg| == NUM_SHARDS && e.Reg?
    ensures var (s', o) := Step(cfg, s, e);
            Age(s', r) == if Enters(e, o, r) then Some(e.now) else if Evicts(cfg, s, e, r) then None else Age(s, r)
  {
    hide RegMeet, PlainReg, CookieReg, Expired, Abandoned;
    var s1 := Metered(cfg, s, e.src, e.now);
    if e.cred.Presented? {
      CookieRegAge(cfg, s1, e.room, e.src, e.cred.cookie, e.mint, e.now, r);
    } else {
      PlainRegAge(cfg, s1, e.room, e.src, e.mint, e.now, r);
    }
  }

  // ---- whole runs ----

  ghost predicate EntersAt(cfg: Config, es: seq<Event>, i: nat, r: Room)
    requires i < |es|
  {
    Enters(es[i], OutcomeAt(cfg, es, i), r)
  }

  ghost predicate EvictsAt(cfg: Config, es: seq<Event>, i: nat, r: Room)
    requires i < |es|
  {
    Evicts(cfg, Run(cfg, es[..i]), es[i], r)
  }

  /** Somebody was let into the room at step `i`, nobody since, and no sweep has found it abandoned since. */
  ghost predicate Stands(cfg: Config, es: seq<Event>, i: nat, r: Room)
    requires i < |es|
  {
    EntersAt(cfg, es, i, r) && forall j :: i < j < |es| ==> !EntersAt(cfg, es, j, r) && !EvictsAt(cfg, es, j, r)
  }

  lemma PrefixStands(cfg: Config, es: seq<Event>, n: nat, i: nat, r: Room)
    requires i < n <= |es|
    ensures EntersAt(cfg, es[..n], i, r) == EntersAt(cfg, es, i, r)
    ensures EvictsAt(cfg, es[..n], i, r) == EvictsAt(cfg, es, i, r)
  {
    hide Run, Step, Enters, Evicts;
    assert es[..n][..i] == es[..i];
  }

  lemma StandsSnoc(cfg: Config, es: seq<Event>, i: nat, r: Room)
    requires i < |es|
    ensures var n := |es| - 1;
            Stands(cfg, es, i, r) <==>
            if i == n then EntersAt(cfg, es, n, r)
            else Stands(cfg, es[..n], i, r) && !EntersAt(cfg, es, n, r) && !EvictsAt(cfg, es, n, r)
  {
    hide EntersAt, EvictsAt;
    var n := |es| - 1;
    forall j | 0 <= j < n
      ensures EntersAt(cfg, es[..n], j, r) == EntersAt(cfg, es, j, r)
      ensures EvictsAt(cfg, es[..n], j, r) == EvictsAt(cfg, es, j, r)
    {
      PrefixStands(cfg, es, n, j, r);
    }
  }

  /** Over every run: a room exists if and only if somebody was let into it and no later sweep of all rooms found it
      abandoned, and its mark is the time somebody was last let in. */
  lemma {:induction false} RoomIff(cfg: Config, es: seq<Event>, r: Room)
    ensures forall i :: 0 <= i < |es| && Stands(cfg, es, i, r) ==> Age(Run(cfg, es), r) == Some(es[i].now)
    ensures Age(Run(cfg, es), r).Some? ==> exists i :: 0 <= i < |es| && Stands(cfg, es, i, r)
    decreases |es|
  {
    hide Step, Stands, EntersAt, EvictsAt, Age;
    if es == [] {
      NoRoomYet(cfg, r);
    } else {
      var n := |es| - 1;
      RoomIff(cfg, es[..n], r);
      AgeAt(cfg, es, r);
      forall i | 0 <= i < |es| && Stands(cfg, es, i, r) ensures Age(Run(cfg, es), r) == Some(es[i].now) {
        StandsSnoc(cfg, es, i, r);
      }
      if Age(Run(cfg, es), r).Some? {
        StandsSnoc(cfg, es, n, r);
        if !EntersAt(cfg, es, n, r) {
          var i :| 0 <= i < n && Stands(cfg, es[..n], i, r);
          StandsSnoc(cfg, es, i, r);
        }
      }
    }
  }

  lemma NoRoomYet(cfg: Config, r: Room)
    ensures Age(Run(cfg, []), r) == None
  {
  }

  lemma AgeAt(cfg: Config, es: seq<Event>, r: Room)
    requires es != []
    ensures var n := |es| - 1; var before := Age(Run(cfg, es[..n]), r);
            Age(Run(cfg, es), r) == if EntersAt(cfg, es, n, r) then Some(es[n].now)
                                    else if EvictsAt(cfg, es, n, r) then None
                                    else before
  {
    hide Step, Age, Enters, Evicts;
    var n := |es| - 1;
    RoomStep(cfg, Run(cfg, es[..n]), es[n], r);
  }
}
