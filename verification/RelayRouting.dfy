/** Where messages go: to exactly the other clients of the room, and nothing but the sender's meter moves. */
module RelayRouting {
  import opened Net
  import opened Limiters
  import opened RelaySpec
  import opened RelayAdmission
  import opened RelayMembership
  import opened RelayRooms

  /** The meter of a client has no room left for a message. */
  ghost predicate Throttled(cfg: Config, c: Client, now: nat) {
    Meet(c.limiter, now, cfg.rateWindow, cfg.maxMsgRate).0
  }

  /** A message is routed if and only if its sender is a client whose meter lets it pass; then to every other client
      of the room and to nobody else. The other outcomes name the condition that fails. */
  lemma RoutedIff(cfg: Config, s: State, e: Event)
    requires |s.reg| == NUM_SHARDS && e.Msg?
    ensures var o := Step(cfg, s, e).1; var c := Record(s, e.room, e.src);
            && o.Forwarded?
            && (o.routing.Routed? <==> c.Some? && !Throttled(cfg, c.value, e.now))
            && (o.routing == Refused(MsgRateLimited) <==> c.Some? && Throttled(cfg, c.value, e.now))
            && (o.routing == Refused(NotAClient) <==> c.None? && Age(s, e.room).Some?)
            && (o.routing == Refused(UnknownRoom) <==> Age(s, e.room).None?)
            && (o.routing.Routed? ==> forall x :: x in o.routing.to <==> x != e.src && HasClient(s, e.room, x))
  {
    hide Meet;
  }

  /** Nothing in the state changes but the sender's meter. */
  lemma MessageFrame(cfg: Config, s: State, e: Event)
    requires |s.reg| == NUM_SHARDS && e.Msg?
    ensures var s' := Step(cfg, s, e).0;
            && s'.links == s.links && s'.pending == s.pending && s'.reg == s.reg && s'.rooms.Keys == s.rooms.Keys
            && (forall r :: r in s.rooms ==> s'.rooms[r].pending == s.rooms[r].pending && s'.rooms[r].t == s.rooms[r].t)
            && (forall r, a :: (r, a) != (e.room, e.src) ==> Record(s', r, a) == Record(s, r, a))
            && (Record(s', e.room, e.src).Some? <==> Record(s, e.room, e.src).Some?)
            && (Record(s, e.room, e.src).Some? ==>
                  var c := Record(s, e.room, e.src).value;
                  Record(s', e.room, e.src)
                    == Some(c.(limiter := Meet(c.limiter, e.now, cfg.rateWindow, cfg.maxMsgRate).1)))
  {
    hide Meet;
  }

  /** `a`'s last OK for room `r` in the run has not been followed by a sweep of the room later than the TTL. */
  ghost predicate Registered(cfg: Config, es: seq<Event>, r: Room, a: Addr) {
    exists j :: 0 <= j < |es| && Keeps(cfg, es, j, r, a)
  }

  /** The room was entered, and no sweep has found it abandoned since. */
  ghost predicate Standing(cfg: Config, es: seq<Event>, r: Room) {
    exists j :: 0 <= j < |es| && Stands(cfg, es, j, r)
  }

  /** Over every run, in terms of what the relay answered earlier in it: a message that is routed goes to exactly the
      others whose last OK still stands; it comes from a source whose last OK still stands, and the refusals tell an
      unregistered source and an unknown room apart. */
  lemma RoutedInRuns(cfg: Config, es: seq<Event>, i: nat)
    requires i < |es| && es[i].Msg?
    ensures OutcomeAt(cfg, es, i).Forwarded?
    ensures var out := OutcomeAt(cfg, es, i).routing; var Msg(room, src, _) := es[i]; var past := es[..i];
            && (out.Routed? || out == Refused(MsgRateLimited) <==> Registered(cfg, past, room, src))
            && (out == Refused(NotAClient) <==> Standing(cfg, past, room) && !Registered(cfg, past, room, src))
            && (out == Refused(UnknownRoom) <==> !Standing(cfg, past, room))
            && (out.Routed? ==> forall x :: x in out.to <==> x != src && Registered(cfg, past, room, x))
  {
    hide Step, Run, Keeps, Stands, Throttled;
    var past := es[..i];
    RoutedIff(cfg, Run(cfg, past), es[i]);
    RoomIff(cfg, past, es[i].room);
    forall x ensures HasClient(Run(cfg, past), es[i].room, x) <==> Registered(cfg, past, es[i].room, x) {
      MemberIff(cfg, past, es[i].room, x);
    }
  }
}
