/** The rate limits over whole runs of the relay: how often a host is heard and a client's messages are routed, and
    that nobody below the limit is held up. */
module RelayRates {
  import opened Net
  import opened Limiters
  import opened RelaySpec
  import opened RelayIndex
  import opened RelayAdmission
  import opened RelayLiveness
  import opened RelayMembership
  import opened RelayRouting

  /** The clock never runs backwards. */
  ghost predicate Clocked(es: seq<Event>) { forall i, j :: 0 <= i <= j < |es| ==> es[i].now <= es[j].now }

  // ---- registrations ----

  /** What a run does to one shard of the registration limiter. */
  function ShardOps(cfg: Config, es: seq<Event>, i: ShardId): seq<RegOp<Ip>> {
    if es == [] then []
    else
      var e := es[|es|-1];
      ShardOps(cfg, es[..|es|-1], i) +
      if e.Reg? && cfg.regShard(cfg.ipKey(e.src)) == i then [Call(cfg.ipKey(e.src), e.now)]
      else if e.RateCleanup? then [Cleanup(e.now, 2 * cfg.rateWindow)]
      else []
  }

  /** When REGs of host `ip` were answered other than with "rate limited". */
  ghost function HeardTimes(cfg: Config, es: seq<Event>, ip: Ip): seq<nat> {
    if es == [] then []
    else
      var n := |es| - 1;
      HeardTimes(cfg, es[..n], ip) +
      if es[n].Reg? && cfg.ipKey(es[n].src) == ip && OutcomeAt(cfg, es, n) != Replied(Dropped(RateLimited))
      then [es[n].now] else []
  }

  lemma PlainNeverLimits(cfg: Config, s: State, room: Room, src: Addr, mint: Cookie, now: nat)
    ensures PlainReg(cfg, s, room, src, mint, now).1 != Dropped(RateLimited)
  {
    hide SweepRoom, LinkedTo, PendingFrom, Bucket;
    if room in s.rooms { RefusalIsACap(cfg, s, room, src, now); }
  }

  lemma CookieNeverLimits(cfg: Config, s: State, room: Room, src: Addr, cookie: Cookie, mint: Cookie, now: nat)
    ensures CookieReg(cfg, s, room, src, cookie, mint, now).1 != Dropped(RateLimited)
  {
    hide SweepAll, Swept, Unlinked, Without, LinkedTo, PendingFrom, Bucket, Expired, Admit;
  }

  /** A step sees the limiter of one shard: a REG of a host there meets it and is told so if it is refused, the
      limiter's timer forgets hosts whose window began more than two windows ago, and nothing else touches it. */
  lemma ShardStep(cfg: Config, s: State, e: Event, i: ShardId)
    requires |s.reg| == NUM_SHARDS
    ensures var (s', o) := Step(cfg, s, e); var mine := e.Reg? && cfg.regShard(cfg.ipKey(e.src)) == i;
            && |s'.reg| == NUM_SHARDS
            && (e.Reg? ==> (o == Replied(Dropped(RateLimited)) <==> RegLimited(cfg, s, e.src, e.now)))
            && s'.reg[i] == if mine then RegMeet(s.reg[i], cfg.ipKey(e.src), e.now, cfg.rateWindow, cfg.maxRegRate).1
                            else if e.RateCleanup? then RegSweep(s.reg[i], e.now, 2 * cfg.rateWindow)
                            else s.reg[i]
  {
    hide RegMeet, PlainReg, CookieReg, MsgStep, SweptRooms, SweptLinks;
    match e
    case Reg(room, cred, src, mint, now) =>
      var s1 := Metered(cfg, s, src, now);
      PlainNeverLimits(cfg, s1, room, src, mint, now);
      if cred.Presented? { CookieNeverLimits(cfg, s1, room, src, cred.cookie, mint, now); }
    case Msg(room, src, now) => MessageFrame(cfg, s, e);
    case Sweep(_) =>
    case RateCleanup(_) =>
  }

  /** The registration limiter of a run is the limiter of its calls, whatever else the run holds. */
  lemma {:induction false} ShardRun(cfg: Config, es: seq<Event>, ip: Ip)
    ensures RegRun(ShardOps(cfg, es, cfg.regShard(ip)), ip, cfg.rateWindow, cfg.maxRegRate)
         == (Run(cfg, es).reg[cfg.regShard(ip)], HeardTimes(cfg, es, ip))
    decreases |es|
  {
    var i := cfg.regShard(ip);
    if es != [] {
      hide Step, RegMeet, RegSweep;
      var n := |es| - 1;
      var before := ShardOps(cfg, es[..n], i);
      ShardRun(cfg, es[..n], ip);
      ShardStep(cfg, Run(cfg, es[..n]), es[n], i);
      var e, after := es[n], ShardOps(cfg, es, i);
      if e.Reg? && cfg.regShard(cfg.ipKey(e.src)) == i {
        assert after == before + [Call(cfg.ipKey(e.src), e.now)] && after[..|after|-1] == before;
      } else if e.RateCleanup? {
        assert after == before + [Cleanup(e.now, 2 * cfg.rateWindow)] && after[..|after|-1] == before;
      } else {
        assert after == before + [] == before;
      }
      assert HeardTimes(cfg, es[..n], ip) + [] == HeardTimes(cfg, es[..n], ip);
    }
  }

  lemma {:induction false} ShardClock(cfg: Config, es: seq<Event>, i: ShardId)
    requires Clocked(es)
    ensures var ops := ShardOps(cfg, es, i);
            && MonotoneOps(ops) && (forall op :: op in ops && op.Cleanup? ==> op.age >= cfg.rateWindow)
            && (ops != [] ==> es != [] && ClockOf(ops) <= es[|es|-1].now)
    decreases |es|
  {
    if es != [] {
      var n := |es| - 1;
      assert Clocked(es[..n]);
      ShardClock(cfg, es[..n], i);
      if n > 0 { assert es[n-1].now <= es[n].now; }
    }
  }

  /** Over every run: no interval as long as the rate window holds more than twice the limit of REGs that one host was
      not told were too many. */
  lemma HostRateBound(cfg: Config, es: seq<Event>, ip: Ip, x: nat)
    requires Clocked(es) && cfg.maxRegRate >= 1
    ensures Within(HeardTimes(cfg, es, ip), x, cfg.rateWindow) <= 2 * cfg.maxRegRate
  {
    hide RegRun, Within, HeardTimes, ShardOps, Run, MonotoneOps;
    var i := cfg.regShard(ip);
    ShardRun(cfg, es, ip);
    ShardClock(cfg, es, i);
    RegistrationRateBound(ShardOps(cfg, es, i), ip, cfg.rateWindow, cfg.maxRegRate, x);
  }

  /** And a REG of a host of which fewer than the limit were heard within the last window is never told it is one too
      many, unless the host is unknown to a full shard. */
  lemma BelowRateHeard(cfg: Config, es: seq<Event>, e: Event)
    requires e.Reg? && Clocked(es + [e]) && cfg.maxRegRate >= 1
    requires var ip := cfg.ipKey(e.src);
             Within(HeardTimes(cfg, es, ip), Since(e.now, cfg.rateWindow), cfg.rateWindow) < cfg.maxRegRate
    ensures var ip := cfg.ipKey(e.src); var shard := Run(cfg, es).reg[cfg.regShard(ip)];
            Step(cfg, Run(cfg, es), e).1 == Replied(Dropped(RateLimited)) <==>
            ip !in shard && |shard| >= MAX_REG_SHARD_ENTRIES
  {
    hide RegRun, Within, HeardTimes, ShardOps, Run, Step, MonotoneOps, RegMeet;
    var ip := cfg.ipKey(e.src);
    var i := cfg.regShard(ip);
    ClockedPrefix(es, e);
    ShardRun(cfg, es, ip);
    ShardClock(cfg, es, i);
    RegistrationPasses(ShardOps(cfg, es, i), ip, cfg.rateWindow, cfg.maxRegRate, e.now);
    ShardStep(cfg, Run(cfg, es), e, i);
  }

  lemma ClockedPrefix(es: seq<Event>, e: Event)
    requires Clocked(es + [e])
    ensures Clocked(es) && forall i :: 0 <= i < |es| ==> es[i].now <= e.now
  {
    var all := es + [e];
    assert forall i :: 0 <= i < |es| ==> all[i] == es[i];
    forall i | 0 <= i < |es| ensures es[i].now <= e.now { assert all[i].now <= all[|es|].now; }
    forall i, j | 0 <= i <= j < |es| ensures es[i].now <= es[j].now { assert all[i].now <= all[j].now; }
  }

  // ---- messages ----

  /** When `a` sent messages to room `r`. */
  ghost function SpokenTimes(more: seq<Event>, r: Room, a: Addr): seq<nat> {
    if more == [] then []
    else
      var n := |more| - 1;
      SpokenTimes(more[..n], r, a) + if Speaks(more[n], r, a) then [more[n].now] else []
  }

  /** When they were routed. */
  ghost function RoutedTimes(cfg: Config, es: seq<Event>, more: seq<Event>, r: Room, a: Addr): seq<nat> {
    if more == [] then []
    else
      var n := |more| - 1;
      var o := Step(cfg, Run(cfg, es + more[..n]), more[n]).1;
      RoutedTimes(cfg, es, more[..n], r, a)
      + if Speaks(more[n], r, a) && o.Forwarded? && o.routing.Routed? then [more[n].now] else []
  }

  /** `a` is a client of `r` all through `more` and is not admitted with a cookie again. */
  ghost predicate Settled(cfg: Config, es: seq<Event>, more: seq<Event>, r: Room, a: Addr) {
    && Stays(cfg, es, more, r, a)
    && forall j :: 0 <= j < |more| ==> !Admits(more[j], Step(cfg, Run(cfg, es + more[..j]), more[j]).1, r, a)
  }

  lemma SettledSnoc(cfg: Config, es: seq<Event>, more: seq<Event>, r: Room, a: Addr)
    requires more != [] && Settled(cfg, es, more, r, a)
    ensures var n := |more| - 1; var s := Run(cfg, es + more[..n]);
            && Settled(cfg, es, more[..n], r, a) && HasClient(s, r, a) && HasClient(Run(cfg, es + more), r, a)
            && !Admits(more[n], Step(cfg, s, more[n]).1, r, a)
  {
    hide Step, Run, HasClient, Stays, Admits;
    var n := |more| - 1;
    StaysSnoc(cfg, es, more, r, a);
    StaysEnds(cfg, es, more[..n], r, a);
    assert forall j :: 0 <= j < n ==> more[..n][..j] == more[..j] && more[..n][j] == more[j];
  }

  lemma StaysEnds(cfg: Config, es: seq<Event>, more: seq<Event>, r: Room, a: Addr)
    requires Stays(cfg, es, more, r, a)
    ensures HasClient(Run(cfg, es + more), r, a)
  {
    assert more[..|more|] == more;
  }

  /** Since its admission a client's meter is that of its own messages, whatever else the run holds. */
  lemma {:induction false} MeterRuns(cfg: Config, es: seq<Event>, e: Event, more: seq<Event>, r: Room, a: Addr)
    requires Admits(e, Step(cfg, Run(cfg, es), e).1, r, a) && Settled(cfg, es + [e], more, r, a)
    ensures var c := Record(Run(cfg, es + [e] + more), r, a);
            && c.Some?
            && MeterRun(e.now, SpokenTimes(more, r, a), cfg.rateWindow, cfg.maxMsgRate)
                 == (c.value.limiter, RoutedTimes(cfg, es + [e], more, r, a))
  {
    hide Step, Settled, MeterRun, Admits, Record, SpokenTimes, RoutedTimes;
    if more == [] {
      assert es + [e] + more == es + [e] && (es + [e])[..|es|] == es;
      MeterStarts(cfg, es, e, r, a);
    } else {
      var n := |more| - 1;
      SettledSnoc(cfg, es + [e], more, r, a);
      Recorded(Run(cfg, es + [e] + more), r, a);
      MeterRuns(cfg, es, e, more[..n], r, a);
      assert es + [e] + more == es + [e] + more[..n] + [more[n]];
      MeterSnoc(cfg, es + [e], more, e.now, r, a);
    }
  }

  lemma Recorded(s: State, r: Room, a: Addr)
    ensures HasClient(s, r, a) <==> Record(s, r, a).Some?
  {
  }

  lemma MeterStarts(cfg: Config, es: seq<Event>, e: Event, r: Room, a: Addr)
    requires Admits(e, Step(cfg, Run(cfg, es), e).1, r, a)
    ensures var c := Record(Step(cfg, Run(cfg, es), e).0, r, a);
            && c.Some?
            && MeterRun(e.now, SpokenTimes([], r, a), cfg.rateWindow, cfg.maxMsgRate)
                 == (c.value.limiter, RoutedTimes(cfg, es + [e], [], r, a))
  {
    hide Step, Run, Left;
    RecordStep(cfg, Run(cfg, es), e, r, a);
  }

  lemma MeterSnoc(cfg: Config, es: seq<Event>, more: seq<Event>, born: nat, r: Room, a: Addr)
    requires more != []
    requires var n := |more| - 1; var c := Record(Run(cfg, es + more[..n]), r, a);
             && c.Some? && Record(Run(cfg, es + more), r, a).Some?
             && !Admits(more[n], Step(cfg, Run(cfg, es + more[..n]), more[n]).1, r, a)
             && MeterRun(born, SpokenTimes(more[..n], r, a), cfg.rateWindow, cfg.maxMsgRate)
                  == (c.value.limiter, RoutedTimes(cfg, es, more[..n], r, a))
    ensures MeterRun(born, SpokenTimes(more, r, a), cfg.rateWindow, cfg.maxMsgRate)
         == (Record(Run(cfg, es + more), r, a).value.limiter, RoutedTimes(cfg, es, more, r, a))
  {
    hide Step, Meet, Lapses, MeterRun;
    var n := |more| - 1;
    var s := Run(cfg, es + more[..n]);
    assert (es + more)[..|es + more| - 1] == es + more[..n];
    RecordStep(cfg, s, more[n], r, a);
    var before, routed := SpokenTimes(more[..n], r, a), RoutedTimes(cfg, es, more[..n], r, a);
    if Speaks(more[n], r, a) {
      RoutedIff(cfg, s, more[n]);
      MeterRunSnoc(born, before, more[n].now, cfg.rateWindow, cfg.maxMsgRate);
    }
    assert before + [] == before && routed + [] == routed;
  }

  lemma MeterRunSnoc(born: nat, ts: seq<nat>, now: nat, window: nat, max: nat)
    ensures var (m, a) := MeterRun(born, ts, window, max);
            var (limited, m') := Meet(m, now, window, max);
            MeterRun(born, ts + [now], window, max) == (m', a + if limited then [] else [now])
  {
    assert (ts + [now])[..|ts|] == ts;
    var a := MeterRun(born, ts, window, max).1;
    assert a + [] == a;
  }

  lemma {:induction false} SpokenClock(more: seq<Event>, r: Room, a: Addr, born: nat)
    requires Clocked(more) && forall e :: e in more ==> born <= e.now
    ensures var ts := SpokenTimes(more, r, a);
            && Sorted(ts) && (ts != [] ==> more != [] && born <= ts[0] && ts[|ts|-1] <= more[|more|-1].now)
  {
    hide Clocked, Sorted;
    if more == [] {
      EmptySorted();
    } else {
      var n := |more| - 1;
      assert more == more[..n] + [more[n]] && more[n] in more;
      ClockedPrefix(more[..n], more[n]);
      SpokenClock(more[..n], r, a, born);
      var before := SpokenTimes(more[..n], r, a);
      if Speaks(more[n], r, a) { LaterSorted(before, more[n].now); }
      else { assert before + [] == before; }
    }
  }

  lemma EmptySorted()
    ensures Sorted([])
  {
  }

  lemma LaterSorted(ts: seq<nat>, now: nat)
    requires Sorted(ts) && (ts != [] ==> ts[|ts|-1] <= now)
    ensures Sorted(ts + [now])
  {
  }

  /** Over every run: from its admission on, no interval as long as the rate window holds more than twice the limit of
      routed messages of one client. */
  lemma ClientRateBound(cfg: Config, es: seq<Event>, e: Event, more: seq<Event>, r: Room, a: Addr, x: nat)
    requires Admits(e, Step(cfg, Run(cfg, es), e).1, r, a) && Settled(cfg, es + [e], more, r, a)
    requires Clocked(more) && forall y :: y in more ==> e.now <= y.now
    ensures Within(RoutedTimes(cfg, es + [e], more, r, a), x, cfg.rateWindow) <= 2 * cfg.maxMsgRate
  {
    hide Step, Run, Settled, Within, RoutedTimes, SpokenTimes, MeterRun;
    MeterRuns(cfg, es, e, more, r, a);
    SpokenClock(more, r, a, e.now);
    MessageRateBound(e.now, SpokenTimes(more, r, a), cfg.rateWindow, cfg.maxMsgRate, x);
  }

  /** And a client of whom fewer messages than the limit were routed within the last window has the next one routed. */
  lemma BelowRateRouted(cfg: Config, es: seq<Event>, e: Event, more: seq<Event>, msg: Event)
    requires msg.Msg? && Admits(e, Step(cfg, Run(cfg, es), e).1, msg.room, msg.src)
    requires Settled(cfg, es + [e], more, msg.room, msg.src)
    requires Clocked(more + [msg]) && e.now <= msg.now && forall y :: y in more ==> e.now <= y.now
    requires Within(RoutedTimes(cfg, es + [e], more, msg.room, msg.src), Since(msg.now, cfg.rateWindow), cfg.rateWindow)
             < cfg.maxMsgRate
    ensures var o := Step(cfg, Run(cfg, es + [e] + more), msg).1; o.Forwarded? && o.routing.Routed?
  {
    hide Step, Run, Settled, Within, RoutedTimes, SpokenTimes, MeterRun, Meet;
    var ts := SpokenTimes(more, msg.room, msg.src);
    ClockedPrefix(more, msg);
    MeterRuns(cfg, es, e, more, msg.room, msg.src);
    SpokenClock(more, msg.room, msg.src, e.now);
    LaterSorted(ts, msg.now);
    MessagePasses(e.now, ts, cfg.rateWindow, cfg.maxMsgRate, msg.now);
    RoutedIff(cfg, Run(cfg, es + [e] + more), msg);
  }
}
