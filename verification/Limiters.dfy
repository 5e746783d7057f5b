/** The relay's three limiters: per-client MSG (`RateLimiter`), per-host REG (`RegShard`)
    and drop-log lines (`DropLogLimiter`). Time is an integer clock; every bound below holds
    for each resolution of it. */
module Limiters {
  import opened Net
  import opened Sizes

  /** Saturating elapsed time, as `Instant::duration_since`. */
  function Since(now: nat, t: nat): nat { if now >= t then now - t else 0 }

  /** A fixed window that starts at `start` and has let `count` calls through. */
  datatype Meter = Meter(count: nat, start: nat)

  /** `RateLimiter::is_limited`: is the call refused, and the limiter after it. */
  function Meet(m: Meter, now: nat, window: nat, max: nat): (r: (bool, Meter)) {
    var m1 := if Since(now, m.start) > window then Meter(0, now) else m;
    if m1.count >= max then (true, m1) else (false, m1.(count := m1.count + 1))
  }

  const MAX_REG_SHARD_ENTRIES: nat := 100_000

  /** `RegShard::is_limited` on the joint view of its two maps. */
  function RegMeet<K>(v: map<K, Meter>, k: K, now: nat, window: nat, max: nat): (r: (bool, map<K, Meter>)) {
    if k !in v then
      if |v| >= MAX_REG_SHARD_ENTRIES then (true, v) else (false, v[k := Meter(1, now)])
    else if Since(now, v[k].start) > window then (false, v[k := Meter(1, now)])
    else if v[k].count >= max then (true, v)
    else (false, v[k := v[k].(count := v[k].count + 1)])
  }

  /** `RegShard::cleanup_stale` on the joint view. */
  function RegSweep<K>(v: map<K, Meter>, now: nat, age: nat): (r: map<K, Meter>) {
    map k | k in v && Since(now, v[k].start) <= age :: v[k]
  }

  class RegShard<K(==)> {
    var sent: map<K, nat>
    var times: map<K, nat>

    ghost predicate Valid()
      reads this
    {
      sent.Keys == times.Keys && |times| <= MAX_REG_SHARD_ENTRIES
    }

    ghost function View(): map<K, Meter>
      requires Valid()
      reads this
    {
      map k | k in times :: Meter(sent[k], times[k])
    }

    constructor ()
      ensures Valid() && View() == map[]
    {
      sent, times := map[], map[];
    }

    method IsLimited(src: K, now: nat, window: nat, max: nat) returns (limited: bool)
      requires Valid()
      modifies this
      ensures Valid()
      ensures (limited, View()) == RegMeet(old(View()), src, now, window, max)
    {
      assert View().Keys == times.Keys;
      assert |View()| == |View().Keys| == |times.Keys| == |times|;
      if src !in times {
        if |times| >= MAX_REG_SHARD_ENTRIES {
          return true;
        }
        sent := sent[src := 1];
        times := times[src := now];
        assert View() == old(View())[src := Meter(1, now)];
        return false;
      }
      if Since(now, times[src]) > window {
        assert times[src := now].Keys == times.Keys;
        sent := sent[src := 1];
        times := times[src := now];
        assert View() == old(View())[src := Meter(1, now)];
        return false;
      }
      if src !in sent {
        assert false;
      }
      if sent[src] >= max {
        return true;
      }
      sent := sent[src := sent[src] + 1];
      assert View() == old(View())[src := Meter(sent[src], times[src])];
      return false;
    }

    /** Keeps `dom(sent) == dom(times)` within the cap, so neither whole-map clear is taken. */
    method CleanupStale(now: nat, age: nat)
      requires Valid()
      modifies this
      ensures Valid()
      ensures View() == RegSweep(old(View()), now, age)
    {
      ghost var before := View();
      SubmapSize(map k | k in times && Since(now, times[k]) <= age :: times[k], times);
      times := map k | k in times && Since(now, times[k]) <= age :: times[k];
      sent := map k | k in sent && k in times :: sent[k];
      assert sent.Keys == times.Keys;
      assert |sent| == |sent.Keys| == |times|;
      if |sent| > MAX_REG_SHARD_ENTRIES {
        assert false;
      }
      if |times| > MAX_REG_SHARD_ENTRIES {
        assert false;
      }
    }
  }

  // ---- what a fixed window promises about the calls it lets through ----

  ghost predicate Sorted(a: seq<nat>) { forall i, j :: 0 <= i <= j < |a| ==> a[i] <= a[j] }

  /** No `n + 1` consecutive entries fit in a closed interval of length `window`. */
  ghost predicate Spread(a: seq<nat>, window: nat, n: nat) {
    forall i, j :: 0 <= i && j == i + n && j < |a| ==> a[i] + window < a[j]
  }

  /** How many entries lie in the closed interval [x, x + window]. */
  function Within(a: seq<nat>, x: nat, window: nat): nat {
    if a == [] then 0
    else Within(a[..|a|-1], x, window) + (if x <= a[|a|-1] <= x + window then 1 else 0)
  }

  /** `Spread` is the interval bound: at most `n` entries in every closed window. */
  lemma {:induction false} SpreadBounds(a: seq<nat>, x: nat, window: nat, n: nat)
    requires Sorted(a) && Spread(a, window, n)
    ensures Within(a, x, window) <= n
  {
    var hi := WithinIsRun(a, x, window);
    var i := hi - Within(a, x, window);
    if i + n < |a| {
      assert a[i] + window < a[i + n];
    }
  }

  /** The entries of a sorted sequence inside an interval are consecutive and end at `hi`. */
  lemma {:induction false} WithinIsRun(a: seq<nat>, x: nat, window: nat) returns (hi: nat)
    requires Sorted(a)
    ensures Within(a, x, window) <= hi <= |a|
    ensures forall i :: hi - Within(a, x, window) <= i < hi ==> x <= a[i] <= x + window
    ensures hi < |a| ==> x + window < a[hi]
    ensures hi < |a| || Within(a, x, window) == 0 || a[|a|-1] <= x + window
    ensures Within(a, x, window) == 0 ==> forall i :: 0 <= i < hi ==> a[i] < x
  {
    if a == [] {
      hi := 0;
    } else {
      var init := a[..|a|-1];
      hi := WithinIsRun(init, x, window);
      var last := a[|a|-1];
      if hi == |init| && last <= x + window {
        hi := |a|;
      }
    }
  }

  /** The clock, the window and the log of admitted times of one fixed-window counter. */
  ghost predicate Windowed(a: seq<nat>, m: Meter, clock: nat, window: nat, max: nat) {
    && Sorted(a) && Spread(a, window, 2 * max)
    && m.count <= max && m.count <= |a| && m.start <= clock
    && (forall j :: 0 <= j < |a| ==> a[j] <= clock)
    && (forall j :: 0 <= j < |a| - m.count ==> a[j] <= m.start)
    && (forall j :: 0 <= j < |a| - m.count - max ==> a[j] + window < m.start)
    && (forall j :: |a| - m.count <= j < |a| ==> m.start <= a[j])
  }

  /** One admitted call inside the window. */
  lemma WindowedAdmit(a: seq<nat>, m: Meter, clock: nat, now: nat, window: nat, max: nat)
    requires Windowed(a, m, clock, window, max) && clock <= now && m.count < max
    ensures Windowed(a + [now], m.(count := m.count + 1), now, window, max)
  {
    SpreadAdmit(a, m, now, window, max);
    hide Spread;
  }

  lemma SpreadAdmit(a: seq<nat>, m: Meter, now: nat, window: nat, max: nat)
    requires Spread(a, window, 2 * max) && m.count < max && m.start <= now
    requires forall j :: 0 <= j < |a| - m.count - max ==> a[j] + window < m.start
    ensures Spread(a + [now], window, 2 * max)
  {
    forall i, j | 0 <= i && j == i + 2 * max && j < |a| + 1 ensures (a + [now])[i] + window < (a + [now])[j] {
      if j == |a| { assert a[i] + window < m.start; }
    }
  }

  /** A new window opens only after more than `window`, and keeps the log's promise. */
  lemma WindowedReset(a: seq<nat>, m: Meter, clock: nat, now: nat, window: nat, max: nat)
    requires Windowed(a, m, clock, window, max) && clock <= now && now - m.start > window
    ensures Windowed(a, Meter(0, now), now, window, max)
  {
  }

  lemma WindowedLater(a: seq<nat>, m: Meter, clock: nat, now: nat, window: nat, max: nat)
    requires Windowed(a, m, clock, window, max) && clock <= now
    ensures Windowed(a, m, now, window, max) && m.start <= now
  {
  }

  /** The first window of a log whose older part has left every window. */
  lemma WindowedOpen(a: seq<nat>, clock: nat, now: nat, window: nat, max: nat)
    requires Sorted(a) && Spread(a, window, 2 * max) && clock <= now
    requires forall j :: 0 <= j < |a| ==> a[j] <= clock
    requires forall j :: 0 <= j < |a| - max ==> a[j] + window < clock
    ensures Windowed(a, Meter(0, now), now, window, max)
  {
  }

  /** A run of `c` last entries inside an interval counts for at least `c`. */
  lemma {:induction false} WithinAtLeast(a: seq<nat>, x: nat, window: nat, c: nat)
    requires c <= |a| && forall j :: |a| - c <= j < |a| ==> x <= a[j] <= x + window
    ensures Within(a, x, window) >= c
  {
    if c > 0 {
      WithinAtLeast(a[..|a|-1], x, window, c - 1);
    }
  }

  /** A meter whose window is still open has let through no more than were let through within the last window. */
  lemma CountIsRecent(a: seq<nat>, m: Meter, clock: nat, now: nat, window: nat, max: nat)
    requires Windowed(a, m, clock, window, max) && clock <= now && Since(now, m.start) <= window
    ensures m.count <= Within(a, Since(now, window), window)
  {
    WithinAtLeast(a, Since(now, window), window, m.count);
  }

  // ---- RateLimiter over a whole run of calls ----

  /** A fresh limiter at `born`, called at each of `ts`: its state and the admitted times. */
  function MeterRun(born: nat, ts: seq<nat>, window: nat, max: nat): (r: (Meter, seq<nat>)) {
    if ts == [] then (Meter(0, born), [])
    else
      var (m, a) := MeterRun(born, ts[..|ts|-1], window, max);
      var now := ts[|ts|-1];
      var (limited, m') := Meet(m, now, window, max);
      (m', if limited then a else a + [now])
  }

  lemma MeetWindowed(a: seq<nat>, m: Meter, clock: nat, now: nat, window: nat, max: nat)
    requires Windowed(a, m, clock, window, max) && clock <= now
    ensures var (limited, m') := Meet(m, now, window, max);
            Windowed(if limited then a else a + [now], m', now, window, max)
  {
    hide Windowed;
    WindowedLater(a, m, clock, now, window, max);
    var m1 := m;
    if Since(now, m.start) > window {
      WindowedReset(a, m, clock, now, window, max);
      m1 := Meter(0, now);
    }
    if m1.count < max { WindowedAdmit(a, m1, now, now, window, max); }
  }

  lemma {:induction false} MeterRunWindowed(born: nat, ts: seq<nat>, window: nat, max: nat)
    requires Sorted(ts) && (ts != [] ==> born <= ts[0])
    ensures var (m, a) := MeterRun(born, ts, window, max);
            Windowed(a, m, if ts == [] then born else ts[|ts|-1], window, max)
  {
    if ts != [] {
      var init, now := ts[..|ts|-1], ts[|ts|-1];
      MeterRunWindowed(born, init, window, max);
      var (m, a) := MeterRun(born, init, window, max);
      MeetWindowed(a, m, if init == [] then born else init[|init|-1], now, window, max);
    }
  }

  /** MSG limiter: over any run of calls, every closed interval of one `rate_window` holds at
      most `2 * max` admitted messages. */
  lemma {:induction false} MessageRateBound(born: nat, ts: seq<nat>, window: nat, max: nat, x: nat)
    requires Sorted(ts) && (ts != [] ==> born <= ts[0])
    ensures Within(MeterRun(born, ts, window, max).1, x, window) <= 2 * max
  {
    MeterRunWindowed(born, ts, window, max);
    SpreadBounds(MeterRun(born, ts, window, max).1, x, window, 2 * max);
  }

  /** And no call is refused while fewer than `max` were admitted within the last window. */
  lemma {:induction false} MessagePasses(born: nat, ts: seq<nat>, window: nat, max: nat, now: nat)
    requires Sorted(ts + [now]) && (ts != [] ==> born <= ts[0]) && born <= now
    requires Within(MeterRun(born, ts, window, max).1, Since(now, window), window) < max
    ensures !Meet(MeterRun(born, ts, window, max).0, now, window, max).0
  {
    hide Windowed, Within;
    assert Sorted(ts) by { assert forall i :: 0 <= i < |ts| ==> (ts + [now])[i] == ts[i]; }
    MeterRunWindowed(born, ts, window, max);
    var (m, a) := MeterRun(born, ts, window, max);
    var clock := if ts == [] then born else ts[|ts|-1];
    assert clock <= now by { if ts != [] { assert (ts + [now])[|ts|-1] <= (ts + [now])[|ts|]; } }
    if Since(now, m.start) <= window { CountIsRecent(a, m, clock, now, window, max); }
  }

  // ---- RegShard over a whole run of calls and cleanups ----

  datatype RegOp<K> = Call(src: K, now: nat) | Cleanup(now: nat, age: nat)

  ghost predicate MonotoneOps<K>(ops: seq<RegOp<K>>) {
    forall i, j :: 0 <= i <= j < |ops| ==> ops[i].now <= ops[j].now
  }

  /** State of an initially empty shard after `ops`, and the times at which `k` was admitted. */
  function RegRun<K(==)>(ops: seq<RegOp<K>>, k: K, window: nat, max: nat): (r: (map<K, Meter>, seq<nat>)) {
    if ops == [] then (map[], [])
    else
      var (v, a) := RegRun(ops[..|ops|-1], k, window, max);
      match ops[|ops|-1]
      case Cleanup(now, age) => (RegSweep(v, now, age), a)
      case Call(src, now) =>
        var (limited, v') := RegMeet(v, src, now, window, max);
        (v', if src == k && !limited then a + [now] else a)
  }

  /** What holds of `k`'s log: as `Windowed` while `k` is tracked, and otherwise everything but
      the last `max` admissions is more than a window old. */
  ghost predicate Tracked<K>(v: map<K, Meter>, k: K, a: seq<nat>, clock: nat, window: nat, max: nat) {
    if k in v then Windowed(a, v[k], clock, window, max)
    else
      && Sorted(a) && Spread(a, window, 2 * max)
      && (forall j :: 0 <= j < |a| ==> a[j] <= clock)
      && (forall j :: 0 <= j < |a| - max ==> a[j] + window < clock)
  }

  ghost function ClockOf<K>(ops: seq<RegOp<K>>): nat { if ops == [] then 0 else ops[|ops|-1].now }

  lemma RegCallTracked<K>(v: map<K, Meter>, src: K, k: K, a: seq<nat>, clock: nat, now: nat, window: nat, max: nat)
    requires Tracked(v, k, a, clock, window, max) && clock <= now && max >= 1
    ensures var (limited, v') := RegMeet(v, src, now, window, max);
            Tracked(v', k, if src == k && !limited then a + [now] else a, now, window, max)
  {
    hide Windowed;
    if k in v { WindowedLater(a, v[k], clock, now, window, max); }
    if src == k {
      if k !in v {
        if |v| < MAX_REG_SHARD_ENTRIES {
          WindowedOpen(a, clock, now, window, max);
          WindowedAdmit(a, Meter(0, now), now, now, window, max);
        }
      } else if Since(now, v[k].start) > window {
        WindowedReset(a, v[k], clock, now, window, max);
        WindowedAdmit(a, Meter(0, now), now, now, window, max);
      } else if v[k].count < max {
        WindowedAdmit(a, v[k], clock, now, window, max);
      }
    }
  }

  lemma RegSweepTracked<K>(v: map<K, Meter>, k: K, a: seq<nat>, clock: nat, now: nat, age: nat, window: nat, max: nat)
    requires Tracked(v, k, a, clock, window, max) && clock <= now && age >= window
    ensures Tracked(RegSweep(v, now, age), k, a, now, window, max)
  {
    if k in v && Since(now, v[k].start) > age {
      WindowedReset(a, v[k], clock, now, window, max);
    }
  }

  lemma {:induction false} RegRunTracked<K>(ops: seq<RegOp<K>>, k: K, window: nat, max: nat)
    requires MonotoneOps(ops) && max >= 1
    requires forall op :: op in ops && op.Cleanup? ==> op.age >= window
    ensures var (v, a) := RegRun(ops, k, window, max);
            Tracked(v, k, a, ClockOf(ops), window, max)
  {
    if ops != [] {
      var init, op := ops[..|ops|-1], ops[|ops|-1];
      assert op in ops && forall o :: o in init ==> o in ops;
      RegRunTracked(init, k, window, max);
      var (v, a) := RegRun(init, k, window, max);
      match op
      case Call(src, now) => RegCallTracked(v, src, k, a, ClockOf(init), now, window, max);
      case Cleanup(now, age) => RegSweepTracked(v, k, a, ClockOf(init), now, age, window, max);
    }
  }

  /** REG limiter: over any run of calls from any sources, with cleanups no more eager than the
      window, every closed window admits at most `2 * max` registrations of one source. */
  lemma {:induction false} RegistrationRateBound<K>(ops: seq<RegOp<K>>, k: K, window: nat, max: nat, x: nat)
    requires MonotoneOps(ops) && max >= 1
    requires forall op :: op in ops && op.Cleanup? ==> op.age >= window
    ensures Within(RegRun(ops, k, window, max).1, x, window) <= 2 * max
  {
    RegRunTracked(ops, k, window, max);
    SpreadBounds(RegRun(ops, k, window, max).1, x, window, 2 * max);
  }

  /** And no registration is refused while fewer than `max` of its source were admitted within the last window, unless
      the source is unknown and the shard is full. */
  lemma {:induction false} RegistrationPasses<K>(ops: seq<RegOp<K>>, k: K, window: nat, max: nat, now: nat)
    requires MonotoneOps(ops) && max >= 1 && ClockOf(ops) <= now
    requires forall op :: op in ops && op.Cleanup? ==> op.age >= window
    requires Within(RegRun(ops, k, window, max).1, Since(now, window), window) < max
    ensures var v := RegRun(ops, k, window, max).0;
            RegMeet(v, k, now, window, max).0 <==> k !in v && |v| >= MAX_REG_SHARD_ENTRIES
  {
    hide Windowed, Within;
    RegRunTracked(ops, k, window, max);
    var (v, a) := RegRun(ops, k, window, max);
    if k in v && Since(now, v[k].start) <= window { CountIsRecent(a, v[k], ClockOf(ops), now, window, max); }
  }

  // ---- DropLogLimiter ----

  /** The throttle for drop-log lines: last line per host, and a global budget per second. */
  datatype LogState<!K> = LogState(last: map<K, nat>, meter: Meter)

  /** `DropLogLimiter::allow`; `second` is the length of the budget window in clock units. */
  function LogAllow<K>(s: LogState<K>, ip: K, now: nat, interval: nat, second: nat, maxEntries: nat, maxPerSec: nat)
    : (r: (bool, LogState<K>))
  {
    var m := if Since(now, s.meter.start) >= second then Meter(0, now) else s.meter;
    var s1 := s.(meter := m);
    if m.count >= maxPerSec then (false, s1)
    else if ip in s.last && Since(now, s.last[ip]) < interval then (false, s1)
    else if ip !in s.last && |s.last| >= maxEntries then (false, s1)
    else (true, LogState(s.last[ip := now], m.(count := m.count + 1)))
  }

  /** `DropLogLimiter::cleanup_stale`. */
  function LogSweep<K>(s: LogState<K>, now: nat, age: nat): (r: LogState<K>) {
    s.(last := map k | k in s.last && Since(now, s.last[k]) <= age :: s.last[k])
  }

  class DropLogLimiter<K(==)> {
    var last: map<K, nat>
    var windowStart: nat
    var windowCount: nat
    const second: nat
    const maxEntries: nat
    const maxPerSec: nat

    ghost function View(): LogState<K>
      reads this
    {
      LogState(last, Meter(windowCount, windowStart))
    }

    constructor (now: nat, second: nat, maxEntries: nat, maxPerSec: nat)
      ensures View() == LogState(map[], Meter(0, now))
      ensures this.second == second && this.maxEntries == maxEntries && this.maxPerSec == maxPerSec
    {
      last, windowStart, windowCount := map[], now, 0;
      this.second, this.maxEntries, this.maxPerSec := second, maxEntries, maxPerSec;
    }

    method Allow(ip: K, now: nat, interval: nat) returns (allowed: bool)
      modifies this
      ensures (allowed, View()) == LogAllow(old(View()), ip, now, interval, second, maxEntries, maxPerSec)
    {
      if Since(now, windowStart) >= second {
        windowStart := now;
        windowCount := 0;
      }
      if windowCount >= maxPerSec {
        return false;
      }
      if ip in last && Since(now, last[ip]) < interval {
        return false;
      }
      if ip !in last && |last| >= maxEntries {
        return false;
      }
      last := last[ip := now];
      windowCount := windowCount + 1;
      return true;
    }

    method CleanupStale(now: nat, age: nat)
      modifies this
      ensures View() == LogSweep(old(View()), now, age)
    {
      last := map k | k in last && Since(now, last[k]) <= age :: last[k];
    }
  }

  /** A run of an initially idle throttle: its state, the time of every line that passed, and
      the times at which lines of host `k` passed. */
  function LogRun<K(==)>(born: nat, ops: seq<RegOp<K>>, k: K, interval: nat, second: nat, maxEntries: nat,
                         maxPerSec: nat)
    : (r: (LogState<K>, seq<nat>, seq<nat>))
  {
    if ops == [] then (LogState(map[], Meter(0, born)), [], [])
    else
      var (s, a, mine) := LogRun(born, ops[..|ops|-1], k, interval, second, maxEntries, maxPerSec);
      match ops[|ops|-1]
      case Cleanup(now, age) => (LogSweep(s, now, age), a, mine)
      case Call(ip, now) =>
        var (ok, s') := LogAllow(s, ip, now, interval, second, maxEntries, maxPerSec);
        (s', if ok then a + [now] else a, if ok && ip == k then mine + [now] else mine)
  }

  /** Lines of one host are at least `interval` apart, and the last one is either on record or
      already that old. */
  ghost predicate Spaced<K>(s: LogState<K>, k: K, mine: seq<nat>, clock: nat, interval: nat) {
    && (forall i :: 0 <= i < |mine| - 1 ==> mine[i] + interval <= mine[i + 1])
    && (mine == [] ==> k !in s.last)
    && (mine != [] ==> mine[|mine|-1] <= clock)
    && (mine != [] ==> if k in s.last then s.last[k] == mine[|mine|-1] else mine[|mine|-1] + interval <= clock)
  }

  ghost predicate LogInv<K>(s: LogState<K>, k: K, a: seq<nat>, mine: seq<nat>, clock: nat, interval: nat, second: nat,
                            maxPerSec: nat)
    requires second >= 1
  {
    Windowed(a, s.meter, clock, second - 1, maxPerSec) && Spaced(s, k, mine, clock, interval)
  }

  lemma LogCallSpaced<K>(s: LogState<K>, ip: K, k: K, mine: seq<nat>, clock: nat, now: nat,
                         interval: nat, second: nat, maxEntries: nat, maxPerSec: nat)
    requires clock <= now && Spaced(s, k, mine, clock, interval)
    ensures var (ok, s') := LogAllow(s, ip, now, interval, second, maxEntries, maxPerSec);
            Spaced(s', k, if ok && ip == k then mine + [now] else mine, now, interval)
  {
  }

  lemma LogSweepSpaced<K>(s: LogState<K>, k: K, mine: seq<nat>, clock: nat, now: nat, age: nat, interval: nat)
    requires clock <= now && age >= interval && Spaced(s, k, mine, clock, interval)
    ensures Spaced(LogSweep(s, now, age), k, mine, now, interval)
  {
  }

  lemma LogCallWindowed<K>(s: LogState<K>, ip: K, a: seq<nat>, clock: nat, now: nat,
                           interval: nat, second: nat, maxEntries: nat, maxPerSec: nat)
    requires second >= 1 && clock <= now && Windowed(a, s.meter, clock, second - 1, maxPerSec)
    ensures var (ok, s') := LogAllow(s, ip, now, interval, second, maxEntries, maxPerSec);
            Windowed(if ok then a + [now] else a, s'.meter, now, second - 1, maxPerSec)
  {
    hide Windowed;
    var m := s.meter;
    WindowedLater(a, m, clock, now, second - 1, maxPerSec);
    if Since(now, m.start) >= second {
      WindowedReset(a, m, clock, now, second - 1, maxPerSec);
      m := Meter(0, now);
    }
    if m.count < maxPerSec {
      WindowedAdmit(a, m, now, now, second - 1, maxPerSec);
    }
  }

  lemma {:induction false} LogRunInv<K>(born: nat, ops: seq<RegOp<K>>, k: K, interval: nat, second: nat,
                                        maxEntries: nat, maxPerSec: nat)
    requires MonotoneOps(ops) && second >= 1 && (ops != [] ==> born <= ops[0].now)
    requires forall op :: op in ops && op.Cleanup? ==> op.age >= interval
    ensures var (s, a, mine) := LogRun(born, ops, k, interval, second, maxEntries, maxPerSec);
            LogInv(s, k, a, mine, if ops == [] then born else ClockOf(ops), interval, second, maxPerSec)
  {
    if ops != [] {
      var init, op := ops[..|ops|-1], ops[|ops|-1];
      assert op in ops && forall o :: o in init ==> o in ops;
      hide Windowed, Spaced;
      LogRunInv(born, init, k, interval, second, maxEntries, maxPerSec);
      var (s, a, mine) := LogRun(born, init, k, interval, second, maxEntries, maxPerSec);
      var clock := if init == [] then born else ClockOf(init);
      if op.Cleanup? {
        LogSweepSpaced(s, k, mine, clock, op.now, op.age, interval);
        WindowedLater(a, s.meter, clock, op.now, second - 1, maxPerSec);
      } else {
        LogCallSpaced(s, op.src, k, mine, clock, op.now, interval, second, maxEntries, maxPerSec);
        LogCallWindowed(s, op.src, a, clock, op.now, interval, second, maxEntries, maxPerSec);
      }
    }
  }

  /** Drop-log throttle: lines of one host are spaced by at least `interval`, and every
      half-open second passes at most `2 * max_per_sec` lines in all. */
  lemma {:induction false} DropLogBounds<K>(born: nat, ops: seq<RegOp<K>>, k: K, interval: nat, second: nat,
                                            maxEntries: nat, maxPerSec: nat, x: nat)
    requires MonotoneOps(ops) && second >= 1 && (ops != [] ==> born <= ops[0].now)
    requires forall op :: op in ops && op.Cleanup? ==> op.age >= interval
    ensures var (_, a, mine) := LogRun(born, ops, k, interval, second, maxEntries, maxPerSec);
            && Within(a, x, second - 1) <= 2 * maxPerSec
            && forall i :: 0 <= i < |mine| - 1 ==> mine[i] + interval <= mine[i + 1]
  {
    LogRunInv(born, ops, k, interval, second, maxEntries, maxPerSec);
    var (_, a, mine) := LogRun(born, ops, k, interval, second, maxEntries, maxPerSec);
    SpreadBounds(a, x, second - 1, 2 * maxPerSec);
  }

  /** And a line passes while the last second saw fewer than `max_per_sec` lines and the host's last one is `interval`
      ago, unless the host is unknown and the map is full. */
  lemma {:induction false} DropLogPasses<K>(born: nat, ops: seq<RegOp<K>>, k: K, interval: nat, second: nat,
                                            maxEntries: nat, maxPerSec: nat, now: nat)
    requires MonotoneOps(ops) && second >= 1 && (if ops == [] then born <= now else born <= ops[0].now)
    requires ClockOf(ops) <= now && forall op :: op in ops && op.Cleanup? ==> op.age >= interval
    requires var (_, a, mine) := LogRun(born, ops, k, interval, second, maxEntries, maxPerSec);
             && Within(a, Since(now, second - 1), second - 1) < maxPerSec
             && (mine != [] ==> mine[|mine|-1] + interval <= now)
    ensures var s := LogRun(born, ops, k, interval, second, maxEntries, maxPerSec).0;
            LogAllow(s, k, now, interval, second, maxEntries, maxPerSec).0 <==> k in s.last || |s.last| < maxEntries
  {
    hide Windowed, Within;
    LogRunInv(born, ops, k, interval, second, maxEntries, maxPerSec);
    var (s, a, mine) := LogRun(born, ops, k, interval, second, maxEntries, maxPerSec);
    var clock := if ops == [] then born else ClockOf(ops);
    if Since(now, s.meter.start) < second { CountIsRecent(a, s.meter, clock, now, second - 1, maxPerSec); }
  }
}
