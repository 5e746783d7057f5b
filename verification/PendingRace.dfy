/** The relay's pending-store counters under concurrent workers.

    Each worker runs `store_pending_reg` and `delete_pending_reg` one shared access at a time, and
    the cleanup task runs `remove_stale_pending_regs` beside them. A schedule is any sequence of
    actions; an action that is not possible when its turn comes (a lock held by another thread, a
    thread elsewhere in its code) changes nothing. Which entries the cleanup task finds expired is
    left open, so the results hold whatever the clock says. */
module PendingRace {
  import opened Net
  import opened Sizes
  import opened RelaySpec
  import opened RelayInv
  import opened RoomEntries
  import Tables

  /** Where a worker stands. From `Storing` and from `Deleting` on it holds the lock of the key's
      shard, and it lets go on returning to `Idle`. */
  datatype Pc =
    | Idle
    | Allowed(k: PendKey)    // the per-host check passed
    | Storing(k: PendKey)
    | Checked(k: PendKey)    // the key is new and the total was below the cap
    | Inserted(k: PendKey)   // the entry is in, no counter has moved
    | Totalled(k: PendKey)   // the total has moved, the host counter has not
    | Deleting(k: PendKey)
    | Removed(k: PendKey)    // the entry is out, no counter has moved
    | Untotalled(k: PendKey) // the total has moved, the host counter has not

  /** The cleanup task: sweeping the shards in order, or paying back the host counters. */
  datatype Janitor =
    | Resting
    | Sweeping(shard: nat, locked: bool, gone: seq<Ip>)
    | Draining(gone: seq<Ip>)

  datatype Race = Race(
    store: set<PendKey>,
    total: int,
    counts: map<Ip, nat>,
    workers: seq<Pc>,
    janitor: Janitor)

  datatype Action =
    | Admit(t: nat, k: PendKey)
    | Delete(t: nat, k: PendKey)
    | Advance(t: nat)
    | Tidy
    | Evict(k: PendKey)

  datatype World = World(cfg: Config, at: Room -> ShardId)

  // ---- steps ----

  predicate Holds(pc: Pc) { !pc.Idle? && !pc.Allowed? }

  predicate HoldsShard(w: World, pc: Pc, i: nat) { Holds(pc) && w.at(pc.k.0) == i }

  predicate Free(w: World, s: Race, i: nat) {
    && (forall u :: 0 <= u < |s.workers| ==> !HoldsShard(w, s.workers[u], i))
    && !(s.janitor.Sweeping? && s.janitor.locked && s.janitor.shard == i)
  }

  function Goto(s: Race, t: nat, pc: Pc): Race
    requires t < |s.workers|
  {
    s.(workers := s.workers[t := pc])
  }

  function Host(w: World, k: PendKey): Ip { w.cfg.ipKey(k.1) }

  /** The next access of a worker inside one of the two operations. */
  function Work(w: World, s: Race, t: nat): Race
    requires t < |s.workers|
  {
    match s.workers[t]
    case Idle => s
    case Allowed(k) => if Free(w, s, w.at(k.0)) then Goto(s, t, Storing(k)) else s
    case Storing(k) => Goto(s, t, if k in s.store || s.total >= w.cfg.maxPendingGlobal then Idle else Checked(k))
    case Checked(k) => Goto(s, t, Inserted(k)).(store := s.store + {k})
    case Inserted(k) => Goto(s, t, Totalled(k)).(total := s.total + 1)
    case Totalled(k) => Goto(s, t, Idle).(counts := Inc(s.counts, Host(w, k)))
    case Deleting(k) => if k in s.store then Goto(s, t, Removed(k)).(store := s.store - {k}) else Goto(s, t, Idle)
    case Removed(k) => Goto(s, t, Untotalled(k)).(total := s.total - 1)
    case Untotalled(k) => Goto(s, t, Idle).(counts := Dec(s.counts, Host(w, k)))
  }

  function Clean(w: World, s: Race): Race {
    match s.janitor
    case Resting => s.(janitor := Sweeping(0, false, []))
    case Sweeping(i, locked, gone) =>
      if locked then s.(janitor := Sweeping(i + 1, false, gone))
      else if i >= NUM_SHARDS then s.(total := s.total - |gone|, janitor := Draining(gone))
      else if Free(w, s, i) then s.(janitor := Sweeping(i, true, gone))
      else s
    case Draining(gone) =>
      if gone == [] then s.(janitor := Resting)
      else s.(counts := Dec(s.counts, gone[0]), janitor := Draining(gone[1..]))
  }

  function Do(w: World, s: Race, a: Action): Race {
    match a
    case Admit(t, k) =>
      if t < |s.workers| && s.workers[t].Idle? && CountOf(s.counts, Host(w, k)) < w.cfg.maxPendingPerIp
      then Goto(s, t, Allowed(k)) else s
    case Delete(t, k) =>
      if t < |s.workers| && s.workers[t].Idle? && Free(w, s, w.at(k.0)) then Goto(s, t, Deleting(k)) else s
    case Advance(t) => if t < |s.workers| then Work(w, s, t) else s
    case Tidy => Clean(w, s)
    case Evict(k) =>
      if s.janitor.Sweeping? && s.janitor.locked && k in s.store && w.at(k.0) == s.janitor.shard
      then s.(store := s.store - {k}, janitor := s.janitor.(gone := s.janitor.gone + [Host(w, k)])) else s
  }

  function Start(n: nat): Race { Race({}, 0, map[], seq(n, _ => Idle), Resting) }

  function After(w: World, n: nat, schedule: seq<Action>): Race {
    if schedule == [] then Start(n)
    else Do(w, After(w, n, schedule[..|schedule|-1]), schedule[|schedule|-1])
  }

  // ---- what a worker owes ----

  /** The updates in flight: additions and subtractions of the total, places reserved under a cap,
      and the same host by host. */
  datatype Debt =
    | Adds | Subs | Reserved
    | AddsFor(ip: Ip) | SubsFor(ip: Ip) | ReservedFor(ip: Ip)

  function Owes(w: World, d: Debt, pc: Pc): nat {
    match d
    case Adds => if pc.Inserted? then 1 else 0
    case Subs => if pc.Removed? then 1 else 0
    case Reserved => if pc.Checked? || pc.Inserted? then 1 else 0
    case AddsFor(ip) => if (pc.Inserted? || pc.Totalled?) && Host(w, pc.k) == ip then 1 else 0
    case SubsFor(ip) => if (pc.Removed? || pc.Untotalled?) && Host(w, pc.k) == ip then 1 else 0
    case ReservedFor(ip) =>
      if (pc.Allowed? || pc.Storing? || pc.Checked? || pc.Inserted? || pc.Totalled?)
          && Host(w, pc.k) == ip then 1 else 0
  }

  function Owed(w: World, d: Debt, workers: seq<Pc>): nat {
    if workers == [] then 0
    else Owed(w, d, workers[..|workers|-1]) + Owes(w, d, workers[|workers|-1])
  }

  lemma {:induction false} OwedUpdate(w: World, d: Debt, workers: seq<Pc>, t: nat, pc: Pc)
    requires t < |workers|
    ensures Owed(w, d, workers[t := pc]) + Owes(w, d, workers[t]) == Owed(w, d, workers) + Owes(w, d, pc)
  {
    var n := |workers| - 1;
    if t == n {
      assert workers[t := pc][..n] == workers[..n];
    } else {
      assert workers[t := pc][..n] == workers[..n][t := pc];
      OwedUpdate(w, d, workers[..n], t, pc);
    }
  }

  lemma {:induction false} OwedAtMost(w: World, d: Debt, workers: seq<Pc>)
    ensures Owed(w, d, workers) <= |workers|
  {
    if workers != [] { OwedAtMost(w, d, workers[..|workers|-1]); }
  }

  lemma OwedByOthers(w: World, d: Debt, workers: seq<Pc>, t: nat, pc: Pc)
    requires t < |workers| && Owes(w, d, workers[t]) == 0 && Owes(w, d, pc) == 1
    ensures Owed(w, d, workers) < |workers|
  {
    OwedUpdate(w, d, workers, t, pc);
    OwedAtMost(w, d, workers[t := pc]);
  }

  lemma OwedByOne(w: World, d: Debt, workers: seq<Pc>, t: nat)
    requires t < |workers|
    ensures Owes(w, d, workers[t]) <= Owed(w, d, workers)
  {
    OwedUpdate(w, d, workers, t, Idle);
  }

  lemma {:induction false} NothingOwed(w: World, d: Debt, workers: seq<Pc>)
    requires forall u :: 0 <= u < |workers| ==> workers[u].Idle?
    ensures Owed(w, d, workers) == 0
  {
    if workers != [] { NothingOwed(w, d, workers[..|workers|-1]); }
  }

  /** Entries the cleanup task has taken out and not yet taken off the counter. */
  function Unpaid(j: Janitor): nat { if j.Sweeping? then |j.gone| else 0 }

  function UnpaidFor(j: Janitor, ip: Ip): nat {
    if j.Resting? then 0 else multiset(j.gone)[ip]
  }

  // ---- locks ----

  ghost predicate Exclusive(w: World, workers: seq<Pc>) {
    forall u, v :: 0 <= u < v < |workers| && Holds(workers[u]) && Holds(workers[v]) ==>
      w.at(workers[u].k.0) != w.at(workers[v].k.0)
  }

  ghost predicate Excluded(w: World, s: Race) {
    s.janitor.Sweeping? && s.janitor.locked ==>
      forall u :: 0 <= u < |s.workers| ==> !HoldsShard(w, s.workers[u], s.janitor.shard)
  }

  /** An entry that was put in and is not yet counted is still there. */
  ghost predicate Kept(store: set<PendKey>, workers: seq<Pc>) {
    forall u :: 0 <= u < |workers| && (workers[u].Inserted? || workers[u].Totalled?) ==> workers[u].k in store
  }

  /** The key a worker is about to put in is not there. */
  ghost predicate Absent(store: set<PendKey>, workers: seq<Pc>) {
    forall u :: 0 <= u < |workers| && workers[u].Checked? ==> workers[u].k !in store
  }

  ghost predicate Locked(w: World, s: Race) {
    Exclusive(w, s.workers) && Excluded(w, s) && Kept(s.store, s.workers) && Absent(s.store, s.workers)
  }

  lemma GotoExclusive(w: World, workers: seq<Pc>, t: nat, pc: Pc)
    requires t < |workers| && Exclusive(w, workers)
    requires Holds(pc) ==>
               || (Holds(workers[t]) && pc.k == workers[t].k)
               || forall u :: 0 <= u < |workers| ==> !HoldsShard(w, workers[u], w.at(pc.k.0))
    ensures Exclusive(w, workers[t := pc])
  {
    var next := workers[t := pc];
    forall u, v | 0 <= u < v < |next| && Holds(next[u]) && Holds(next[v])
        ensures w.at(next[u].k.0) != w.at(next[v].k.0) {
      assert u != t ==> !HoldsShard(w, workers[u], w.at(next[v].k.0)) || Holds(workers[v]);
      assert v != t ==> !HoldsShard(w, workers[v], w.at(next[u].k.0)) || Holds(workers[u]);
    }
  }

  /** Another holder works on a key of another shard. */
  lemma OthersElsewhere(w: World, workers: seq<Pc>, t: nat, u: nat)
    requires Exclusive(w, workers) && t < |workers| && u < |workers| && u != t && Holds(workers[t]) && Holds(workers[u])
    ensures workers[u].k != workers[t].k
  {
  }

  lemma WorkLocked(w: World, s: Race, t: nat)
    requires Locked(w, s) && t < |s.workers|
    ensures Locked(w, Work(w, s, t))
  {
    var s' := Work(w, s, t);
    GotoExclusive(w, s.workers, t, s'.workers[t]);
    forall u | 0 <= u < |s.workers| && u != t && Holds(s.workers[u]) && Holds(s.workers[t])
      ensures s.workers[u].k != s.workers[t].k
    {
      OthersElsewhere(w, s.workers, t, u);
    }
  }

  lemma DoLocked(w: World, s: Race, a: Action)
    requires Locked(w, s)
    ensures Locked(w, Do(w, s, a))
  {
    match a
    case Admit(t, k) => if t < |s.workers| { GotoExclusive(w, s.workers, t, Allowed(k)); }
    case Delete(t, k) => if t < |s.workers| && Free(w, s, w.at(k.0)) { GotoExclusive(w, s.workers, t, Deleting(k)); }
    case Advance(t) => if t < |s.workers| { WorkLocked(w, s, t); }
    case Tidy =>
    case Evict(k) =>
  }

  // ---- counters ----

  /** The counters differ from the entry counts by exactly the updates in flight. */
  ghost predicate TotalLags(w: World, s: Race) {
    s.total + Owed(w, Adds, s.workers) == |s.store| + Owed(w, Subs, s.workers) + Unpaid(s.janitor)
  }

  ghost predicate CountLags(w: World, s: Race, ip: Ip) {
    CountOf(s.counts, ip) + Owed(w, AddsFor(ip), s.workers)
      == |PendingFrom(w.cfg, s.store, ip)| + Owed(w, SubsFor(ip), s.workers) + UnpaidFor(s.janitor, ip)
  }

  /** The keys behind the debts `d`; `d` is one that only lock holders have. */
  ghost function Behind(w: World, d: Debt, workers: seq<Pc>): set<PendKey> {
    set u | 0 <= u < |workers| && Holds(workers[u]) && Owes(w, d, workers[u]) == 1 :: workers[u].k
  }

  ghost function ShardsBehind(w: World, d: Debt, workers: seq<Pc>): set<nat> {
    set u | 0 <= u < |workers| && Holds(workers[u]) && Owes(w, d, workers[u]) == 1 :: w.at(workers[u].k.0)
  }

  lemma BehindStep(w: World, d: Debt, init: seq<Pc>, last: Pc)
    requires Exclusive(w, init + [last]) && (Owes(w, d, last) == 1 ==> Holds(last))
    ensures Owes(w, d, last) == 1 ==> last.k !in Behind(w, d, init) && w.at(last.k.0) !in ShardsBehind(w, d, init)
    ensures Behind(w, d, init + [last]) == Behind(w, d, init) + if Owes(w, d, last) == 1 then {last.k} else {}
    ensures ShardsBehind(w, d, init + [last])
            == ShardsBehind(w, d, init) + if Owes(w, d, last) == 1 then {w.at(last.k.0)} else {}
  {
    hide Owes, Holds;
    var all, n := init + [last], |init|;
    assert all[n] == last && forall u :: 0 <= u < n ==> all[u] == init[u];
  }

  lemma BehindNone(w: World, d: Debt)
    ensures Behind(w, d, []) == {} && ShardsBehind(w, d, []) == {}
  {
  }

  lemma OwesHolding(w: World, d: Debt, pc: Pc)
    requires !d.ReservedFor?
    ensures Owes(w, d, pc) == 0 || (Owes(w, d, pc) == 1 && Holds(pc))
  {
  }

  lemma ExclusivePrefix(w: World, workers: seq<Pc>, n: nat)
    requires Exclusive(w, workers) && n <= |workers|
    ensures Exclusive(w, workers[..n])
  {
  }

  lemma {:induction false} BehindSize(w: World, d: Debt, workers: seq<Pc>)
    requires Exclusive(w, workers) && !d.ReservedFor?
    ensures Owed(w, d, workers) == |Behind(w, d, workers)| == |ShardsBehind(w, d, workers)|
  {
    hide Behind, ShardsBehind, Exclusive, Owes, Holds;
    if workers == [] {
      BehindNone(w, d);
    } else {
      var n := |workers| - 1;
      var init, last := workers[..n], workers[n];
      assert workers == init + [last];
      OwesHolding(w, d, last);
      BehindStep(w, d, init, last);
      ExclusivePrefix(w, workers, n);
      BehindSize(w, d, init);
    }
  }

  lemma ShardCount(some: set<nat>)
    requires forall i :: i in some ==> i < NUM_SHARDS
    ensures |some| <= NUM_SHARDS
  {
    SubsetSize(some, {0, 1, 2, 3, 4, 5, 6, 7, 8, 9, 10, 11, 12, 13, 14, 15});
  }

  /** At most one update per shard is in flight. */
  lemma OnePerShard(w: World, d: Debt, workers: seq<Pc>)
    requires Exclusive(w, workers) && !d.ReservedFor?
    ensures Owed(w, d, workers) <= NUM_SHARDS
  {
    BehindSize(w, d, workers);
    ShardCount(ShardsBehind(w, d, workers));
  }

  lemma AddsInStore(w: World, s: Race)
    requires Locked(w, s)
    ensures Owed(w, Adds, s.workers) <= |s.store|
  {
    BehindSize(w, Adds, s.workers);
    SubsetSize(Behind(w, Adds, s.workers), s.store);
  }

  lemma AddsForInStore(w: World, s: Race, ip: Ip)
    requires Locked(w, s)
    ensures Owed(w, AddsFor(ip), s.workers) <= |PendingFrom(w.cfg, s.store, ip)|
  {
    BehindSize(w, AddsFor(ip), s.workers);
    SubsetSize(Behind(w, AddsFor(ip), s.workers), PendingFrom(w.cfg, s.store, ip));
  }

  /** `fetch_sub` never takes the total below zero. */
  lemma SubtractionsCovered(w: World, s: Race)
    requires Locked(w, s) && TotalLags(w, s)
    ensures s.total >= Owed(w, Subs, s.workers) + Unpaid(s.janitor)
    ensures forall t :: 0 <= t < |s.workers| && s.workers[t].Removed? ==> s.total >= 1
    ensures s.janitor.Sweeping? ==> s.total >= |s.janitor.gone|
  {
    AddsInStore(w, s);
    forall t | 0 <= t < |s.workers| && s.workers[t].Removed? ensures s.total >= 1 { OwedByOne(w, Subs, s.workers, t); }
  }

  /** `saturating_sub` never finds a host counter at zero, or missing. */
  lemma DecrementsCovered(w: World, s: Race)
    requires Locked(w, s) && forall ip :: CountLags(w, s, ip)
    ensures forall t :: 0 <= t < |s.workers| && s.workers[t].Untotalled? ==>
              CountOf(s.counts, Host(w, s.workers[t].k)) >= 1
    ensures s.janitor.Draining? && s.janitor.gone != [] ==> CountOf(s.counts, s.janitor.gone[0]) >= 1
  {
    forall t | 0 <= t < |s.workers| && s.workers[t].Untotalled?
      ensures CountOf(s.counts, Host(w, s.workers[t].k)) >= 1
    {
      var ip := Host(w, s.workers[t].k);
      assert CountLags(w, s, ip);
      AddsForInStore(w, s, ip);
      OwedByOne(w, SubsFor(ip), s.workers, t);
    }
    if s.janitor.Draining? && s.janitor.gone != [] {
      var ip := s.janitor.gone[0];
      assert CountLags(w, s, ip);
      AddsForInStore(w, s, ip);
      assert ip in multiset(s.janitor.gone);
    }
  }

  lemma MoveTotals(w: World, s: Race, t: nat, pc: Pc)
    requires t < |s.workers|
    ensures Owed(w, Adds, s.workers[t := pc]) + Owes(w, Adds, s.workers[t])
            == Owed(w, Adds, s.workers) + Owes(w, Adds, pc)
    ensures Owed(w, Subs, s.workers[t := pc]) + Owes(w, Subs, s.workers[t])
            == Owed(w, Subs, s.workers) + Owes(w, Subs, pc)
  {
    OwedUpdate(w, Adds, s.workers, t, pc);
    OwedUpdate(w, Subs, s.workers, t, pc);
  }

  lemma WorkTotal(w: World, s: Race, t: nat)
    requires Absent(s.store, s.workers) && TotalLags(w, s) && t < |s.workers|
    ensures TotalLags(w, Work(w, s, t))
  {
    hide Owed, Free, CountOf, Inc, Dec;
    match s.workers[t]
    case Allowed(k) => MoveTotals(w, s, t, Storing(k));
    case Storing(k) => MoveTotals(w, s, t, Idle); MoveTotals(w, s, t, Checked(k));
    case Checked(k) => MoveTotals(w, s, t, Inserted(k));
    case Inserted(k) => MoveTotals(w, s, t, Totalled(k));
    case Deleting(k) => MoveTotals(w, s, t, Idle); MoveTotals(w, s, t, Removed(k));
    case Removed(k) => MoveTotals(w, s, t, Untotalled(k));
    case _ => MoveTotals(w, s, t, Idle);
  }

  lemma DoTotal(w: World, s: Race, a: Action)
    requires Locked(w, s) && TotalLags(w, s)
    ensures TotalLags(w, Do(w, s, a))
  {
    hide Owed, Free, Exclusive, Excluded, Kept, Absent, CountOf, Work, Dec;
    match a
    case Admit(t, k) => if t < |s.workers| { MoveTotals(w, s, t, Allowed(k)); }
    case Delete(t, k) => if t < |s.workers| { MoveTotals(w, s, t, Deleting(k)); }
    case Advance(t) => if t < |s.workers| { WorkTotal(w, s, t); }
    case Tidy =>
    case Evict(k) =>
  }

  /** A worker that starts or gives up an operation owes nothing for it. */
  lemma GotoCount(w: World, s: Race, t: nat, pc: Pc, ip: Ip)
    requires CountLags(w, s, ip) && t < |s.workers| && s.workers[t].Idle? && (pc.Allowed? || pc.Deleting?)
    ensures CountLags(w, Goto(s, t, pc), ip)
  {
    hide Owed, CountOf, PendingFrom;
    MoveOwed(w, s, t, pc, ip);
  }

  lemma EvictCount(w: World, s: Race, k: PendKey, ip: Ip)
    requires CountLags(w, s, ip)
    ensures CountLags(w, Do(w, s, Evict(k)), ip)
  {
    hide Owed, CountOf, PendingFrom;
    Tables.PendingInsert(w.cfg, s.store - {k}, k, ip);
    assert k in s.store ==> s.store - {k} + {k} == s.store;
  }

  lemma DoCount(w: World, s: Race, a: Action, ip: Ip)
    requires Locked(w, s) && forall j :: CountLags(w, s, j)
    ensures CountLags(w, Do(w, s, a), ip)
  {
    hide CountLags, Free, Locked, CountOf, Work, Clean, Goto;
    DecrementsCovered(w, s);
    match a
    case Admit(t, k) => if t < |s.workers| && s.workers[t].Idle? { GotoCount(w, s, t, Allowed(k), ip); }
    case Delete(t, k) => if t < |s.workers| && s.workers[t].Idle? { GotoCount(w, s, t, Deleting(k), ip); }
    case Advance(t) => if t < |s.workers| { WorkCount(w, s, t, ip); }
    case Tidy => CleanCount(w, s, ip);
    case Evict(k) => EvictCount(w, s, k, ip);
  }

  lemma MoveOwed(w: World, s: Race, t: nat, pc: Pc, ip: Ip)
    requires t < |s.workers|
    ensures Owed(w, AddsFor(ip), s.workers[t := pc]) + Owes(w, AddsFor(ip), s.workers[t])
            == Owed(w, AddsFor(ip), s.workers) + Owes(w, AddsFor(ip), pc)
    ensures Owed(w, SubsFor(ip), s.workers[t := pc]) + Owes(w, SubsFor(ip), s.workers[t])
            == Owed(w, SubsFor(ip), s.workers) + Owes(w, SubsFor(ip), pc)
  {
    OwedUpdate(w, AddsFor(ip), s.workers, t, pc);
    OwedUpdate(w, SubsFor(ip), s.workers, t, pc);
  }

  lemma WorkCount(w: World, s: Race, t: nat, ip: Ip)
    requires Locked(w, s) && CountLags(w, s, ip) && t < |s.workers|
    requires s.workers[t].Untotalled? ==> CountOf(s.counts, Host(w, s.workers[t].k)) >= 1
    ensures CountLags(w, Work(w, s, t), ip)
  {
    hide CountOf, Inc, Dec, PendingFrom, Owed;
    var s' := Work(w, s, t);
    MoveOwed(w, s, t, s'.workers[t], ip);
    assert s'.workers == s.workers[t := s'.workers[t]];
    match s.workers[t]
    case Checked(k) => Tables.PendingInsert(w.cfg, s.store, k, ip);
    case Totalled(k) => IncCount(s.counts, Host(w, k), ip);
    case Deleting(k) =>
      Tables.PendingInsert(w.cfg, s.store - {k}, k, ip);
      assert k in s.store ==> s.store - {k} + {k} == s.store;
    case Untotalled(k) => DecCount(s.counts, Host(w, k), ip);
    case _ =>
  }

  lemma CleanCount(w: World, s: Race, ip: Ip)
    requires CountLags(w, s, ip)
    requires s.janitor.Draining? && s.janitor.gone != [] ==> CountOf(s.counts, s.janitor.gone[0]) >= 1
    ensures CountLags(w, Clean(w, s), ip)
  {
    hide CountOf, Inc, Dec, PendingFrom, Owed;
    if s.janitor.Draining? && s.janitor.gone != [] {
      var gone := s.janitor.gone;
      DecCount(s.counts, gone[0], ip);
      assert gone == [gone[0]] + gone[1..];
    }
  }

  // ---- caps ----

  /** How far past a cap concurrent checks can go. */
  function Slack(n: nat): nat { if n <= NUM_SHARDS then n else NUM_SHARDS }

  ghost predicate TotalCapped(w: World, s: Race) {
    s.total + Owed(w, Reserved, s.workers) < w.cfg.maxPendingGlobal + Slack(|s.workers|)
  }

  ghost predicate CountCapped(w: World, s: Race, ip: Ip) {
    CountOf(s.counts, ip) + Owed(w, ReservedFor(ip), s.workers) < w.cfg.maxPendingPerIp + |s.workers|
  }

  lemma DoTotalCapped(w: World, s: Race, a: Action)
    requires Locked(w, s) && TotalLags(w, s) && TotalCapped(w, s)
    ensures TotalCapped(w, Do(w, s, a))
  {
    DoLocked(w, s, a);
    hide Owed, Free, Inc, Dec, CountOf, Exclusive, Kept, Excluded, Absent;
    var s' := Do(w, s, a);
    var t := if a.Advance? || a.Admit? || a.Delete? then a.t else |s.workers|;
    if t < |s.workers| {
      OwedUpdate(w, Reserved, s.workers, t, s'.workers[t]);
      assert s'.workers == s.workers[t := s'.workers[t]];
      if s.workers[t].Storing? {
        OwedByOthers(w, Reserved, s.workers, t, Checked(s.workers[t].k));
        OnePerShard(w, Reserved, s'.workers);
      }
    }
  }

  lemma DoCountCapped(w: World, s: Race, a: Action, ip: Ip)
    requires CountCapped(w, s, ip)
    ensures CountCapped(w, Do(w, s, a), ip)
  {
    hide Inc, Dec, CountOf, Owed, Free;
    var s' := Do(w, s, a);
    var t := if a.Advance? || a.Admit? || a.Delete? then a.t else |s.workers|;
    if t < |s.workers| {
      OwedUpdate(w, ReservedFor(ip), s.workers, t, s'.workers[t]);
      assert s'.workers == s.workers[t := s'.workers[t]];
      if s.workers[t].Idle? && a.Admit?
          && Host(w, a.k) == ip { OwedByOthers(w, ReservedFor(ip), s.workers, t, Allowed(a.k)); }
      if s.workers[t].Totalled? { IncCount(s.counts, Host(w, s.workers[t].k), ip); }
      if s.workers[t].Untotalled? { DecCount(s.counts, Host(w, s.workers[t].k), ip); }
    }
    if s.janitor.Draining? && s.janitor.gone != [] { DecCount(s.counts, s.janitor.gone[0], ip); }
  }

  // ---- every schedule ----

  ghost predicate Sound(w: World, s: Race) {
    Locked(w, s) && TotalLags(w, s) && TotalCapped(w, s) && forall ip :: CountLags(w, s, ip) && CountCapped(w, s, ip)
  }

  lemma StartSound(w: World, n: nat)
    requires n >= 1
    ensures Sound(w, Start(n))
  {
    var s := Start(n);
    NothingOwed(w, Adds, s.workers);
    NothingOwed(w, Subs, s.workers);
    NothingOwed(w, Reserved, s.workers);
    forall ip ensures CountLags(w, s, ip) && CountCapped(w, s, ip) {
      NothingOwed(w, AddsFor(ip), s.workers);
      NothingOwed(w, SubsFor(ip), s.workers);
      NothingOwed(w, ReservedFor(ip), s.workers);
      assert PendingFrom(w.cfg, s.store, ip) == {};
    }
  }

  lemma DoSound(w: World, s: Race, a: Action)
    requires Sound(w, s)
    ensures Sound(w, Do(w, s, a)) && |Do(w, s, a).workers| == |s.workers|
  {
    hide Locked, TotalLags, TotalCapped, CountLags, CountCapped;
    DoLocked(w, s, a);
    DoTotal(w, s, a);
    DoTotalCapped(w, s, a);
    forall ip ensures CountLags(w, Do(w, s, a), ip) && CountCapped(w, Do(w, s, a), ip) {
      DoCount(w, s, a, ip);
      DoCountCapped(w, s, a, ip);
    }
  }

  lemma {:induction false} EverySchedule(w: World, n: nat, schedule: seq<Action>)
    requires n >= 1
    ensures Sound(w, After(w, n, schedule)) && |After(w, n, schedule).workers| == n
  {
    hide Sound, Do;
    if schedule == [] {
      StartSound(w, n);
    } else {
      EverySchedule(w, n, schedule[..|schedule|-1]);
      DoSound(w, After(w, n, schedule[..|schedule|-1]), schedule[|schedule|-1]);
    }
  }

  /** In every schedule the total is never negative when `fetch_sub` is due, no host counter is
      zero when it is to be decremented, and the counters lag by the updates in flight only. */
  lemma CountersSafe(w: World, n: nat, schedule: seq<Action>)
    requires n >= 1
    ensures var s := After(w, n, schedule);
            && s.total >= 0 && TotalLags(w, s) && (forall ip :: CountLags(w, s, ip))
            && (forall t :: 0 <= t < |s.workers| && s.workers[t].Removed? ==> s.total >= 1)
            && (s.janitor.Sweeping? ==> s.total >= |s.janitor.gone|)
            && (forall t :: 0 <= t < |s.workers| && s.workers[t].Untotalled? ==>
                  CountOf(s.counts, Host(w, s.workers[t].k)) >= 1)
            && (s.janitor.Draining? && s.janitor.gone != [] ==> CountOf(s.counts, s.janitor.gone[0]) >= 1)
  {
    hide Locked, TotalLags, CountLags, TotalCapped, CountCapped;
    EverySchedule(w, n, schedule);
    var s := After(w, n, schedule);
    SubtractionsCovered(w, s);
    DecrementsCovered(w, s);
  }

  /** With `n` workers the store never holds more than `n - 1` entries (and never more than 15)
      past the global cap, nor a host more than `n - 1` past its own; with one worker both caps
      are strict. */
  lemma CapsOvershoot(w: World, n: nat, schedule: seq<Action>, ip: Ip)
    requires n >= 1
    ensures var s := After(w, n, schedule);
            && s.total <= w.cfg.maxPendingGlobal + Slack(n) - 1
            && |s.store| <= w.cfg.maxPendingGlobal + Slack(n) - 1
            && CountOf(s.counts, ip) <= w.cfg.maxPendingPerIp + n - 1
            && |PendingFrom(w.cfg, s.store, ip)| <= w.cfg.maxPendingPerIp + n - 1
  {
    EverySchedule(w, n, schedule);
    var s := After(w, n, schedule);
    assert CountLags(w, s, ip) && CountCapped(w, s, ip);
    OwedMonotone(w, Adds, Reserved, s.workers);
    OwedMonotone(w, AddsFor(ip), ReservedFor(ip), s.workers);
  }

  lemma {:induction false} OwedMonotone(w: World, d: Debt, e: Debt, workers: seq<Pc>)
    requires forall pc :: Owes(w, d, pc) <= Owes(w, e, pc)
    ensures Owed(w, d, workers) <= Owed(w, e, workers)
  {
    if workers != [] { OwedMonotone(w, d, e, workers[..|workers|-1]); }
  }

  /** No operation is in progress. */
  ghost predicate Quiet(s: Race) {
    s.janitor.Resting? && forall t :: 0 <= t < |s.workers| ==> s.workers[t].Idle?
  }

  /** Whenever no operation is in progress, the counters are exact. */
  lemma QuietIsExact(w: World, n: nat, schedule: seq<Action>)
    requires n >= 1
    requires Quiet(After(w, n, schedule))
    ensures var s := After(w, n, schedule);
            s.total == |s.store| && forall ip :: CountOf(s.counts, ip) == |PendingFrom(w.cfg, s.store, ip)|
  {
    EverySchedule(w, n, schedule);
    var s := After(w, n, schedule);
    NothingOwed(w, Adds, s.workers);
    NothingOwed(w, Subs, s.workers);
    forall ip ensures CountOf(s.counts, ip) == |PendingFrom(w.cfg, s.store, ip)| {
      assert CountLags(w, s, ip);
      NothingOwed(w, AddsFor(ip), s.workers);
      NothingOwed(w, SubsFor(ip), s.workers);
    }
  }

  // ---- the overshoot is real ----

  lemma AfterSnoc(w: World, n: nat, schedule: seq<Action>, a: Action)
    ensures After(w, n, schedule + [a]) == Do(w, After(w, n, schedule), a)
  {
    assert (schedule + [a])[..|schedule|] == schedule;
  }

  /** New keys of pairwise different shards, of hosts below their cap. */
  ghost predicate Crowd(w: World, s: Race, keys: seq<PendKey>) {
    && (forall i :: 0 <= i < |keys| ==>
          keys[i] !in s.store && CountOf(s.counts, Host(w, keys[i])) < w.cfg.maxPendingPerIp)
    && (forall i, j :: 0 <= i < j < |keys| ==> w.at(keys[i].0) != w.at(keys[j].0))
  }

  /** The first `i` workers have passed the total check for their keys, the others rest. */
  function Waiting(keys: seq<PendKey>, i: nat): (pcs: seq<Pc>)
    requires i <= |keys|
  {
    seq(|keys|, u requires 0 <= u < |keys| => if u < i then Checked(keys[u]) else Idle)
  }

  /** The first `i` workers have counted their entries in, the others still wait. */
  function Counted(keys: seq<PendKey>, i: nat): (pcs: seq<Pc>)
    requires i <= |keys|
  {
    seq(|keys|, u requires 0 <= u < |keys| => if u < i then Totalled(keys[u]) else Checked(keys[u]))
  }

  lemma OneWaits(w: World, s: Race, keys: seq<PendKey>, i: nat)
    requires i < |keys| && s.workers == Waiting(keys, i) && s.janitor.Resting? && Crowd(w, s, keys)
    requires s.total < w.cfg.maxPendingGlobal
    ensures Do(w, Do(w, Do(w, s, Admit(i, keys[i])), Advance(i)), Advance(i)) == s.(workers := Waiting(keys, i + 1))
  {
    var s1 := Do(w, s, Admit(i, keys[i]));
    assert s1 == Goto(s, i, Allowed(keys[i]));
    forall u | 0 <= u < |s1.workers| ensures !HoldsShard(w, s1.workers[u], w.at(keys[i].0)) {
    }
    var s2 := Do(w, s1, Advance(i));
    assert s2.workers == s.workers[i := Storing(keys[i])];
    var s3 := Do(w, s2, Advance(i));
    assert s3.workers == Waiting(keys, i + 1);
  }

  lemma OneCounts(w: World, s: Race, keys: seq<PendKey>, i: nat)
    requires i < |keys| && s.workers == Counted(keys, i)
    ensures Do(w, Do(w, s, Advance(i)), Advance(i))
         == s.(workers := Counted(keys, i + 1), store := s.store + {keys[i]}, total := s.total + 1)
  {
    var s1 := Do(w, s, Advance(i));
    assert s1.workers == s.workers[i := Inserted(keys[i])];
    var s2 := Do(w, s1, Advance(i));
    assert s2.workers == Counted(keys, i + 1);
  }

  lemma {:induction false} AllWait(w: World, schedule: seq<Action>, keys: seq<PendKey>, i: nat)
    returns (longer: seq<Action>)
    requires i <= |keys|
    requires var s := After(w, |keys|, schedule);
             s.workers == Waiting(keys, 0) && s.janitor.Resting?
                 && Crowd(w, s, keys) && s.total < w.cfg.maxPendingGlobal
    ensures After(w, |keys|, longer) == After(w, |keys|, schedule).(workers := Waiting(keys, i))
  {
    hide Do, After, Waiting;
    if i == 0 {
      longer := schedule;
    } else {
      var n, s := |keys|, After(w, |keys|, schedule);
      longer := AllWait(w, schedule, keys, i - 1);
      OneWaits(w, s.(workers := Waiting(keys, i - 1)), keys, i - 1);
      AfterSnoc(w, n, longer, Admit(i - 1, keys[i - 1]));
      AfterSnoc(w, n, longer + [Admit(i - 1, keys[i - 1])], Advance(i - 1));
      AfterSnoc(w, n, longer + [Admit(i - 1, keys[i - 1])] + [Advance(i - 1)], Advance(i - 1));
      longer := longer + [Admit(i - 1, keys[i - 1])] + [Advance(i - 1)] + [Advance(i - 1)];
    }
  }

  lemma {:induction false} AllCount(w: World, schedule: seq<Action>, keys: seq<PendKey>, i: nat)
    returns (longer: seq<Action>)
    requires i <= |keys| && After(w, |keys|, schedule).workers == Counted(keys, 0)
    ensures After(w, |keys|, longer).workers == Counted(keys, i)
    ensures After(w, |keys|, longer).total == After(w, |keys|, schedule).total + i
  {
    hide Do, After, Counted;
    if i == 0 {
      longer := schedule;
    } else {
      longer := AllCount(w, schedule, keys, i - 1);
      OneCounts(w, After(w, |keys|, longer), keys, i - 1);
      AfterSnoc(w, |keys|, longer, Advance(i - 1));
      AfterSnoc(w, |keys|, longer + [Advance(i - 1)], Advance(i - 1));
      longer := longer + [Advance(i - 1)] + [Advance(i - 1)];
    }
  }

  /** From a quiet state one short of the cap, as many workers as there are keys in different
      shards can all pass the check, and take the total to the bound of `CapsOvershoot`. */
  lemma OvershootReached(w: World, schedule: seq<Action>, keys: seq<PendKey>) returns (longer: seq<Action>)
    requires var s := After(w, |keys|, schedule);
             && Quiet(s) && |s.workers| == |keys| && Crowd(w, s, keys) && s.total == w.cfg.maxPendingGlobal - 1
    ensures After(w, |keys|, longer).total == w.cfg.maxPendingGlobal + |keys| - 1
  {
    var s := After(w, |keys|, schedule);
    assert s.workers == Waiting(keys, 0);
    longer := AllWait(w, schedule, keys, |keys|);
    assert Waiting(keys, |keys|) == Counted(keys, 0);
    longer := AllCount(w, longer, keys, |keys|);
  }

  // ---- and it is reached from the start ----

  /** No lock is held, and the cleanup task rests. */
  ghost predicate Unlocked(s: Race) {
    s.janitor.Resting? && forall t :: 0 <= t < |s.workers| ==> !Holds(s.workers[t])
  }

  function FiveMore(w: World, s: Race, t: nat): Race {
    Do(w, Do(w, Do(w, Do(w, Do(w, s, Advance(t)), Advance(t)), Advance(t)), Advance(t)), Advance(t))
  }

  function Fives(t: nat): seq<Action> { [Advance(t), Advance(t), Advance(t), Advance(t), Advance(t)] }

  lemma AfterFive(w: World, n: nat, schedule: seq<Action>, t: nat)
    ensures After(w, n, schedule + Fives(t)) == FiveMore(w, After(w, n, schedule), t)
  {
    hide Do, After;
    var a := Advance(t);
    AfterSnoc(w, n, schedule, a);
    AfterSnoc(w, n, schedule + [a], a);
    AfterSnoc(w, n, schedule + [a] + [a], a);
    AfterSnoc(w, n, schedule + [a] + [a] + [a], a);
    AfterSnoc(w, n, schedule + [a] + [a] + [a] + [a], a);
    assert schedule + [a] + [a] + [a] + [a] + [a] == schedule + Fives(t);
  }

  /** A worker that was let in stores a new entry below the cap without interruption. */
  lemma StoresThrough(w: World, s: Race, t: nat)
    requires t < |s.workers| && s.workers[t].Allowed? && Unlocked(s)
    requires s.workers[t].k !in s.store && s.total < w.cfg.maxPendingGlobal
    ensures var k := s.workers[t].k;
            FiveMore(w, s, t) == s.(workers := s.workers[t := Idle], store := s.store + {k}, total := s.total + 1,
                                    counts := Inc(s.counts, Host(w, k)))
  {
    hide Inc;
    var k := s.workers[t].k;
    var s1 := Do(w, s, Advance(t));
    assert s1 == Goto(s, t, Storing(k));
    var s2 := Do(w, s1, Advance(t));
    assert s2.workers == s.workers[t := Checked(k)];
    var s3 := Do(w, s2, Advance(t));
    assert s3.workers == s.workers[t := Inserted(k)];
    var s4 := Do(w, s3, Advance(t));
    assert s4.workers == s.workers[t := Totalled(k)];
    var s5 := Do(w, s4, Advance(t));
    assert s5.workers == s.workers[t := Idle];
  }

  /** One that finds its key there, or the total at the cap, gives up and leaves everything as it was. */
  lemma GivesUp(w: World, s: Race, t: nat)
    requires t < |s.workers| && s.workers[t].Allowed? && Unlocked(s)
    requires s.workers[t].k in s.store || s.total >= w.cfg.maxPendingGlobal
    ensures Do(w, Do(w, s, Advance(t)), Advance(t)) == s.(workers := s.workers[t := Idle])
  {
    var k := s.workers[t].k;
    var s1 := Do(w, s, Advance(t));
    assert s1 == Goto(s, t, Storing(k));
    assert s1.workers[t := Idle] == s.workers[t := Idle];
  }

  /** A deletion without interruption takes the entry out and both counters down, and changes nothing if there is no
      such entry. */
  lemma DeletesThrough(w: World, s: Race, t: nat, k: PendKey)
    requires t < |s.workers| && s.workers[t].Idle? && Unlocked(s)
    ensures var s1 := Do(w, Do(w, s, Delete(t, k)), Advance(t));
            if k !in s.store then s1 == s
            else Do(w, Do(w, s1, Advance(t)), Advance(t))
                   == s.(store := s.store - {k}, total := s.total - 1, counts := Dec(s.counts, Host(w, k)))
  {
    hide Dec;
    var s0 := Do(w, s, Delete(t, k));
    assert s0 == Goto(s, t, Deleting(k));
    var s1 := Do(w, s0, Advance(t));
    assert s.workers[t := Idle] == s.workers;
    if k in s.store {
      assert s1.workers == s.workers[t := Removed(k)];
      var s2 := Do(w, s1, Advance(t));
      assert s2.workers == s.workers[t := Untotalled(k)];
      var s3 := Do(w, s2, Advance(t));
      assert s3.workers == s.workers[t := Idle];
    } else {
      assert s1.workers == s.workers[t := Idle];
    }
  }

  // ---- the cleanup task gets its work done ----

  /** Those of the keys whose shard comes before `i`. */
  ghost function Before(w: World, keys: set<PendKey>, i: nat): set<PendKey> { set k | k in keys && w.at(k.0) < i }

  lemma {:induction false} EvictAll(w: World, n: nat, schedule: seq<Action>, some: set<PendKey>)
    returns (longer: seq<Action>, gone: seq<Ip>)
    requires var s := After(w, n, schedule);
             && s.janitor.Sweeping? && s.janitor.locked && some <= s.store
             && forall k :: k in some ==> w.at(k.0) == s.janitor.shard
    ensures var s := After(w, n, schedule);
            After(w, n, longer) == s.(store := s.store - some, janitor := s.janitor.(gone := gone))
    decreases |some|
  {
    longer, gone := schedule, After(w, n, schedule).janitor.gone;
    if some != {} {
      hide After;
      var s := After(w, n, schedule);
      var k :| k in some;
      AfterSnoc(w, n, schedule, Evict(k));
      longer, gone := EvictAll(w, n, schedule + [Evict(k)], some - {k});
      assert s.store - {k} - (some - {k}) == s.store - some;
    } else {
      assert After(w, n, schedule).store - some == After(w, n, schedule).store;
    }
  }

  lemma {:induction false} SweepTo(w: World, n: nat, schedule: seq<Action>, keys: set<PendKey>, i: nat)
    returns (longer: seq<Action>, gone: seq<Ip>)
    requires Quiet(After(w, n, schedule)) && keys <= After(w, n, schedule).store && i <= NUM_SHARDS
    ensures var s := After(w, n, schedule);
            After(w, n, longer) == s.(store := s.store - Before(w, keys, i), janitor := Sweeping(i, false, gone))
  {
    hide After;
    var s := After(w, n, schedule);
    if i == 0 {
      longer, gone := schedule + [Tidy], [];
      AfterSnoc(w, n, schedule, Tidy);
      assert s.store - Before(w, keys, 0) == s.store;
    } else {
      longer, gone := SweepTo(w, n, schedule, keys, i - 1);
      var done, here := Before(w, keys, i - 1), set k | k in keys && w.at(k.0) == i - 1;
      AfterSnoc(w, n, longer, Tidy);
      longer, gone := EvictAll(w, n, longer + [Tidy], here);
      AfterSnoc(w, n, longer, Tidy);
      longer := longer + [Tidy];
      assert Before(w, keys, i) == done + here;
      assert s.store - done - here == s.store - Before(w, keys, i);
    }
  }

  lemma {:induction false} DrainAll(w: World, n: nat, schedule: seq<Action>) returns (longer: seq<Action>)
    requires After(w, n, schedule).janitor.Draining?
    ensures var s, s' := After(w, n, schedule), After(w, n, longer);
            s'.store == s.store && s'.workers == s.workers && s'.janitor == Resting
    decreases |After(w, n, schedule).janitor.gone|
  {
    hide After, Dec;
    AfterSnoc(w, n, schedule, Tidy);
    longer := schedule + [Tidy];
    if After(w, n, schedule).janitor.gone != [] { longer := DrainAll(w, n, longer); }
  }

  /** Whatever entries it finds expired, from a quiet state the cleanup task has a schedule that takes out exactly those
      and ends quiet, with all counters exact. */
  lemma Cleans(w: World, n: nat, schedule: seq<Action>, keys: set<PendKey>) returns (longer: seq<Action>)
    requires n >= 1 && Quiet(After(w, n, schedule)) && keys <= After(w, n, schedule).store
    ensures var s := After(w, n, longer);
            && Quiet(s) && s.store == After(w, n, schedule).store - keys && s.total == |s.store|
            && forall ip :: CountOf(s.counts, ip) == |PendingFrom(w.cfg, s.store, ip)|
  {
    hide After, CountOf, PendingFrom;
    var gone;
    longer, gone := SweepTo(w, n, schedule, keys, NUM_SHARDS);
    assert Before(w, keys, NUM_SHARDS) == keys;
    AfterSnoc(w, n, longer, Tidy);
    longer := DrainAll(w, n, longer + [Tidy]);
    QuietIsExact(w, n, longer);
  }

  ghost predicate Distinct(keys: seq<PendKey>) { forall i, j :: 0 <= i < j < |keys| ==> keys[i] != keys[j] }

  /** Distinct keys can be stored one by one, as long as they keep both caps. */
  lemma {:induction false} Fill(w: World, n: nat, keys: seq<PendKey>) returns (schedule: seq<Action>)
    requires n >= 1 && Distinct(keys) && |keys| <= w.cfg.maxPendingGlobal
    requires forall ip :: |PendingFrom(w.cfg, Elements(keys), ip)| <= w.cfg.maxPendingPerIp
    ensures var s := After(w, n, schedule);
            Quiet(s) && |s.workers| == n && s.store == Elements(keys) && s.total == |keys|
  {
    hide Do, CountOf, PendingFrom, Elements;
    if keys == [] {
      schedule := [];
      NoneStored();
    } else {
      var m := |keys| - 1;
      var init, k := keys[..m], keys[m];
      assert keys == init + [k];
      FewerStored(w, init, k);
      schedule := Fill(w, n, init);
      FillOne(w, n, schedule, init, k);
      schedule := schedule + [Admit(0, k)] + Fives(0);
    }
  }

  lemma NoneStored()
    ensures Elements<PendKey>([]) == {}
  {
  }

  lemma FewerStored(w: World, init: seq<PendKey>, k: PendKey)
    requires Distinct(init + [k])
    requires forall ip :: |PendingFrom(w.cfg, Elements(init + [k]), ip)| <= w.cfg.maxPendingPerIp
    ensures Elements(init + [k]) == Elements(init) + {k} && k !in Elements(init) && Distinct(init)
    ensures forall ip :: |PendingFrom(w.cfg, Elements(init), ip)| <= w.cfg.maxPendingPerIp
    ensures |PendingFrom(w.cfg, Elements(init), Host(w, k))| < w.cfg.maxPendingPerIp
  {
    ElementsSnoc(init, k);
    var all := init + [k];
    assert forall i :: 0 <= i < |init| ==> all[i] == init[i] && all[|init|] == k;
    forall ip ensures |PendingFrom(w.cfg, Elements(init), ip)| <= w.cfg.maxPendingPerIp {
      Tables.PendingInsert(w.cfg, Elements(init), k, ip);
    }
    Tables.PendingInsert(w.cfg, Elements(init), k, Host(w, k));
  }

  lemma FillOne(w: World, n: nat, schedule: seq<Action>, init: seq<PendKey>, k: PendKey)
    requires var s := After(w, n, schedule);
             Quiet(s) && |s.workers| == n >= 1 && s.store == Elements(init)
                 && s.total == |init| < w.cfg.maxPendingGlobal
    requires k !in Elements(init) && |PendingFrom(w.cfg, Elements(init), Host(w, k))| < w.cfg.maxPendingPerIp
    ensures var s := After(w, n, schedule + [Admit(0, k)] + Fives(0));
            Quiet(s) && |s.workers| == n && s.store == Elements(init) + {k} && s.total == |init| + 1
  {
    hide Inc, CountOf, PendingFrom, Elements, After, FiveMore;
    QuietIsExact(w, n, schedule);
    var s := After(w, n, schedule);
    var s1 := Goto(s, 0, Allowed(k));
    assert Do(w, s, Admit(0, k)) == s1;
    AfterSnoc(w, n, schedule, Admit(0, k));
    AfterFive(w, n, schedule + [Admit(0, k)], 0);
    StoresThrough(w, s1, 0);
    assert s1.workers[0 := Idle] == s.workers;
  }

  /** The global cap is exceeded to the full bound by some schedule from the start: fill the store to one
      below the cap, then let all workers check before any of them counts. */
  lemma TotalOvershoots(w: World, fill: seq<PendKey>, keys: seq<PendKey>) returns (schedule: seq<Action>)
    requires |keys| >= 1 && Distinct(fill) && |fill| == w.cfg.maxPendingGlobal - 1
    requires forall ip :: |PendingFrom(w.cfg, Elements(fill), ip)| < w.cfg.maxPendingPerIp
    requires forall i :: 0 <= i < |keys| ==> keys[i] !in fill
    requires forall i, j :: 0 <= i < j < |keys| ==> w.at(keys[i].0) != w.at(keys[j].0)
    ensures After(w, |keys|, schedule).total == w.cfg.maxPendingGlobal + |keys| - 1
  {
    hide After, CountOf, PendingFrom;
    schedule := Fill(w, |keys|, fill);
    QuietIsExact(w, |keys|, schedule);
    schedule := OvershootReached(w, schedule, keys);
  }

  // ---- the host cap ----

  /** The first `i` workers have passed the host check for their keys, the others rest. */
  function LetIn(keys: seq<PendKey>, i: nat): (pcs: seq<Pc>)
    requires i <= |keys|
  {
    seq(|keys|, u requires 0 <= u < |keys| => if u < i then Allowed(keys[u]) else Idle)
  }

  /** The first `i` of the workers that were let in are done, the others have not begun to store. */
  function Through(keys: seq<PendKey>, i: nat): (pcs: seq<Pc>)
    requires i <= |keys|
  {
    seq(|keys|, u requires 0 <= u < |keys| => if u < i then Idle else Allowed(keys[u]))
  }

  lemma {:induction false} AllLetIn(w: World, schedule: seq<Action>, keys: seq<PendKey>, ip: Ip, i: nat)
    returns (longer: seq<Action>)
    requires i <= |keys| && forall j :: 0 <= j < |keys| ==> Host(w, keys[j]) == ip
    requires var s := After(w, |keys|, schedule);
             s.workers == LetIn(keys, 0) && CountOf(s.counts, ip) < w.cfg.maxPendingPerIp
    ensures After(w, |keys|, longer) == After(w, |keys|, schedule).(workers := LetIn(keys, i))
  {
    hide After, CountOf;
    longer := schedule;
    if i > 0 {
      var s := After(w, |keys|, schedule);
      longer := AllLetIn(w, schedule, keys, ip, i - 1);
      AfterSnoc(w, |keys|, longer, Admit(i - 1, keys[i - 1]));
      longer := longer + [Admit(i - 1, keys[i - 1])];
      assert LetIn(keys, i - 1)[i - 1 := Allowed(keys[i - 1])] == LetIn(keys, i);
    }
  }

  lemma {:induction false} AllThrough(w: World, schedule: seq<Action>, keys: seq<PendKey>, ip: Ip, i: nat)
    returns (longer: seq<Action>)
    requires i <= |keys| && Distinct(keys) && forall j :: 0 <= j < |keys| ==> Host(w, keys[j]) == ip
    requires var s := After(w, |keys|, schedule);
             && s.workers == Through(keys, 0) && s.janitor.Resting? && s.total + |keys| <= w.cfg.maxPendingGlobal
             && forall j :: 0 <= j < |keys| ==> keys[j] !in s.store
    ensures var s, s' := After(w, |keys|, schedule), After(w, |keys|, longer);
            && s'.workers == Through(keys, i) && s'.janitor == s.janitor && s'.total == s.total + i
            && s'.store == s.store + Elements(keys[..i]) && CountOf(s'.counts, ip) == CountOf(s.counts, ip) + i
  {
    hide After, CountOf, Inc, Elements, FiveMore;
    longer := schedule;
    if i == 0 {
      assert keys[..0] == [];
      NoneStored();
    } else {
      var h := i - 1;
      longer := AllThrough(w, schedule, keys, ip, h);
      var s := After(w, |keys|, longer);
      NotAmong(keys, h);
      StoresThrough(w, s, h);
      AfterFive(w, |keys|, longer, h);
      IncCount(s.counts, ip, ip);
      assert keys[..i] == keys[..h] + [keys[h]];
      ElementsSnoc(keys[..h], keys[h]);
      assert Through(keys, h)[h := Idle] == Through(keys, i);
      longer := longer + Fives(h);
    }
  }

  lemma NotAmong(keys: seq<PendKey>, h: nat)
    requires h < |keys| && Distinct(keys)
    ensures keys[h] !in Elements(keys[..h])
  {
  }

  /** The host cap, too, is exceeded to the full bound by some schedule from the start: fill up to one below
      it, let all workers pass the host check, then store one after the other. */
  lemma HostOvershoots(w: World, fill: seq<PendKey>, keys: seq<PendKey>, ip: Ip) returns (schedule: seq<Action>)
    requires |keys| >= 1 && Distinct(fill) && Distinct(keys) && |fill| == w.cfg.maxPendingPerIp - 1
    requires |fill| + |keys| <= w.cfg.maxPendingGlobal
    requires forall k :: k in fill || k in keys ==> Host(w, k) == ip
    requires forall i :: 0 <= i < |keys| ==> keys[i] !in fill
    ensures var s := After(w, |keys|, schedule);
            && CountOf(s.counts, ip) == w.cfg.maxPendingPerIp + |keys| - 1
            && |PendingFrom(w.cfg, s.store, ip)| == w.cfg.maxPendingPerIp + |keys| - 1 && Quiet(s)
  {
    hide After, CountOf, PendingFrom;
    AllOneHost(w, fill, ip);
    schedule := Fill(w, |keys|, fill);
    QuietIsExact(w, |keys|, schedule);
    assert After(w, |keys|, schedule).workers == LetIn(keys, 0);
    schedule := AllLetIn(w, schedule, keys, ip, |keys|);
    assert LetIn(keys, |keys|) == Through(keys, 0);
    schedule := AllThrough(w, schedule, keys, ip, |keys|);
    QuietIsExact(w, |keys|, schedule);
  }

  lemma AllOneHost(w: World, keys: seq<PendKey>, ip: Ip)
    requires Distinct(keys) && forall k :: k in keys ==> Host(w, k) == ip
    ensures |PendingFrom(w.cfg, Elements(keys), ip)| == |keys|
    ensures forall j :: |PendingFrom(w.cfg, Elements(keys), j)| <= |keys|
  {
    Tables.DistinctSize(keys);
    assert PendingFrom(w.cfg, Elements(keys), ip) == Elements(keys);
    forall j ensures |PendingFrom(w.cfg, Elements(keys), j)| <= |keys| {
      SubsetSize(PendingFrom(w.cfg, Elements(keys), j), Elements(keys));
    }
  }
}
