/** The relay's sharded tables, each proved against the flat table it stands for. */
module Tables {
  import opened Net
  import opened Sizes
  import opened Limiters
  import opened RelaySpec
  import opened RelayInv
  import opened RoomEntries

  // ---- host index ----

  ghost predicate NoEmptyHost(shards: seq<map<Ip, set<Room>>>) {
    forall i, ip :: 0 <= i < |shards| && ip in shards[i] ==> shards[i][ip] != {}
  }

  lemma HostKept(shards: seq<map<Ip, set<Room>>>, i: nat, ip: Ip, rooms: set<Room>)
    requires NoEmptyHost(shards) && i < |shards|
    ensures rooms != {} ==> NoEmptyHost(shards[i := shards[i][ip := rooms]])
    ensures NoEmptyHost(shards[i := shards[i] - {ip}])
  {
  }

  /** The sharded index `shards` stands for the relation `links`, and holds no host without rooms. */
  ghost predicate Indexes(at: Ip -> ShardId, shards: seq<map<Ip, set<Room>>>, links: set<Link>) {
    && |shards| == NUM_SHARDS
    && (forall i, ip :: 0 <= i < |shards| && ip in shards[i] ==> at(ip) == i) && NoEmptyHost(shards)
    && (forall ip, r :: (ip, r) in links <==> ip in shards[at(ip)] && r in shards[at(ip)][ip])
  }

  function Linkage(shard: map<Ip, set<Room>>, ip: Ip): set<Room> { if ip in shard then shard[ip] else {} }

  lemma IndexesAdd(at: Ip -> ShardId, shards: seq<map<Ip, set<Room>>>, links: set<Link>, ip: Ip, r: Room)
    requires Indexes(at, shards, links)
    ensures var i := at(ip);
            Indexes(at, shards[i := shards[i][ip := Linkage(shards[i], ip) + {r}]], links + {(ip, r)})
  {
    var rooms := Linkage(shards[at(ip)], ip) + {r};
    assert r in rooms;
    HostKept(shards, at(ip), ip, rooms);
    hide NoEmptyHost;
  }

  lemma IndexesRemove(at: Ip -> ShardId, shards: seq<map<Ip, set<Room>>>, links: set<Link>, ip: Ip, r: Room)
    requires Indexes(at, shards, links)
    ensures var i := at(ip);
            var left := Linkage(shards[i], ip) - {r};
            Indexes(at, shards[i := if left == {} then shards[i] - {ip} else shards[i][ip := left]], links - {(ip, r)})
  {
    var i := at(ip);
    var left := Linkage(shards[i], ip) - {r};
    var shards' := shards[i := if left == {} then shards[i] - {ip} else shards[i][ip := left]];
    HostKept(shards, i, ip, left);
    hide NoEmptyHost;
    forall j, q ensures (j, q) in links - {(ip, r)} <==> j in shards'[at(j)] && q in shards'[at(j)][j] {
      assert (j, q) in links <==> j in shards[at(j)] && q in shards[at(j)][j];
      if j == ip {
        assert (j, q) in links - {(ip, r)} <==> q in left;
      }
    }
  }

  /** Rooms linked to each host (`ip_counts`), 16 ways by host. */
  class IpIndex {
    const at: Ip -> ShardId
    var shards: seq<map<Ip, set<Room>>>
    ghost var links: set<Link>

    ghost predicate Valid()
      reads this
    {
      Indexes(at, shards, links)
    }

    constructor (at: Ip -> ShardId)
      ensures Valid() && this.at == at && links == {}
    {
      this.at := at;
      shards := seq(NUM_SHARDS, _ => map[]);
      links := {};
    }

    method Add(ip: Ip, r: Room)
      requires Valid()
      modifies this
      ensures Valid() && links == old(links) + {(ip, r)}
    {
      hide Indexes;
      IndexesSize(at, shards, links);
      IndexesAdd(at, shards, links, ip, r);
      var i := at(ip);
      shards := shards[i := shards[i][ip := Linkage(shards[i], ip) + {r}]];
      links := links + {(ip, r)};
    }

    method Remove(ip: Ip, r: Room)
      requires Valid()
      modifies this
      ensures Valid() && links == old(links) - {(ip, r)}
    {
      hide Indexes;
      IndexesSize(at, shards, links);
      IndexesRemove(at, shards, links, ip, r);
      var i := at(ip);
      if ip in shards[i] {
        var left := shards[i][ip] - {r};
        if left == {} {
          shards := shards[i := shards[i] - {ip}];
        } else {
          shards := shards[i := shards[i][ip := left]];
        }
      } else {
        assert shards[i] - {ip} == shards[i];
        assert shards[i := shards[i] - {ip}] == shards;
      }
      links := links - {(ip, r)};
    }

    method Count(ip: Ip) returns (n: nat)
      requires Valid()
      ensures n == |LinkedTo(links, ip)|
    {
      var i := at(ip);
      n := |Linkage(shards[i], ip)|;
      forall r ensures r in LinkedTo(links, ip) <==> r in Linkage(shards[i], ip) {
        assert (ip, r) in links <==> r in Linkage(shards[i], ip);
      }
      assert LinkedTo(links, ip) == Linkage(shards[i], ip);
    }
  }

  lemma IndexesSize(at: Ip -> ShardId, shards: seq<map<Ip, set<Room>>>, links: set<Link>)
    requires Indexes(at, shards, links)
    ensures |shards| == NUM_SHARDS
  {
  }

  // ---- pending store: entries ----

  type PendShard = map<Room, map<Addr, PendingReg>>

  ghost predicate NoEmptyRoom(shards: seq<PendShard>) {
    forall i, r :: 0 <= i < |shards| && r in shards[i] ==> shards[i][r] != map[]
  }

  lemma RoomKept(shards: seq<PendShard>, i: nat, r: Room, rm: map<Addr, PendingReg>)
    requires NoEmptyRoom(shards) && i < |shards|
    ensures rm != map[] ==> NoEmptyRoom(shards[i := shards[i][r := rm]])
    ensures NoEmptyRoom(shards[i := shards[i] - {r}])
  {
  }

  /** The sharded two-level store `shards` holds exactly `pending`, and no room without entries. */
  ghost predicate Stores(at: Room -> ShardId, shards: seq<PendShard>, pending: map<PendKey, PendingReg>) {
    && |shards| == NUM_SHARDS
    && (forall i, r :: 0 <= i < |shards| && r in shards[i] ==> at(r) == i) && NoEmptyRoom(shards)
    && (forall r, a :: (r, a) in pending <==> a in Cell(shards[at(r)], r))
    && (forall r, a :: (r, a) in pending ==> pending[(r, a)] == Cell(shards[at(r)], r)[a])
  }

  function Cell(shard: PendShard, r: Room): map<Addr, PendingReg> { if r in shard then shard[r] else map[] }

  lemma StoresAt(at: Room -> ShardId, shards: seq<PendShard>, pending: map<PendKey, PendingReg>, r: Room, a: Addr)
    requires Stores(at, shards, pending)
    ensures |shards| == NUM_SHARDS
    ensures (r, a) in pending <==> a in Cell(shards[at(r)], r)
    ensures (r, a) in pending ==> pending[(r, a)] == Cell(shards[at(r)], r)[a]
  {
  }

  lemma StoresSize(at: Room -> ShardId, shards: seq<PendShard>, pending: map<PendKey, PendingReg>)
    requires Stores(at, shards, pending)
    ensures |shards| == NUM_SHARDS
  {
  }

  lemma StoresPut(at: Room -> ShardId, shards: seq<PendShard>, pending: map<PendKey, PendingReg>, r: Room, a: Addr,
                  p: PendingReg)
    requires Stores(at, shards, pending)
    ensures var i := at(r);
            Stores(at, shards[i := shards[i][r := Cell(shards[i], r)[a := p]]], pending[(r, a) := p])
  {
    var rm := Cell(shards[at(r)], r)[a := p];
    assert a in rm;
    RoomKept(shards, at(r), r, rm);
    hide NoEmptyRoom;
  }

  lemma StoresRemove(at: Room -> ShardId, shards: seq<PendShard>, pending: map<PendKey, PendingReg>, r: Room, a: Addr)
    requires Stores(at, shards, pending)
    ensures var i := at(r);
            var left := Cell(shards[i], r) - {a};
            Stores(at, shards[i := if left == map[] then shards[i] - {r} else shards[i][r := left]], pending - {(r, a)})
  {
    var i := at(r);
    var left := Cell(shards[i], r) - {a};
    var shards' := shards[i := if left == map[] then shards[i] - {r} else shards[i][r := left]];
    assert Cell(shards'[i], r) == left;
    RoomKept(shards, i, r, left);
    hide NoEmptyRoom;
    forall q, b ensures (q, b) in pending - {(r, a)} <==> b in Cell(shards'[at(q)], q) {
      assert (q, b) in pending <==> b in Cell(shards[at(q)], q);
      assert q != r ==> Cell(shards'[at(q)], q) == Cell(shards[at(q)], q);
    }
    forall q, b | (q, b) in pending - {(r, a)} ensures (pending - {(r, a)})[(q, b)] == Cell(shards'[at(q)], q)[b] {
      assert pending[(q, b)] == Cell(shards[at(q)], q)[b];
      assert q != r ==> Cell(shards'[at(q)], q) == Cell(shards[at(q)], q);
    }
  }

  // ---- pending store: counters ----

  lemma PendingInsert(cfg: Config, keys: set<PendKey>, k: PendKey, ip: Ip)
    ensures |PendingFrom(cfg, keys + {k}, ip)|
            == |PendingFrom(cfg, keys, ip)| + if ip == cfg.ipKey(k.1) && k !in keys then 1 else 0
  {
    if ip == cfg.ipKey(k.1) && k !in keys {
      assert PendingFrom(cfg, keys + {k}, ip) == PendingFrom(cfg, keys, ip) + {k};
    } else {
      assert PendingFrom(cfg, keys + {k}, ip) == PendingFrom(cfg, keys, ip);
    }
  }

  /** The sharded per-host tally counts `keys`. */
  ghost predicate Counts(cfg: Config, atIp: Ip -> ShardId, tally: seq<map<Ip, nat>>, keys: set<PendKey>) {
    |tally| == NUM_SHARDS && forall ip :: CountOf(tally[atIp(ip)], ip) == |PendingFrom(cfg, keys, ip)|
  }

  lemma CountsInsert(cfg: Config, atIp: Ip -> ShardId, tally: seq<map<Ip, nat>>, keys: set<PendKey>, k: PendKey)
    requires Counts(cfg, atIp, tally, keys) && k !in keys
    ensures var ip := cfg.ipKey(k.1); var i := atIp(ip);
            Counts(cfg, atIp, tally[i := Inc(tally[i], ip)], keys + {k})
  {
    hide CountOf, Inc, PendingFrom;
    var ip := cfg.ipKey(k.1);
    var i := atIp(ip);
    var tally' := tally[i := Inc(tally[i], ip)];
    forall j ensures CountOf(tally'[atIp(j)], j) == |PendingFrom(cfg, keys + {k}, j)| {
      PendingInsert(cfg, keys, k, j);
      IncCount(tally[i], ip, j);
    }
  }

  /** Taking out a counted key: the host's tally is positive, so the saturating decrement is exact. */
  lemma CountsRemove(cfg: Config, atIp: Ip -> ShardId, tally: seq<map<Ip, nat>>, keys: set<PendKey>, k: PendKey)
    requires Counts(cfg, atIp, tally, keys) && k in keys
    ensures var ip := cfg.ipKey(k.1); var i := atIp(ip);
            CountOf(tally[i], ip) > 0 && Counts(cfg, atIp, tally[i := Dec(tally[i], ip)], keys - {k})
  {
    hide CountOf, Dec, PendingFrom;
    var ip := cfg.ipKey(k.1);
    var i := atIp(ip);
    var tally' := tally[i := Dec(tally[i], ip)];
    assert keys - {k} + {k} == keys;
    PendingInsert(cfg, keys - {k}, k, ip);
    forall j ensures CountOf(tally'[atIp(j)], j) == |PendingFrom(cfg, keys - {k}, j)| {
      PendingInsert(cfg, keys - {k}, k, j);
      DecCount(tally[i], ip, j);
    }
  }

  // ---- pending store: expiry ----

  /** One shard without its expired entries and without rooms left empty. */
  function Kept(shard: PendShard, now: nat): PendShard {
    map r | r in shard && FreshPending(shard[r], now) != map[] :: FreshPending(shard[r], now)
  }

  function ExpiredIn(shard: PendShard, now: nat): set<PendKey> {
    set r, a | r in shard && a in shard[r] && Expired(shard[r][a], now) :: (r, a)
  }

  /** The entries of `pending` left once the shards below `i` have been swept. */
  ghost function SweptTo(at: Room -> ShardId, pending: map<PendKey, PendingReg>, now: nat,
                         i: nat): map<PendKey, PendingReg> {
    map k | k in pending && !(at(k.0) < i && Expired(pending[k], now)) :: pending[k]
  }

  lemma CellKept(shard: PendShard, now: nat, r: Room)
    ensures Cell(Kept(shard, now), r) == FreshPending(Cell(shard, r), now)
  {
  }

  lemma ExpiredInCell(shard: PendShard, now: nat, r: Room, a: Addr)
    ensures (r, a) in ExpiredIn(shard, now) <==> a in Cell(shard, r) && Expired(Cell(shard, r)[a], now)
  {
  }

  lemma SweptToStep(at: Room -> ShardId, pending: map<PendKey, PendingReg>, now: nat, i: nat, k: PendKey)
    ensures k in SweptTo(at, pending, now, i + 1) <==>
            k in SweptTo(at, pending, now, i) && !(at(k.0) == i && Expired(SweptTo(at, pending, now, i)[k], now))
    ensures k in SweptTo(at, pending, now, i + 1)
            ==> SweptTo(at, pending, now, i + 1)[k] == SweptTo(at, pending, now, i)[k]
  {
  }

  lemma StoresKeptAt(at: Room -> ShardId, shards: seq<PendShard>, pending: map<PendKey, PendingReg>, now: nat, i: nat,
                     r: Room, a: Addr)
    requires i < NUM_SHARDS && Stores(at, shards, SweptTo(at, pending, now, i))
    ensures var after := SweptTo(at, pending, now, i + 1); var shards' := shards[i := Kept(shards[i], now)];
            && ((r, a) in after <==> a in Cell(shards'[at(r)], r))
            && ((r, a) in after ==> after[(r, a)] == Cell(shards'[at(r)], r)[a])
            && ((r, a) in ExpiredIn(shards[i], now) <==> (r, a) in SweptTo(at, pending, now, i) && (r, a) !in after)
  {
    var before := SweptTo(at, pending, now, i);
    StoresAt(at, shards, before, r, a);
    hide Stores, SweptTo, Kept, Expired, ExpiredIn;
    SweptToStep(at, pending, now, i, (r, a));
    CellKept(shards[i], now, r);
    ExpiredInCell(shards[i], now, r, a);
    if at(r) != i { StoresElsewhere(at, shards, before, i, r); }
  }

  lemma StoresElsewhere(at: Room -> ShardId, shards: seq<PendShard>, pending: map<PendKey, PendingReg>, i: nat, r: Room)
    requires Stores(at, shards, pending) && i < NUM_SHARDS && at(r) != i
    ensures Cell(shards[i], r) == map[]
  {
  }

  lemma StoresKept(at: Room -> ShardId, shards: seq<PendShard>, pending: map<PendKey, PendingReg>, now: nat, i: nat)
    requires i < NUM_SHARDS && Stores(at, shards, SweptTo(at, pending, now, i))
    ensures Stores(at, shards[i := Kept(shards[i], now)], SweptTo(at, pending, now, i + 1))
    ensures SweptTo(at, pending, now, i).Keys == SweptTo(at, pending, now, i + 1).Keys + ExpiredIn(shards[i], now)
    ensures SweptTo(at, pending, now, i + 1).Keys !! ExpiredIn(shards[i], now)
  {
    hide SweptTo, ExpiredIn, Cell;
    var before, after := SweptTo(at, pending, now, i), SweptTo(at, pending, now, i + 1);
    var shards' := shards[i := Kept(shards[i], now)];
    forall r, a
      ensures (r, a) in after <==> a in Cell(shards'[at(r)], r)
      ensures (r, a) in after ==> after[(r, a)] == Cell(shards'[at(r)], r)[a] && (r, a) in before
      ensures (r, a) in ExpiredIn(shards[i], now) <==> (r, a) in before && (r, a) !in after
    {
      StoresKeptAt(at, shards, pending, now, i, r, a);
      SweptToStep(at, pending, now, i, (r, a));
    }
    forall k
      ensures k in before <==> k in after || k in ExpiredIn(shards[i], now)
      ensures !(k in after && k in ExpiredIn(shards[i], now))
    {
      var (r, a) := k;
      assert (r, a) == k;
    }
  }

  /** `ips` are the hosts of the distinct keys `gone`, in order. */
  ghost predicate HostsOf(cfg: Config, ips: seq<Ip>, gone: seq<PendKey>) {
    && |ips| == |gone|
    && (forall j :: 0 <= j < |ips| ==> ips[j] == cfg.ipKey(gone[j].1))
    && (forall i, j :: 0 <= i < j < |gone| ==> gone[i] != gone[j])
  }

  lemma {:induction false} DistinctSize<T>(q: seq<T>)
    requires forall i, j :: 0 <= i < j < |q| ==> q[i] != q[j]
    ensures |Elements(q)| == |q|
  {
    if q != [] {
      var n := |q| - 1;
      assert q == q[..n] + [q[n]];
      ElementsSnoc(q[..n], q[n]);
      DistinctSize(q[..n]);
    }
  }

  /** Pre-cookie registrations (`pending_shards`, 16 ways by room), with the global total and the
      per-host tally (`pending_ip_shards`, 16 ways by host). */
  class PendingStore {
    const cfg: Config
    const at: Room -> ShardId
    const atIp: Ip -> ShardId
    var shards: seq<PendShard>
    var ipShards: seq<map<Ip, nat>>
    var total: nat
    ghost var pending: map<PendKey, PendingReg>

    ghost predicate Valid()
      reads this
    {
      && Stores(at, shards, pending)
      && Counts(cfg, atIp, ipShards, pending.Keys)
      && total == |pending.Keys|
    }

    constructor (cfg: Config, at: Room -> ShardId, atIp: Ip -> ShardId)
      ensures Valid() && this.cfg == cfg && this.at == at && this.atIp == atIp && pending == map[]
    {
      this.cfg, this.at, this.atIp := cfg, at, atIp;
      shards := seq(NUM_SHARDS, _ => map[]);
      ipShards := seq(NUM_SHARDS, _ => map[]);
      total := 0;
      pending := map[];
      new;
      forall ip ensures CountOf(ipShards[atIp(ip)], ip) == |PendingFrom(cfg, pending.Keys, ip)| {
        assert PendingFrom(cfg, pending.Keys, ip) == {};
      }
    }

    method Get(r: Room, a: Addr) returns (p: Option<PendingReg>)
      requires Valid()
      ensures p == if (r, a) in pending then Some(pending[(r, a)]) else None
    {
      hide Stores, Counts;
      StoresAt(at, shards, pending, r, a);
      var rm := Cell(shards[at(r)], r);
      p := if a in rm then Some(rm[a]) else None;
    }

    method CountFor(ip: Ip) returns (n: nat)
      requires Valid()
      ensures n == |PendingFrom(cfg, pending.Keys, ip)|
    {
      n := CountOf(ipShards[atIp(ip)], ip);
    }

    method AddIp(ghost k: PendKey, ip: Ip, ghost keys: set<PendKey>)
      requires Counts(cfg, atIp, ipShards, keys) && k !in keys && ip == cfg.ipKey(k.1)
      modifies this`ipShards
      ensures Counts(cfg, atIp, ipShards, keys + {k})
    {
      CountsInsert(cfg, atIp, ipShards, keys, k);
      var i := atIp(ip);
      ipShards := ipShards[i := Inc(ipShards[i], ip)];
    }

    method RemoveIp(ghost k: PendKey, ip: Ip, ghost keys: set<PendKey>)
      requires Counts(cfg, atIp, ipShards, keys) && k in keys && ip == cfg.ipKey(k.1)
      modifies this`ipShards
      ensures Counts(cfg, atIp, ipShards, keys - {k})
    {
      CountsRemove(cfg, atIp, ipShards, keys, k);
      var i := atIp(ip);
      ipShards := ipShards[i := Dec(ipShards[i], ip)];
    }

    method Store(r: Room, a: Addr, p: PendingReg) returns (ok: bool)
      requires Valid()
      modifies this
      ensures Valid()
      ensures ok == ((r, a) in old(pending) || |old(pending)| < cfg.maxPendingGlobal)
      ensures pending == if ok then old(pending)[(r, a) := p] else old(pending)
    {
      hide Stores, Counts;
      ghost var k := (r, a);
      StoresAt(at, shards, pending, r, a);
      StoresPut(at, shards, pending, r, a, p);
      assert |pending| == |pending.Keys|;
      assert pending[k := p].Keys == pending.Keys + {k};
      var i := at(r);
      var rm := Cell(shards[i], r);
      if a in rm {
        assert pending.Keys + {k} == pending.Keys;
        shards := shards[i := shards[i][r := rm[a := p]]];
        pending := pending[k := p];
        return true;
      }
      if total >= cfg.maxPendingGlobal {
        return false;
      }
      shards := shards[i := shards[i][r := rm[a := p]]];
      total := total + 1;
      AddIp(k, cfg.ipKey(a), pending.Keys);
      pending := pending[k := p];
      return true;
    }

    method Delete(r: Room, a: Addr)
      requires Valid()
      modifies this
      ensures Valid() && pending == old(pending) - {(r, a)}
    {
      hide Stores, Counts;
      ghost var k := (r, a);
      StoresAt(at, shards, pending, r, a);
      StoresRemove(at, shards, pending, r, a);
      assert (pending - {k}).Keys == pending.Keys - {k};
      var i := at(r);
      var rm := Cell(shards[i], r);
      if a in rm {
        assert |pending.Keys - {k}| == |pending.Keys| - 1;
        total := total - 1;
        RemoveIp(k, cfg.ipKey(a), pending.Keys);
      } else {
        assert pending.Keys - {k} == pending.Keys;
      }
      var left := rm - {a};
      if left == map[] {
        shards := shards[i := shards[i] - {r}];
      } else {
        shards := shards[i := shards[i][r := left]];
      }
      pending := pending - {k};
    }

    method EvictShard(i: nat, now: nat) returns (ips: seq<Ip>, ghost gone: seq<PendKey>)
      requires i < |shards|
      modifies this`shards
      ensures shards == old(shards)[i := Kept(old(shards)[i], now)]
      ensures HostsOf(cfg, ips, gone) && Elements(gone) == ExpiredIn(old(shards)[i], now)
    {
      var dead := ExpiredIn(shards[i], now);
      var todo := dead;
      ips, gone := [], [];
      while todo != {}
        invariant todo <= dead
        invariant HostsOf(cfg, ips, gone) && Elements(gone) == dead - todo
        invariant shards == old(shards)
        decreases todo
      {
        var k :| k in todo;
        ElementsSnoc(gone, k);
        assert k !in Elements(gone);
        ips, gone := ips + [cfg.ipKey(k.1)], gone + [k];
        todo := todo - {k};
      }
      shards := shards[i := Kept(shards[i], now)];
    }

    /** The retain loop over all shards: the entries go, the counters do not move yet. */
    method EvictAll(now: nat) returns (evicted: seq<Ip>, ghost gone: seq<PendKey>)
      requires Stores(at, shards, pending)
      modifies this`shards, this`pending
      ensures pending == SweptTo(at, old(pending), now, NUM_SHARDS) && Stores(at, shards, pending)
      ensures HostsOf(cfg, evicted, gone)
      ensures old(pending).Keys == pending.Keys + Elements(gone) && pending.Keys !! Elements(gone)
    {
      hide Stores, Kept, ExpiredIn, HostsOf, SweptTo;
      evicted, gone := [], [];
      SweptToZero(at, pending, now);
      HostsOfNone(cfg);
      for i := 0 to NUM_SHARDS
        invariant pending == SweptTo(at, old(pending), now, i) && Stores(at, shards, pending)
        invariant HostsOf(cfg, evicted, gone)
        invariant old(pending).Keys == pending.Keys + Elements(gone) && pending.Keys !! Elements(gone)
      {
        StoresSize(at, shards, pending);
        StoresKept(at, shards, old(pending), now, i);
        var ips; ghost var ks;
        ips, ks := EvictShard(i, now);
        pending := SweptTo(at, old(pending), now, i + 1);
        HostsOfConcat(cfg, evicted, gone, ips, ks);
        ElementsConcat(gone, ks);
        evicted, gone := evicted + ips, gone + ks;
      }
    }

    method DropTallies(evicted: seq<Ip>, ghost gone: seq<PendKey>, ghost keys: set<PendKey>)
      requires HostsOf(cfg, evicted, gone) && Elements(gone) <= keys && Counts(cfg, atIp, ipShards, keys)
      modifies this`ipShards
      ensures Counts(cfg, atIp, ipShards, keys - Elements(gone))
    {
      hide Counts;
      assert keys - Elements(gone[..0]) == keys;
      for j := 0 to |evicted|
        invariant Counts(cfg, atIp, ipShards, keys - Elements(gone[..j]))
      {
        assert gone[..j+1] == gone[..j] + [gone[j]];
        ElementsSnoc(gone[..j], gone[j]);
        assert gone[j] in Elements(gone) && gone[j] !in Elements(gone[..j]);
        RemoveIp(gone[j], evicted[j], keys - Elements(gone[..j]));
        assert keys - Elements(gone[..j]) - {gone[j]} == keys - Elements(gone[..j+1]);
      }
      assert gone[..|gone|] == gone;
    }

    method RemoveStale(now: nat)
      requires Valid()
      modifies this
      ensures Valid() && pending == FreshPending(old(pending), now)
    {
      hide Stores, Counts;
      var evicted; ghost var gone;
      evicted, gone := EvictAll(now);
      assert pending == FreshPending(old(pending), now);
      DistinctSize(gone);
      assert |old(pending).Keys| == |pending.Keys| + |gone|;
      total := total - |evicted|;
      DropTallies(evicted, gone, old(pending).Keys);
      assert old(pending).Keys - Elements(gone) == pending.Keys;
    }
  }

  lemma SweptToZero(at: Room -> ShardId, pending: map<PendKey, PendingReg>, now: nat)
    ensures SweptTo(at, pending, now, 0) == pending
  {
  }

  lemma HostsOfNone(cfg: Config)
    ensures HostsOf(cfg, [], [])
  {
  }

  lemma HostsOfConcat(cfg: Config, ips: seq<Ip>, gone: seq<PendKey>, ips': seq<Ip>, gone': seq<PendKey>)
    requires HostsOf(cfg, ips, gone) && HostsOf(cfg, ips', gone') && Elements(gone) !! Elements(gone')
    ensures HostsOf(cfg, ips + ips', gone + gone')
  {
    forall x, y | 0 <= x < |gone| && 0 <= y < |gone'| ensures gone[x] != gone'[y] {
      assert gone[x] in Elements(gone) && gone'[y] in Elements(gone');
    }
  }

  lemma ElementsConcat<T>(p: seq<T>, q: seq<T>)
    ensures Elements(p + q) == Elements(p) + Elements(q)
  {
    forall x | x in Elements(p) + Elements(q) ensures x in p + q {
    }
  }

  // ---- room table ----

  type RoomShard = map<Room, RoomEntry>

  ghost function InShard<V>(at: Room -> ShardId, rooms: map<Room, V>, i: nat): set<Room> {
    set r | r in rooms.Keys && at(r) == i
  }

  /** The flat table while shard `i` is being swept, with the rooms `todo` still to come. */
  ghost function Sweeping(cfg: Config, at: Room -> ShardId, rooms: Rooms, now: nat, i: nat, todo: set<Room>): Rooms {
    map r | r in rooms :: if at(r) == i && r !in todo then Swept(cfg, rooms[r], now) else rooms[r]
  }

  /** `evict_stale_rooms` on shard `i`, seen on the flat table. */
  ghost function EvictedRooms(cfg: Config, at: Room -> ShardId, rooms: Rooms, now: nat, i: nat): Rooms {
    map r | r in rooms && (at(r) == i ==> Survives(cfg, rooms[r], now)) ::
      if at(r) == i then Swept(cfg, rooms[r], now) else rooms[r]
  }

  /** The links that the sweep of the rooms `done` drops. */
  ghost predicate DropsLink(cfg: Config, rooms: Rooms, now: nat, done: set<Room>, l: Link) {
    l.1 in done && l.1 in rooms && l.0 in Unlinked(cfg, rooms[l.1], now)
  }

  function LinksTo(ips: seq<Ip>, r: Room): (q: seq<Link>)
    ensures |q| == |ips| && forall j :: 0 <= j < |q| ==> q[j] == (ips[j], r)
  {
    seq(|ips|, j requires 0 <= j < |ips| => (ips[j], r))
  }

  lemma SweepingStep(cfg: Config, at: Room -> ShardId, rooms: Rooms, now: nat, i: nat, todo: set<Room>, r: Room)
    requires r in rooms && at(r) == i && r in todo
    ensures var before := Sweeping(cfg, at, rooms, now, i, todo);
            && r in before && before[r] == rooms[r]
            && Sweeping(cfg, at, rooms, now, i, todo - {r}) == before[r := Swept(cfg, rooms[r], now)]
  {
    hide Swept;
  }

  lemma SweepingDone(cfg: Config, at: Room -> ShardId, rooms: Rooms, now: nat, i: nat)
    ensures var dead := Dead(cfg, rooms, now, InShard(at, rooms, i));
            && Sweeping(cfg, at, rooms, now, i, {}) - dead == EvictedRooms(cfg, at, rooms, now, i)
            && |EvictedRooms(cfg, at, rooms, now, i)| == |rooms| - |dead|
  {
    hide Swept, Survives;
    var dead := Dead(cfg, rooms, now, InShard(at, rooms, i));
    var after := EvictedRooms(cfg, at, rooms, now, i);
    assert after.Keys == rooms.Keys - dead;
    assert |after| == |after.Keys| && |rooms| == |rooms.Keys| && rooms.Keys == after.Keys + dead;
  }

  lemma LinksToDrops(cfg: Config, rooms: Rooms, now: nat, done: set<Room>, r: Room, ips: seq<Ip>, unlinked: seq<Link>,
                     l: Link)
    requires r in rooms && r !in done && Elements(ips) == Unlinked(cfg, rooms[r], now)
    requires l in unlinked <==> DropsLink(cfg, rooms, now, done, l)
    ensures l in unlinked + LinksTo(ips, r) <==> DropsLink(cfg, rooms, now, done + {r}, l)
  {
    hide Unlinked;
    var q := LinksTo(ips, r);
    if l.1 == r && l.0 in Elements(ips) {
      var j :| 0 <= j < |ips| && ips[j] == l.0;
      assert q[j] == l;
    }
    if l in q {
      var j :| 0 <= j < |q| && q[j] == l;
      assert ips[j] in Elements(ips);
    }
  }

  /** The shards hold exactly the rooms of `byRoom`, each in the shard of its name, each an object
      of its own. */
  ghost predicate Placed(at: Room -> ShardId, shards: seq<RoomShard>, byRoom: map<Room, RoomEntry>) {
    && |shards| == NUM_SHARDS
    && (forall i, r :: 0 <= i < |shards| && r in shards[i] ==> at(r) == i)
    && (forall r :: r in byRoom <==> r in shards[at(r)])
    && (forall r :: r in byRoom ==> byRoom[r] == shards[at(r)][r])
    && (forall q, r :: q in byRoom && r in byRoom && q != r ==> byRoom[q] != byRoom[r])
  }

  lemma PlacedAt(at: Room -> ShardId, shards: seq<RoomShard>, byRoom: map<Room, RoomEntry>, r: Room)
    requires Placed(at, shards, byRoom)
    ensures |shards| == NUM_SHARDS
    ensures r in byRoom <==> r in shards[at(r)]
    ensures r in byRoom ==> byRoom[r] == shards[at(r)][r]
  {
  }

  lemma PlacedPut(at: Room -> ShardId, shards: seq<RoomShard>, byRoom: map<Room, RoomEntry>, r: Room, e: RoomEntry)
    requires Placed(at, shards, byRoom) && r !in byRoom && forall q :: q in byRoom ==> byRoom[q] != e
    ensures Placed(at, shards[at(r) := shards[at(r)][r := e]], byRoom[r := e])
  {
  }

  lemma PlacedRemove(at: Room -> ShardId, shards: seq<RoomShard>, byRoom: map<Room, RoomEntry>, i: nat, dead: set<Room>)
    requires Placed(at, shards, byRoom) && i < NUM_SHARDS && dead <= shards[i].Keys
    ensures Placed(at, shards[i := shards[i] - dead], byRoom - dead)
  {
  }

  lemma PlacedDistinct(at: Room -> ShardId, shards: seq<RoomShard>, byRoom: map<Room, RoomEntry>, r: Room)
    requires Placed(at, shards, byRoom) && r in byRoom
    ensures forall q :: q in byRoom && q != r ==> byRoom[q] != byRoom[r]
  {
  }

  lemma PutSame<K, V>(m: map<K, V>, k: K)
    requires k in m
    ensures m[k := m[k]] == m
  {
  }

  /** The rooms (`shards`, 16 ways by room name) and their number. */
  class RoomTable {
    const cfg: Config
    const at: Room -> ShardId
    var shards: seq<RoomShard>
    var total: nat
    ghost var rooms: Rooms
    ghost var byRoom: map<Room, RoomEntry>
    ghost var entries: set<RoomEntry>

    ghost predicate Looks(e: RoomEntry, v: RoomView)
      reads e
    {
      e.cfg == cfg && e.Valid() && e.View() == v
    }

    /** Every room lives in its own shard only and looks as `rooms` says. */
    ghost predicate Coupled()
      reads `shards, `rooms, `byRoom, `entries, entries
    {
      && Placed(at, shards, byRoom)
      && rooms.Keys == byRoom.Keys
      && forall r :: r in byRoom ==> byRoom[r] in entries && Looks(byRoom[r], rooms[r])
    }

    ghost predicate Valid()
      reads this, entries
    {
      Coupled() && total == |rooms|
    }

    lemma IsCoupled()
      requires Valid()
      ensures Coupled()
    {
    }

    constructor (cfg: Config, at: Room -> ShardId)
      ensures Valid() && this.cfg == cfg && this.at == at && rooms == map[] && entries == {}
    {
      this.cfg, this.at := cfg, at;
      shards := seq(NUM_SHARDS, _ => map[]);
      total := 0;
      rooms, byRoom, entries := map[], map[], {};
    }

    method Get(r: Room) returns (e: RoomEntry?)
      requires Coupled()
      ensures e == null <==> r !in rooms
      ensures e != null ==> r in byRoom && e == byRoom[r] && e in entries && Looks(e, rooms[r])
    {
      hide Placed;
      PlacedAt(at, shards, byRoom, r);
      var i := at(r);
      e := if r in shards[i] then shards[i][r] else null;
    }

    method Insert(r: Room, e: RoomEntry)
      requires Valid() && r !in rooms && e !in entries && e.Valid() && e.cfg == cfg
      modifies this
      ensures Valid() && rooms == old(rooms)[r := e.View()] && entries == old(entries) + {e}
    {
      hide Placed, Looks, Tallies;
      PlacedAt(at, shards, byRoom, r);
      PlacedPut(at, shards, byRoom, r, e);
      ghost var v := e.View();
      InsertSize(rooms, r, v);
      LooksSelf(e);
      var i := at(r);
      shards := shards[i := shards[i][r := e]];
      total := total + 1;
      rooms, byRoom, entries := rooms[r := v], byRoom[r := e], entries + {e};
      assert rooms.Keys == byRoom.Keys;
    }

    lemma LooksSelf(e: RoomEntry)
      requires e.Valid() && e.cfg == cfg
      ensures Looks(e, e.View())
    {
    }

    /** After an entry changed in place, the view of its room is brought up to date. */
    ghost method Refresh(r: Room)
      requires Placed(at, shards, byRoom) && rooms.Keys == byRoom.Keys && r in byRoom
      requires byRoom[r] in entries && byRoom[r].cfg == cfg && byRoom[r].Valid()
      requires forall q :: q in byRoom && q != r ==> byRoom[q] in entries && Looks(byRoom[q], rooms[q])
      modifies this`rooms
      ensures Coupled() && rooms == old(rooms)[r := byRoom[r].View()] && |rooms| == |old(rooms)|
    {
      hide Placed, Looks, Tallies;
      InsertSize(rooms, r, byRoom[r].View());
      LooksSelf(byRoom[r]);
      rooms := rooms[r := byRoom[r].View()];
    }

    /** Installs a client record in a room; `t` becomes the room's time stamp. */
    method PutClient(r: Room, e: RoomEntry, src: Addr, c: Client, t: nat)
      requires Coupled() && r in byRoom && e == byRoom[r]
      modifies this`rooms, e
      ensures Coupled() && |rooms| == |old(rooms)|
      ensures rooms == old(rooms)[r := old(rooms)[r].(clients := old(rooms)[r].clients[src := c], t := t)]
    {
      hide Tallies;
      PlacedDistinct(at, shards, byRoom, r);
      hide Placed, Looks;
      LooksView(r);
      e.udpClients := e.udpClients[src := c];
      e.t := t;
      Refresh(r);
    }

    method AddPending(r: Room, e: RoomEntry, src: Addr, p: PendingReg) returns (ok: bool)
      requires Coupled() && r in byRoom && e == byRoom[r]
      modifies this`rooms, e
      ensures Coupled() && |rooms| == |old(rooms)|
      ensures ok == (src in old(rooms)[r].pending || |old(rooms)[r].pending| < cfg.maxPendingPerRoom)
      ensures ok ==> rooms == old(rooms)[r := old(rooms)[r].(pending := old(rooms)[r].pending[src := p])]
      ensures !ok ==> rooms == old(rooms)
    {
      hide Tallies;
      PlacedDistinct(at, shards, byRoom, r);
      hide Placed, Looks;
      LooksView(r);
      PutSame(rooms, r);
      ok := e.AddPending(src, p, cfg.maxPendingPerRoom);
      Refresh(r);
    }

    /** A challenge already held by the room is stamped anew. */
    method RenewPending(r: Room, e: RoomEntry, src: Addr, p: PendingReg)
      requires Coupled() && r in byRoom && e == byRoom[r] && src in rooms[r].pending
      modifies this`rooms, e
      ensures Coupled() && |rooms| == |old(rooms)|
      ensures rooms == old(rooms)[r := old(rooms)[r].(pending := old(rooms)[r].pending[src := p])]
    {
      hide Tallies;
      PlacedDistinct(at, shards, byRoom, r);
      hide Placed, Looks;
      LooksView(r);
      assert e.pending[src := p].Keys == e.pending.Keys;
      e.pending := e.pending[src := p];
      Refresh(r);
    }

    method RemovePending(r: Room, e: RoomEntry, src: Addr)
      requires Coupled() && r in byRoom && e == byRoom[r]
      modifies this`rooms, e
      ensures Coupled() && |rooms| == |old(rooms)|
      ensures rooms == old(rooms)[r := old(rooms)[r].(pending := old(rooms)[r].pending - {src})]
    {
      hide Tallies;
      PlacedDistinct(at, shards, byRoom, r);
      hide Placed, Looks;
      LooksView(r);
      e.RemovePending(src);
      Refresh(r);
    }

    /** `remove_stale_clients` on one room of the table. */
    method SweepEntry(r: Room, e: RoomEntry, now: nat) returns (unlinked: seq<Ip>)
      requires Coupled() && r in byRoom && e == byRoom[r]
      modifies this`rooms, e
      ensures Coupled() && rooms == old(rooms)[r := Swept(cfg, old(rooms)[r], now)] && |rooms| == |old(rooms)|
      ensures Elements(unlinked) == Unlinked(cfg, old(rooms)[r], now)
    {
      hide Swept, Unlinked, Tallies;
      PlacedDistinct(at, shards, byRoom, r);
      hide Placed, Looks;
      LooksView(r);
      unlinked := e.RemoveStaleClients(now);
      Refresh(r);
    }

    /** The sweep of shard `i`'s rooms, before the dead ones are taken out. */
    method SweepShard(i: nat, now: nat) returns (dead: set<Room>, unlinked: seq<Link>)
      requires Coupled() && i < NUM_SHARDS
      modifies this`rooms, entries
      ensures Coupled() && rooms == Sweeping(cfg, at, old(rooms), now, i, {})
      ensures dead == Dead(cfg, old(rooms), now, InShard(at, old(rooms), i))
      ensures forall l :: l in unlinked <==> DropsLink(cfg, old(rooms), now, InShard(at, old(rooms), i), l)
    {
      hide Swept, Unlinked, Survives, Tallies, Placed, Sweeping, DropsLink, Dead, InShard, Looks;
      PlacedSize(at, shards, byRoom);
      PlacedKeys(at, shards, byRoom, i);
      SameShard(at, rooms, byRoom, i);
      var mine := shards[i].Keys;
      var todo := mine;
      dead, unlinked := {}, [];
      SweepingNone(cfg, at, rooms, now, i, todo);
      NoDrops(cfg, rooms, now);
      DeadSubset(cfg, rooms, now, {});
      assert mine - mine == {};
      while todo != {}
        invariant todo <= mine
        invariant Coupled() && rooms == Sweeping(cfg, at, old(rooms), now, i, todo)
        invariant dead == Dead(cfg, old(rooms), now, mine - todo)
        invariant forall l :: l in unlinked <==> DropsLink(cfg, old(rooms), now, mine - todo, l)
        decreases todo
      {
        var r :| r in todo;
        var e := shards[i][r];
        PlacedAt(at, shards, byRoom, r);
        PlacedHome(at, shards, byRoom, i, r);
        SweepingStep(cfg, at, old(rooms), now, i, todo, r);
        var ips := SweepEntry(r, e, now);
        assert mine - (todo - {r}) == mine - todo + {r};
        forall l ensures l in unlinked + LinksTo(ips, r) <==> DropsLink(cfg, old(rooms), now, mine - todo + {r}, l) {
          LinksToDrops(cfg, old(rooms), now, mine - todo, r, ips, unlinked, l);
        }
        unlinked := unlinked + LinksTo(ips, r);
        DeadInsert(cfg, old(rooms), now, mine - todo, r);
        LooksView(r);
        if e.udpClients == map[] && Since(now, e.t) > cfg.regTtl {
          dead := dead + {r};
        }
        todo := todo - {r};
      }
      assert mine - {} == mine;
    }

    lemma LooksView(r: Room)
      requires Coupled() && r in byRoom
      ensures r in rooms && byRoom[r].cfg == cfg && byRoom[r].Valid() && rooms[r] == byRoom[r].View()
    {
    }

    /** `evict_stale_rooms` on shard `i`. The caller takes `n` off the total and drops the links. */
    method EvictShard(i: nat, now: nat) returns (n: nat, unlinked: seq<Link>)
      requires Coupled() && i < NUM_SHARDS
      modifies this`shards, this`rooms, this`byRoom, entries
      ensures Coupled() && rooms == EvictedRooms(cfg, at, old(rooms), now, i)
      ensures n + |rooms| == |old(rooms)|
      ensures forall l :: l in unlinked <==> DropsLink(cfg, old(rooms), now, InShard(at, old(rooms), i), l)
    {
      hide Placed, Sweeping, EvictedRooms, DropsLink, Dead, Looks, InShard;
      var dead;
      dead, unlinked := SweepShard(i, now);
      PlacedSize(at, shards, byRoom);
      PlacedKeys(at, shards, byRoom, i);
      SameShard(at, old(rooms), byRoom, i);
      DeadSubset(cfg, old(rooms), now, InShard(at, old(rooms), i));
      SweepingDone(cfg, at, old(rooms), now, i);
      TakeOut(i, dead);
      n := |dead|;
    }

    method TakeOut(i: nat, dead: set<Room>)
      requires Coupled() && i < NUM_SHARDS && |shards| == NUM_SHARDS && dead <= shards[i].Keys
      modifies this`shards, this`rooms, this`byRoom
      ensures Coupled() && rooms == old(rooms) - dead
    {
      hide Placed, Looks;
      PlacedRemove(at, shards, byRoom, i, dead);
      shards := shards[i := shards[i] - dead];
      rooms, byRoom := rooms - dead, byRoom - dead;
    }
  }

  /** Those of `some` rooms that a sweep leaves without clients and that were not used lately. */
  ghost function Dead(cfg: Config, rooms: Rooms, now: nat, some: set<Room>): set<Room> {
    set r | r in some && r in rooms && !Survives(cfg, rooms[r], now)
  }

  lemma DeadSubset(cfg: Config, rooms: Rooms, now: nat, some: set<Room>)
    ensures Dead(cfg, rooms, now, some) <= some
    ensures some == {} ==> Dead(cfg, rooms, now, some) == {}
  {
  }

  lemma DeadInsert(cfg: Config, rooms: Rooms, now: nat, some: set<Room>, r: Room)
    requires r in rooms
    ensures Dead(cfg, rooms, now, some + {r}) == Dead(cfg, rooms, now, some) +
              var w := Swept(cfg, rooms[r], now); if w.clients == map[] && Since(now, w.t) > cfg.regTtl then {r} else {}
  {
    hide Swept, Survives;
    SurvivesIff(cfg, rooms[r], now);
  }

  lemma SameShard<V, W>(at: Room -> ShardId, a: map<Room, V>, b: map<Room, W>, i: nat)
    requires a.Keys == b.Keys
    ensures InShard(at, a, i) == InShard(at, b, i)
  {
  }

  lemma PlacedHome(at: Room -> ShardId, shards: seq<RoomShard>, byRoom: map<Room, RoomEntry>, i: nat, r: Room)
    requires Placed(at, shards, byRoom) && i < NUM_SHARDS && r in shards[i]
    ensures at(r) == i
  {
  }

  lemma PlacedSize(at: Room -> ShardId, shards: seq<RoomShard>, byRoom: map<Room, RoomEntry>)
    requires Placed(at, shards, byRoom)
    ensures |shards| == NUM_SHARDS
  {
  }

  lemma PlacedKeys(at: Room -> ShardId, shards: seq<RoomShard>, byRoom: map<Room, RoomEntry>, i: nat)
    requires Placed(at, shards, byRoom) && i < NUM_SHARDS
    ensures shards[i].Keys == InShard(at, byRoom, i)
  {
  }

  lemma SweepingNone(cfg: Config, at: Room -> ShardId, rooms: Rooms, now: nat, i: nat, todo: set<Room>)
    requires todo == InShard(at, rooms, i)
    ensures Sweeping(cfg, at, rooms, now, i, todo) == rooms
  {
  }

  lemma NoDrops(cfg: Config, rooms: Rooms, now: nat)
    ensures forall l :: !DropsLink(cfg, rooms, now, {}, l)
  {
  }

  lemma SurvivesIff(cfg: Config, v: RoomView, now: nat)
    ensures Survives(cfg, v, now)
            <==> Swept(cfg, v, now).clients != map[] || Since(now, Swept(cfg, v, now).t) <= cfg.regTtl
  {
  }
}
