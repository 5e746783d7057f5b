/** A room of the relay, updated in place: admitted clients, pending registrations, and the
    per-host tally of the latter. */
module RoomEntries {
  import opened Net
  import opened Limiters
  import opened RelaySpec
  import opened RelayInv

  function CountOf(m: map<Ip, nat>, ip: Ip): nat { if ip in m then m[ip] else 0 }

  /** `m` counts, host by host, the addresses in `addrs`. */
  ghost predicate Tallies(cfg: Config, m: map<Ip, nat>, addrs: set<Addr>) {
    forall ip :: CountOf(m, ip) == |Bucket(cfg, addrs, ip)|
  }

  /** A counter after one more entry, and after one fewer (dropping the key at zero). */
  function Inc(m: map<Ip, nat>, ip: Ip): map<Ip, nat> { m[ip := CountOf(m, ip) + 1] }

  function Dec(m: map<Ip, nat>, ip: Ip): map<Ip, nat> {
    if ip !in m then m
    else if m[ip] <= 1 then m - {ip}
    else m[ip := m[ip] - 1]
  }

  lemma IncCount(m: map<Ip, nat>, ip: Ip, j: Ip)
    ensures CountOf(Inc(m, ip), j) == CountOf(m, j) + if j == ip then 1 else 0
  {
  }

  lemma DecCount(m: map<Ip, nat>, ip: Ip, j: Ip)
    ensures CountOf(Dec(m, ip), j) == if j == ip && CountOf(m, j) > 0 then CountOf(m, j) - 1 else CountOf(m, j)
  {
  }

  lemma TallyInsert(cfg: Config, m: map<Ip, nat>, addrs: set<Addr>, a: Addr)
    requires Tallies(cfg, m, addrs) && a !in addrs
    ensures Tallies(cfg, Inc(m, cfg.ipKey(a)), addrs + {a})
  {
    hide Bucket, CountOf;
    forall ip ensures CountOf(Inc(m, cfg.ipKey(a)), ip) == |Bucket(cfg, addrs + {a}, ip)| {
      IncCount(m, cfg.ipKey(a), ip);
      BucketInsert(cfg, addrs, a, ip);
    }
  }

  lemma TallyRemove(cfg: Config, m: map<Ip, nat>, addrs: set<Addr>, a: Addr)
    requires Tallies(cfg, m, addrs) && a in addrs
    ensures Tallies(cfg, Dec(m, cfg.ipKey(a)), addrs - {a})
  {
    hide Bucket, CountOf;
    forall ip ensures CountOf(Dec(m, cfg.ipKey(a)), ip) == |Bucket(cfg, addrs - {a}, ip)| {
      DecCount(m, cfg.ipKey(a), ip);
      BucketInsert(cfg, addrs - {a}, a, ip);
      assert addrs - {a} + {a} == addrs;
    }
  }

  /** The hosts of those `some` that are alone among `addrs`. */
  ghost function SoleHosts(cfg: Config, addrs: set<Addr>, some: set<Addr>): set<Ip> {
    set a | a in some && Sole(cfg, addrs, a) :: cfg.ipKey(a)
  }

  lemma SoleHostsInsert(cfg: Config, addrs: set<Addr>, some: set<Addr>, a: Addr)
    ensures SoleHosts(cfg, addrs, some + {a})
            == SoleHosts(cfg, addrs, some) + if Sole(cfg, addrs, a) then {cfg.ipKey(a)} else {}
  {
    hide Sole;
    assert Sole(cfg, addrs, a) ==> cfg.ipKey(a) in SoleHosts(cfg, addrs, some + {a});
  }

  function Elements<T>(q: seq<T>): set<T> { set x | x in q }

  lemma ElementsSnoc<T>(q: seq<T>, x: T)
    ensures Elements(q + [x]) == Elements(q) + {x}
  {
    assert (q + [x])[|q|] == x;
  }

  class RoomEntry {
    const cfg: Config
    var udpClients: map<Addr, Client>
    var pending: map<Addr, PendingReg>
    var pendingByIp: map<Ip, nat>
    var t: nat

    /** The tally agrees with the registrations it summarises. */
    ghost predicate Valid()
      reads this
    {
      Tallies(cfg, pendingByIp, pending.Keys)
    }

    function View(): RoomView
      reads this
    {
      RoomView(udpClients, pending, t)
    }

    constructor (cfg: Config, now: nat)
      ensures Valid() && this.cfg == cfg && View() == RoomView(map[], map[], now)
    {
      this.cfg := cfg;
      udpClients, pending, pendingByIp, t := map[], map[], map[], now;
      new;
      forall ip ensures CountOf(pendingByIp, ip) == |Bucket(cfg, pending.Keys, ip)| {
        assert Bucket(cfg, pending.Keys, ip) == {};
      }
    }

    method AddPending(src: Addr, p: PendingReg, maxPerRoom: nat) returns (ok: bool)
      requires Valid()
      modifies this
      ensures Valid()
      ensures ok == (src in old(pending) || |old(pending)| < maxPerRoom)
      ensures View() == if ok then old(View()).(pending := old(pending)[src := p]) else old(View())
    {
      if src !in pending && |pending| >= maxPerRoom {
        return false;
      }
      if src !in pending {
        TallyInsert(cfg, pendingByIp, pending.Keys, src);
        pendingByIp := Inc(pendingByIp, cfg.ipKey(src));
      }
      assert pending[src := p].Keys == pending.Keys + {src};
      assert src in pending ==> pending.Keys + {src} == pending.Keys;
      pending := pending[src := p];
      return true;
    }

    method RemovePending(src: Addr)
      requires Valid()
      modifies this
      ensures Valid()
      ensures View() == old(View()).(pending := old(pending) - {src})
    {
      if src in pending {
        TallyRemove(cfg, pendingByIp, pending.Keys, src);
        pendingByIp := Dec(pendingByIp, cfg.ipKey(src));
      }
      assert (pending - {src}).Keys == pending.Keys - {src};
      assert src !in pending ==> pending.Keys - {src} == pending.Keys;
      pending := pending - {src};
    }

    /** O(1), and equal to the number of this room's pending registrations from the host. */
    method PendingCountForIp(ip: Ip) returns (n: nat)
      requires Valid()
      ensures n == |Bucket(cfg, pending.Keys, ip)|
    {
      n := CountOf(pendingByIp, ip);
    }

    method RemoveStaleClients(now: nat) returns (unlinked: seq<Ip>)
      requires Valid()
      modifies this
      ensures Valid()
      ensures View() == Swept(cfg, old(View()), now)
      ensures Elements(unlinked) == Unlinked(cfg, old(View()), now)
    {
      unlinked := [];
      var stale := set a | a in udpClients && Stale(cfg, udpClients[a], now);
      var todo := stale;
      while todo != {}
        invariant todo <= stale
        invariant Elements(unlinked) == SoleHosts(cfg, udpClients.Keys, stale - todo)
        invariant Valid() && View() == old(View())
        decreases todo
      {
        var a :| a in todo;
        assert stale - (todo - {a}) == stale - todo + {a};
        SoleHostsInsert(cfg, udpClients.Keys, stale - todo, a);
        if Sole(cfg, udpClients.Keys, a) {
          ElementsSnoc(unlinked, cfg.ipKey(a));
          unlinked := unlinked + [cfg.ipKey(a)];
        }
        todo := todo - {a};
      }
      assert stale - {} == stale;
      assert SoleHosts(cfg, udpClients.Keys, stale) == Unlinked(cfg, old(View()), now);
      udpClients := udpClients - stale;
      ExpirePending(now);
    }

    method ExpirePending(now: nat)
      requires Valid()
      modifies this
      ensures Valid()
      ensures View() == old(View()).(pending := map a | a in old(pending)
              && !Expired(old(pending)[a], now) :: old(pending)[a])
    {
      var expired := set a | a in pending && Expired(pending[a], now);
      var todo := expired;
      while todo != {}
        invariant todo <= expired
        invariant Valid()
        invariant View() == old(View()).(pending := old(pending) - (expired - todo))
        decreases todo
      {
        var a :| a in todo;
        assert old(pending) - (expired - todo) - {a} == old(pending) - (expired - (todo - {a}));
        RemovePending(a);
        todo := todo - {a};
      }
      assert old(pending) - (expired - {}) == map a | a in old(pending)
             && !Expired(old(pending)[a], now) :: old(pending)[a];
    }
  }
}
