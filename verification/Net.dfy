/** Bytes, socket addresses and the per-host key the relay groups sources by. */
module Net {

  type Byte = b: nat | b < 256
  type Bytes = seq<Byte>

  datatype Option<+T> = None | Some(value: T)

  type Octets4 = o: seq<Byte> | |o| == 4 witness [0, 0, 0, 0]
  type Octets16 = o: seq<Byte> | |o| == 16 witness [0, 0, 0, 0, 0, 0, 0, 0, 0, 0, 0, 0, 0, 0, 0, 0]

  datatype Ip = Ip4(v4: Octets4) | Ip6(v6: Octets16)
  datatype Addr = Addr(ip: Ip, port: nat)

  const ZERO8: seq<Byte> := [0, 0, 0, 0, 0, 0, 0, 0]
  const LOOPBACK6: Octets16 := ZERO8 + [0, 0, 0, 0, 0, 0, 0, 1]

  /** `::ffff:a.b.c.d`. */
  predicate IsMapped(o: Octets16) {
    o[..10] == ZERO8 + [0, 0] && o[10..12] == [255, 255]
  }

  /** The host key: IPv4 exact (also when written IPv4-mapped), IPv6 by /64, IPv6 loopback exact. */
  function IpKey(a: Addr): (k: Ip) {
    match a.ip
    case Ip4(_) => a.ip
    case Ip6(o) =>
      if IsMapped(o) then Ip4(o[12..])
      else if o == LOOPBACK6 then a.ip
      else Ip6(o[..8] + ZERO8)
  }

  /** The IPv4 address a socket address stands for, if it stands for one. */
  function AsV4(ip: Ip): (v: Option<Octets4>) {
    match ip
    case Ip4(o) => Some(o)
    case Ip6(o) => if IsMapped(o) then Some(o[12..]) else None
  }

  /** Two sources share every per-host cap exactly when they are the same IPv4 host, or the
      same IPv6 loopback, or two other IPv6 addresses of one /64. */
  lemma IpKeyGroups(a: Addr, b: Addr)
    ensures IpKey(a) == IpKey(b) <==>
            if AsV4(a.ip).Some? || AsV4(b.ip).Some? then AsV4(a.ip) == AsV4(b.ip)
            else if a.ip.v6 == LOOPBACK6 || b.ip.v6 == LOOPBACK6 then a.ip == b.ip
            else a.ip.v6[..8] == b.ip.v6[..8]
  {
    if a.ip.Ip6? && b.ip.Ip6? && !IsMapped(a.ip.v6) && !IsMapped(b.ip.v6) {
      var x, y := a.ip.v6, b.ip.v6;
      assert (x[..8] + ZERO8)[..8] == x[..8] && (y[..8] + ZERO8)[..8] == y[..8];
      assert (x[..8] + ZERO8)[15] == 0 && (y[..8] + ZERO8)[15] == 0;
      assert LOOPBACK6[15] == 1;
    }
  }
}
