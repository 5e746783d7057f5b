/** One datagram through the relay: parsed, handled, answered. */
module Packets {
  import opened Net
  import opened Sizes
  import opened RelaySpec
  import opened RelayInv
  import opened RoomEntries
  import opened RelayServer
  import opened Wire
  import Hex

  type Datagram = (Addr, Bytes)

  /** The event a datagram stands for, if it is well formed. */
  function EventOf(data: Bytes, src: Addr, mint: Cookie, now: nat): Option<Event> {
    match Parse(data)
    case RegPacket(room, cred) => Some(Reg(room, cred, src, mint, now))
    case MsgPacket(room, _, _) => Some(Msg(room, src, now))
    case Junk => None
  }

  /** The answer to a REG; `shown` is the text of the sender's address. */
  function ReplyTo(room: Room, src: Addr, shown: Bytes, reply: Reply): seq<Datagram> {
    match reply
    case Dropped(_) => []
    case Challenge(cookie) => [(src, RenderChallenge(room, cookie))]
    case Regd => [(src, RenderRegd(room, shown))]
  }

  /** What the sender of a REG reads in the answer: its address as the relay sees it, or the cookie to come
      back with; and nothing if it was dropped. */
  lemma ReplyReads(room: Room, src: Addr, shown: Bytes, reply: Reply)
    requires ValidRoom(room) && Inked(shown) && (reply.Challenge? ==> |reply.cookie| == COOKIE_BYTES)
    ensures var out := ReplyTo(room, src, shown, reply);
            match reply
            case Dropped(_) => out == []
            case Regd => |out| == 1 && out[0].0 == src && Read(room, out[0].1) == Registered(shown)
            case Challenge(cookie) =>
              |out| == 1 && out[0].0 == src && Read(room, out[0].1) == Challenged(Hex.Encode(cookie))
  {
    hide Read;
    match reply
    case Dropped(_) =>
    case Regd => RegdReads(room, shown);
    case Challenge(cookie) => ChallengeReads(room, cookie);
  }

  /** `out` is the line `msg`, once for every address in `to`. */
  ghost predicate Multicast(out: seq<Datagram>, to: set<Addr>, msg: Bytes) {
    && |out| == |to|
    && (forall i :: 0 <= i < |out| ==> out[i].0 in to && out[i].1 == msg)
    && (forall a :: a in to ==> (a, msg) in out)
  }

  /** What a packet with this outcome makes the relay send. */
  ghost predicate Sends(p: Packet, src: Addr, shown: Bytes, outcome: Outcome, out: seq<Datagram>) {
    match outcome
    case Silent => false
    case Replied(reply) => p.RegPacket? && out == ReplyTo(p.room, src, shown, reply)
    case Forwarded(Refused(_)) => out == []
    case Forwarded(Routed(to)) => p.MsgPacket? && Multicast(out, to, RenderMsgd(p.phase, p.body))
  }

  method Fan(targets: seq<Addr>, msg: Bytes) returns (out: seq<Datagram>)
    ensures |out| == |targets| && forall i :: 0 <= i < |out| ==> out[i] == (targets[i], msg)
  {
    out := [];
    for i := 0 to |targets|
      invariant |out| == i && forall j :: 0 <= j < i ==> out[j] == (targets[j], msg)
    {
      out := out + [(targets[i], msg)];
    }
  }

  lemma FanOut(targets: seq<Addr>, to: set<Addr>, msg: Bytes, out: seq<Datagram>)
    requires Elements(targets) == to && |targets| == |to|
    requires |out| == |targets| && forall i :: 0 <= i < |out| ==> out[i] == (targets[i], msg)
    ensures Multicast(out, to, msg)
  {
    forall i | 0 <= i < |out| ensures out[i].0 in to {
      assert targets[i] in Elements(targets);
    }
    forall a | a in to ensures (a, msg) in out {
      assert a in Elements(targets);
      var i :| 0 <= i < |targets| && targets[i] == a;
      assert out[i] == (a, msg);
    }
  }

  /** What a peer writes is the event it means, and a datagram the relay cannot read is none. */
  lemma SentIsSeen(room: Bytes, cookie: Bytes, phase: Bytes, body: Bytes, data: Bytes, src: Addr, mint: Cookie,
                   now: nat)
    requires ValidRoom(room) && |cookie| == COOKIE_BYTES
    requires IsPhase(phase) && ValidHex(body) && |body| <= MAX_MSG_BODY_LEN
    ensures EventOf(RenderReg(room, []), src, mint, now) == Some(Reg(room, Absent, src, mint, now))
    ensures EventOf(RenderReg(room, Hex.Encode(cookie)), src, mint, now)
         == Some(Reg(room, Presented(cookie), src, mint, now))
    ensures EventOf(RenderMsg(room, phase, body), src, mint, now) == Some(Msg(room, src, now))
    ensures EventOf(data, src, mint, now) == None <==> Parse(data) == Junk
  {
    hide Parse, RenderReg, RenderMsg;
    RegParses(room);
    CookieRegParses(room, cookie);
    MsgParses(room, phase, body);
  }

  /** A message that is routed reaches each recipient once, and is read there as it was sent. */
  lemma Delivered(room: Room, phase: Bytes, body: Bytes, src: Addr, shown: Bytes, to: set<Addr>, out: seq<Datagram>)
    requires IsPhase(phase) && ValidHex(body)
    requires Sends(MsgPacket(room, phase, body), src, shown, Forwarded(Routed(to)), out)
    ensures forall i :: 0 <= i < |out| ==> out[i].0 in to && Read(room, out[i].1) == Message(phase, body)
    ensures forall a :: a in to ==> exists i :: 0 <= i < |out| && out[i].0 == a
    ensures forall i, j :: 0 <= i < j < |out| ==> out[i].0 != out[j].0
  {
    hide Read, RenderMsgd;
    var msg := RenderMsgd(phase, body);
    MsgdReads(room, phase, body);
    forall a | a in to ensures exists i :: 0 <= i < |out| && out[i].0 == a {
      var i :| 0 <= i < |out| && out[i] == (a, msg);
    }
    Once(out, to);
  }

  /** As many datagrams as recipients, and all of them reached: none twice. */
  lemma Once(out: seq<Datagram>, to: set<Addr>)
    requires |out| == |to| && forall a :: a in to ==> exists i :: 0 <= i < |out| && out[i].0 == a
    ensures forall i, j :: 0 <= i < j < |out| ==> out[i].0 != out[j].0
  {
    if i, j :| 0 <= i < j < |out| && out[i].0 == out[j].0 {
      var fewer := out[..j] + out[j + 1..];
      forall a | a in to ensures a in Elements(Names(fewer)) {
        var k :| 0 <= k < |out| && out[k].0 == a;
        var at := if k == j then i else k;
        assert out[at].0 == a && at != j;
        var pos := if at < j then at else at - 1;
        assert fewer[pos] == out[at] && Names(fewer)[pos] == a;
      }
      SubsetSize(to, Elements(Names(fewer)));
      ElementsAtMost(Names(fewer));
      assert false;
    }
  }

  function Names(out: seq<Datagram>): (ns: seq<Addr>)
    ensures |ns| == |out| && forall i :: 0 <= i < |out| ==> ns[i] == out[i].0
  {
    seq(|out|, i requires 0 <= i < |out| => out[i].0)
  }

  lemma {:induction false} ElementsAtMost(ns: seq<Addr>)
    ensures |Elements(ns)| <= |ns|
  {
    if ns != [] {
      var n := |ns| - 1;
      ElementsAtMost(ns[..n]);
      ElementsSnoc(ns[..n], ns[n]);
      assert ns[..n] + [ns[n]] == ns;
    }
  }

  method HandlePacket(relay: Relay, data: Bytes, src: Addr, shown: Bytes, mint: Cookie, now: nat)
    returns (out: seq<Datagram>)
    requires relay.Valid() && Positive(relay.cfg)
    modifies relay`reg, relay.regs, relay.table, relay.table.entries, relay.index, relay.store
    ensures relay.Valid() && fresh(relay.table.entries - old(relay.table.entries)) && |old(relay.reg)| == NUM_SHARDS
    ensures match EventOf(data, src, mint, now)
            case None => relay.Abs() == old(relay.Abs()) && out == []
            case Some(e) => && relay.Abs() == Step(relay.cfg, old(relay.Abs()), e).0
                            && Sends(Parse(data), src, shown, Step(relay.cfg, old(relay.Abs()), e).1, out)
  {
    hide Relay.Coupled, Parse, RegStep, MsgStep, RenderMsgd, RenderChallenge, Multicast, Elements;
    relay.RegCount();
    hide Inv;
    match Parse(data)
    case RegPacket(room, cred) =>
      var reply := relay.HandleReg(room, cred, src, mint, now);
      out := ReplyTo(room, src, shown, reply);
    case MsgPacket(room, phase, body) =>
      var why, targets := relay.HandleMsg(room, src, now);
      if why.Some? {
        return [];
      }
      out := Fan(targets, RenderMsgd(phase, body));
      FanOut(targets, Elements(targets), RenderMsgd(phase, body), out);
    case Junk =>
      out := [];
  }
}
