/** The exchange loop run over the real key exchange: two honest peers find each other. */
module Handshake {
  import opened Net
  import opened Spake2
  import opened Confirm
  import opened Exchange
  import Hex

  function SessionOf<P(==)>(c: Curve<P>, h: Crypto, me: Peer, k: Bytes): Option<Session> {
    match Process(c, h, me, k)
    case Ok(s) => Some(s)
    case Err(_) => None
  }

  function AddressOf<P(==)>(c: Curve<P>, h: Crypto, me: Peer, ses: Session, body: Bytes): Option<Bytes> {
    match AcceptHex(h, c.encode(c.n), ses, me.fp, body)
    case Ok(addr) => Some(addr)
    case Err(_) => None
  }

  function Real<P(!new, ==)>(c: Curve<P>, h: Crypto, me: Peer): Protocol {
    Protocol(
      k => SessionOf(c, h, me, k),
      (ses, addr, rnd) => Build(h, c.encode(c.n), ses, me.fp, addr, rnd),
      (ses, body) => AddressOf(c, h, me, ses, body))
  }

  /** The loop's only reason to drop a usable `spake2` message is an address that does not fit. */
  lemma RealBuilds<P(!new)>(c: Curve<P>, h: Crypto, me: Peer)
    ensures Builds(Real(c, h, me))
  {
    hide Transcript, Binding, ComputeShared, Padded;
  }

  function SpakeBody<P>(c: Curve<P>, me: Peer): Bytes { Hex.Encode(Payload(c, me)) }

  function ConfirmBody<P(==)>(c: Curve<P>, h: Crypto, me: Peer, peer: Peer, addr: Bytes, rnd: Randomness): Bytes {
    match Process(c, h, me, Payload(c, peer))
    case Err(_) => []
    case Ok(ses) =>
      match Build(h, c.encode(c.n), ses, me.fp, addr, rnd)
      case None => []
      case Some(p) => Hex.Encode(p)
  }

  /** What an honest peer sends completes a pair at the other, and the pair yields its address, its
      fingerprint and the opposite role. */
  lemma HonestPair<P(!new)>(c: Curve<P>, h: Crypto, a: Peer, b: Peer, addr: Bytes, rnd: Randomness)
    requires Honest(c, a, b) && !c.xIsZero(MeetingOf(c, a, b)) && Sealing(h) && Drawn(rnd)
    requires |addr| <= MAX_METADATA_SIZE
    ensures var ra, rb := Process(c, h, a, Payload(c, b)), Process(c, h, b, Payload(c, a));
            && ra.Ok? && rb.Ok? && ra.value.isServer != rb.value.isServer
            && Yields(Real(c, h, a), SpakeBody(c, b), ConfirmBody(c, h, b, a, addr, rnd),
                      Success(Shown(addr), b.fp, ra.value.isServer))
  {
    hide Process, Payload, Build, AcceptHex, Shown, Hex.Encode, Hex.Decode, Sealing, MeetingOf, Honest;
    Agreement(c, h, a, b);
    HonestSizes(c, a, b);
    var mine, theirs := Process(c, h, b, Payload(c, a)).value, Process(c, h, a, Payload(c, b)).value;
    ConfirmRoundTrip(h, c.encode(c.n), mine, theirs, b.fp, addr, rnd);
    Hex.RoundTrip(Payload(c, b));
    var p := Payload(c, b);
    assert p[..PAYLOAD_LEN] == p;
    assert Key(SpakeBody(c, b)) == p;
  }

  lemma HonestSizes<P(!new)>(c: Curve<P>, a: Peer, b: Peer)
    requires Honest(c, a, b)
    ensures |Payload(c, b)| == PAYLOAD_LEN && |a.fp| == |b.fp| == FINGERPRINT_SIZE && a.fp != b.fp
  {
    PayloadParts(c, b);
  }

  /** Whatever else arrives and in whatever order, a peer that has received both messages of an
      honest partner has received a message that completes the exchange. */
  lemma HonestExchange<P(!new)>(c: Curve<P>, h: Crypto, a: Peer, b: Peer, addr: Bytes, rnd: Randomness,
                                rnd': Randomness, now: nat, ms: seq<Message>)
    requires Honest(c, a, b) && !c.xIsZero(MeetingOf(c, a, b)) && Sealing(h) && Drawn(rnd)
    requires |addr| <= MAX_METADATA_SIZE
    requires Spake(SpakeBody(c, b), rnd', now) in ms && Confirmation(ConfirmBody(c, h, b, a, addr, rnd)) in ms
    ensures exists i :: 0 <= i < |ms| && Completes(Real(c, h, a), ms, i)
  {
    hide Pairs, SpakeBody, ConfirmBody, Real, Completes, Yields, Process, Honest, Sealing;
    HonestPair(c, h, a, b, addr, rnd);
    var r := Success(Shown(addr), b.fp, Process(c, h, a, Payload(c, b)).value.isServer);
    YieldsPairs(Real(c, h, a), Spake(SpakeBody(c, b), rnd', now), Confirmation(ConfirmBody(c, h, b, a, addr, rnd)), r);
    AnyPairCompletes(Real(c, h, a), ms);
  }

  /** Of all pairs among the messages only this candidate and this confirm fit. */
  ghost predicate OnlyFit(pr: Protocol, ms: seq<Message>, spake: Bytes, confirm: Bytes) {
    forall x, y :: x in ms && y in ms && Pairs(pr, x, y) ==> Key(x.body) == Key(spake) && y.body == confirm
  }

  lemma FoundIsOnly(pr: Protocol, ms: seq<Message>, i: nat, r: Success, spake: Bytes, confirm: Bytes, expected: Success)
    requires i < |ms| && Found(pr, ms, i, r) && OnlyFit(pr, ms, spake, confirm) && Yields(pr, spake, confirm, expected)
    ensures r == expected
  {
    hide Key, Outcome, Offers, Fits;
    var j :| 0 <= j < i && ((Pairs(pr, ms[j], ms[i]) && r == Outcome(pr, Key(ms[j].body), ms[i].body))
                         || (Pairs(pr, ms[i], ms[j]) && r == Outcome(pr, Key(ms[i].body), ms[j].body)));
    assert ms[i] in ms && ms[j] in ms;
  }

  /** The loop over the real key exchange: fed with any messages in any order, both of an honest partner's
      among them and no bound hit, it succeeds; and with the partner's address, fingerprint and role if
      nothing else fits. */
  method MeetPartner<P(!new, ==)>(c: Curve<P>, h: Crypto, a: Peer, b: Peer, myAddr: Bytes, addr: Bytes,
                                  rnd: Randomness, rnd': Randomness, now: nat, ms: seq<Message>)
    returns (at: nat, r: Option<Success>)
    requires Honest(c, a, b) && !c.xIsZero(MeetingOf(c, a, b)) && Sealing(h) && Drawn(rnd)
    requires |addr| <= MAX_METADATA_SIZE && Within(Real(c, h, a), myAddr, ms)
    requires Spake(SpakeBody(c, b), rnd', now) in ms && Confirmation(ConfirmBody(c, h, b, a, addr, rnd)) in ms
    ensures r.Some? && Process(c, h, a, Payload(c, b)).Ok? && Process(c, h, b, Payload(c, a)).Ok?
    ensures OnlyFit(Real(c, h, a), ms, SpakeBody(c, b), ConfirmBody(c, h, b, a, addr, rnd)) ==>
              r == Some(Success(Shown(addr), b.fp, !Process(c, h, b, Payload(c, a)).value.isServer))
  {
    hide Pairs, SpakeBody, ConfirmBody, Real, Completes, Found, Yields, Process, Honest, Sealing, Builds, Within;
    hide OnlyFit, Payload;
    ghost var pr := Real(c, h, a);
    RealBuilds(c, h, a);
    HonestExchange(c, h, a, b, addr, rnd, rnd', now, ms);
    HonestPair(c, h, a, b, addr, rnd);
    at, r := Converse(Real(c, h, a), myAddr, ms);
    ghost var i :| 0 <= i < |ms| && Completes(pr, ms, i);
    assert at <= i;
    if OnlyFit(pr, ms, SpakeBody(c, b), ConfirmBody(c, h, b, a, addr, rnd)) {
      FoundIsOnly(pr, ms, at, r.value, SpakeBody(c, b), ConfirmBody(c, h, b, a, addr, rnd),
                  Success(Shown(addr), b.fp, Process(c, h, a, Payload(c, b)).value.isServer));
    }
  }
}
