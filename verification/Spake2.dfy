/** The password-authenticated key exchange: blinded points, roles and session keys.

    The curve is any commutative group with commuting scalar multiplications and a 65-byte point
    encoding. Hashing
    and key derivation are functions left open. */
module Spake2 {
  import opened Net

  const POINT_LEN: nat := 65
  const FINGERPRINT_SIZE: nat := 32
  const PAYLOAD_LEN: nat := 2 * POINT_LEN + FINGERPRINT_SIZE

  datatype Result<+T, +E> = Ok(value: T) | Err(error: E)

  function Zeros(n: nat): Bytes { seq(n, _ => 0) }

  // ---- byte order ----

  /** Byte strings in dictionary order. */
  predicate Less(a: Bytes, b: Bytes) {
    b != [] && (a == [] || a[0] < b[0] || (a[0] == b[0] && Less(a[1..], b[1..])))
  }

  /** Of two different strings exactly one is less than the other. */
  lemma {:induction false} LessTotal(a: Bytes, b: Bytes)
    ensures !(Less(a, b) && Less(b, a))
    ensures a != b ==> Less(a, b) || Less(b, a)
    ensures a == b ==> !Less(a, b)
  {
    if a != [] && b != [] && a[0] == b[0] {
      LessTotal(a[1..], b[1..]);
      assert a == [a[0]] + a[1..] && b == [b[0]] + b[1..];
    }
  }

  /** Two strings, the smaller first. */
  function Sorted(a: Bytes, b: Bytes): Bytes { if Less(b, a) then b + a else a + b }

  lemma SortedCommutes(a: Bytes, b: Bytes)
    ensures Sorted(a, b) == Sorted(b, a)
  {
    LessTotal(a, b);
  }

  /** For strings of one length the sorted pair gives back the unordered pair. */
  lemma SortedInjective(a: Bytes, b: Bytes, p: Bytes, q: Bytes)
    requires |a| == |b| == |p| == |q| && Sorted(a, b) == Sorted(p, q)
    ensures (a == p && b == q) || (a == q && b == p)
  {
    var n, s, t := |a|, Sorted(a, b), Sorted(p, q);
    assert s[..n] == (if Less(b, a) then b else a) && s[n..] == (if Less(b, a) then a else b);
    assert t[..n] == (if Less(q, p) then q else p) && t[n..] == (if Less(q, p) then p else q);
  }

  // ---- the curve ----

  datatype Curve<!P> = Curve(
    zero: P,
    add: (P, P) -> P,
    neg: P -> P,
    mul: (int, P) -> P,
    base: P,
    m: P,
    n: P,
    encode: P -> Bytes,
    decode: Bytes -> Option<P>,
    x: P -> Bytes,
    xIsZero: P -> bool)

  ghost predicate IsGroup<P(!new)>(c: Curve<P>) {
    && (forall p, q :: c.add(p, q) == c.add(q, p))
    && (forall p, q, r :: c.add(c.add(p, q), r) == c.add(p, c.add(q, r)))
    && (forall p :: c.add(p, c.zero) == p)
    && (forall p :: c.add(p, c.neg(p)) == c.zero)
  }

  /** Scalar multiplications commute: all that the exchange needs of them. */
  ghost predicate IsAction<P(!new)>(c: Curve<P>) {
    forall k, l, p :: c.mul(k, c.mul(l, p)) == c.mul(l, c.mul(k, p))
  }

  /** Every point but the identity has a 65-byte encoding that decodes to it. */
  ghost predicate IsEncoded<P(!new)>(c: Curve<P>) {
    forall p :: p != c.zero ==> |c.encode(p)| == POINT_LEN && c.decode(c.encode(p)) == Some(p)
  }

  ghost predicate Lawful<P(!new)>(c: Curve<P>) { IsGroup(c) && IsAction(c) && IsEncoded(c) }

  /** Not a multiple of the group's order. */
  ghost predicate Nonzero<P(!new)>(c: Curve<P>, k: int) {
    forall p :: p != c.zero ==> c.mul(k, p) != c.zero
  }

  lemma AddCancels<P(!new)>(c: Curve<P>, p: P, q: P)
    requires IsGroup(c)
    ensures c.add(c.add(p, q), c.neg(q)) == p
  {
    assert c.add(c.add(p, q), c.neg(q)) == c.add(p, c.add(q, c.neg(q)));
  }

  lemma MulCommutes<P(!new)>(c: Curve<P>, k: int, l: int, p: P)
    requires IsAction(c)
    ensures c.mul(k, c.mul(l, p)) == c.mul(l, c.mul(k, p))
  {
  }

  lemma EncodedPoint<P(!new)>(c: Curve<P>, p: P)
    requires IsEncoded(c) && p != c.zero
    ensures |c.encode(p)| == POINT_LEN && c.decode(c.encode(p)) == Some(p)
  {
  }

  // ---- one side ----

  /** The password scalar and the two ephemeral scalars. */
  datatype Secret = Secret(pw: int, rM: int, rN: int)

  function BlindedM<P>(c: Curve<P>, s: Secret): P { c.add(c.mul(s.rM, c.base), c.mul(s.pw, c.m)) }
  function BlindedN<P>(c: Curve<P>, s: Secret): P { c.add(c.mul(s.rN, c.base), c.mul(s.pw, c.n)) }

  datatype SpakeError =
    | PayloadTooShort | BadFingerprint | ReflectedFingerprint | ReflectedPoint
    | InvalidPeerPoint | UnblindedIdentity | SharedIdentity | SharedXZero

  /** The x-coordinate of the shared point. (`SharedIdentity` stands for the original's panic.) */
  function ComputeShared<P(==)>(c: Curve<P>, s: Secret, peer: Bytes, peerUsedM: bool): Result<Bytes, SpakeError> {
    match c.decode(peer)
    case None => Err(InvalidPeerPoint)
    case Some(point) =>
      var unblinded := c.add(point, c.neg(c.mul(s.pw, if peerUsedM then c.m else c.n)));
      if unblinded == c.zero then Err(UnblindedIdentity)
      else
        var shared := c.mul(if peerUsedM then s.rN else s.rM, unblinded);
        if shared == c.zero then Err(SharedIdentity)
        else if c.xIsZero(shared) then Err(SharedXZero)
        else Ok(c.x(shared))
  }

  /** `SHA-256` then `HKDF` to a (confirm, encryption) key pair, the MAC, and the AEAD. */
  datatype Crypto = Crypto(
    derive: (Bytes, Bytes) -> (Bytes, Bytes),
    mac: (Bytes, Bytes) -> Bytes,
    seal: (Bytes, Bytes, Bytes, Bytes) -> Bytes,
    open: (Bytes, Bytes, Bytes, Bytes) -> Option<Bytes>)

  function Ascii(s: string): Bytes { seq(|s|, i requires 0 <= i < |s| => (s[i] as int) % 256) }

  /** What the session keys are bound to: both points, the generator, both fingerprints. */
  function Binding<P>(c: Curve<P>, my: Bytes, peer: Bytes, myFp: Bytes, peerFp: Bytes): Bytes {
    Sorted(my, peer) + c.encode(c.n) + Ascii("qvole-spake2-fingerprints") + Sorted(myFp, peerFp)
  }

  datatype Peer = Peer(secret: Secret, fp: Bytes)

  datatype Session = Session(
    myPoint: Bytes, peerPoint: Bytes, peerFp: Bytes, isServer: bool, confirmKey: Bytes, encKey: Bytes)

  function Payload<P>(c: Curve<P>, me: Peer): Bytes {
    c.encode(BlindedM(c, me.secret)) + c.encode(BlindedN(c, me.secret)) + me.fp
  }

  /** The session a peer derives from the other side's payload. Only its first 162 bytes count. */
  function Process<P(==)>(c: Curve<P>, h: Crypto, me: Peer, payload: Bytes): Result<Session, SpakeError> {
    if |payload| < PAYLOAD_LEN then Err(PayloadTooShort)
    else
      var peerM, peerN := payload[..POINT_LEN], payload[POINT_LEN..2 * POINT_LEN];
      var peerFp := payload[2 * POINT_LEN..PAYLOAD_LEN];
      var myM, myN := c.encode(BlindedM(c, me.secret)), c.encode(BlindedN(c, me.secret));
      if |me.fp| != FINGERPRINT_SIZE then Err(BadFingerprint)
      else if me.fp == peerFp then Err(ReflectedFingerprint)
      else if myM == peerM then Err(ReflectedPoint)
      else
        var isServer := Less(peerM, myM);
        var my, peer := if isServer then myN else myM, if isServer then peerM else peerN;
        match ComputeShared(c, me.secret, peer, isServer)
        case Err(e) => Err(e)
        case Ok(shared) =>
          var (ck, ek) := h.derive(Binding(c, my, peer, me.fp, peerFp), shared);
          Ok(Session(my, peer, peerFp, isServer, ck, ek))
  }

  // ---- agreement ----

  /** Both blinded points can be sent (the original panics on the identity), the scalars are
      not multiples of the order, and the fingerprint has its size. */
  ghost predicate Healthy<P(!new)>(c: Curve<P>, a: Peer) {
    && BlindedM(c, a.secret) != c.zero && BlindedN(c, a.secret) != c.zero
    && Nonzero(c, a.secret.rM) && Nonzero(c, a.secret.rN)
    && |a.fp| == FINGERPRINT_SIZE
  }

  /** The point both sides arrive at. */
  function Meeting<P>(c: Curve<P>, client: Secret, server: Secret): P {
    c.mul(server.rN, c.mul(client.rM, c.base))
  }

  lemma ServerShared<P(!new)>(c: Curve<P>, client: Peer, server: Peer)
    requires Lawful(c) && Healthy(c, client) && Healthy(c, server)
             && client.secret.pw == server.secret.pw && c.base != c.zero
    ensures ComputeShared(c, server.secret, c.encode(BlindedM(c, client.secret)), true)
         == (if c.xIsZero(Meeting(c, client.secret, server.secret))
             then Err(SharedXZero) else Ok(c.x(Meeting(c, client.secret, server.secret))))
  {
    hide IsGroup, IsAction, IsEncoded;
    EncodedPoint(c, BlindedM(c, client.secret));
    AddCancels(c, c.mul(client.secret.rM, c.base), c.mul(server.secret.pw, c.m));
  }

  lemma ClientShared<P(!new)>(c: Curve<P>, client: Peer, server: Peer)
    requires Lawful(c) && Healthy(c, client) && Healthy(c, server)
             && client.secret.pw == server.secret.pw && c.base != c.zero
    ensures ComputeShared(c, client.secret, c.encode(BlindedN(c, server.secret)), false)
         == (if c.xIsZero(Meeting(c, client.secret, server.secret))
             then Err(SharedXZero) else Ok(c.x(Meeting(c, client.secret, server.secret))))
  {
    hide IsGroup, IsAction, IsEncoded;
    EncodedPoint(c, BlindedN(c, server.secret));
    AddCancels(c, c.mul(server.secret.rN, c.base), c.mul(client.secret.pw, c.n));
    MulCommutes(c, client.secret.rM, server.secret.rN, c.base);
  }

  lemma PayloadParts<P(!new)>(c: Curve<P>, a: Peer)
    requires Lawful(c) && Healthy(c, a)
    ensures var p := Payload(c, a);
            && |p| == PAYLOAD_LEN && p[..POINT_LEN] == c.encode(BlindedM(c, a.secret))
            && p[POINT_LEN..2 * POINT_LEN] == c.encode(BlindedN(c, a.secret)) && p[2 * POINT_LEN..PAYLOAD_LEN] == a.fp
  {
    hide IsGroup, IsAction, IsEncoded;
    EncodedPoint(c, BlindedM(c, a.secret));
    EncodedPoint(c, BlindedN(c, a.secret));
  }

  lemma BindingCommutes<P>(c: Curve<P>, my: Bytes, peer: Bytes, myFp: Bytes, peerFp: Bytes)
    ensures Binding(c, my, peer, myFp, peerFp) == Binding(c, peer, my, peerFp, myFp)
  {
    SortedCommutes(my, peer);
    SortedCommutes(myFp, peerFp);
  }

  lemma CancelLeft(a: Bytes, b: Bytes, x: Bytes, y: Bytes)
    requires a + x == b + y && |a| == |b|
    ensures a == b && x == y
  {
    assert a == (a + x)[..|a|] && b == (b + y)[..|a|];
    assert x == (a + x)[|a|..] && y == (b + y)[|a|..];
  }

  /** The input of the key derivation determines both pairs it is made of: sessions between other points
      or other certificates are bound to other inputs. */
  lemma BindingInjective<P>(c: Curve<P>, my: Bytes, peer: Bytes, myFp: Bytes, peerFp: Bytes,
                            my': Bytes, peer': Bytes, myFp': Bytes, peerFp': Bytes)
    requires |my| == |peer| == |my'| == |peer'| == POINT_LEN
    requires |myFp| == |peerFp| == |myFp'| == |peerFp'| == FINGERPRINT_SIZE
    requires Binding(c, my, peer, myFp, peerFp) == Binding(c, my', peer', myFp', peerFp')
    ensures (my == my' && peer == peer') || (my == peer' && peer == my')
    ensures (myFp == myFp' && peerFp == peerFp') || (myFp == peerFp' && peerFp == myFp')
  {
    hide Ascii;
    var mid := c.encode(c.n) + Ascii("qvole-spake2-fingerprints");
    var p, p', f, f' := Sorted(my, peer), Sorted(my', peer'), Sorted(myFp, peerFp), Sorted(myFp', peerFp');
    assert Binding(c, my, peer, myFp, peerFp) == p + (mid + f);
    assert Binding(c, my', peer', myFp', peerFp') == p' + (mid + f');
    CancelLeft(p, p', mid + f, mid + f');
    CancelLeft(mid, mid, f, f');
    SortedInjective(my, peer, my', peer');
    SortedInjective(myFp, peerFp, myFp', peerFp');
  }

  /** Two sessions that fit together. */
  predicate Mirrored(a: Session, b: Session) {
    && a.isServer != b.isServer
    && a.myPoint == b.peerPoint && a.peerPoint == b.myPoint
    && a.confirmKey == b.confirmKey && a.encKey == b.encKey
  }

  ghost predicate Honest<P(!new)>(c: Curve<P>, a: Peer, b: Peer) {
    && Lawful(c) && c.base != c.zero && Healthy(c, a) && Healthy(c, b)
    && a.secret.pw == b.secret.pw && a.fp != b.fp
    && c.encode(BlindedM(c, a.secret)) != c.encode(BlindedM(c, b.secret))
  }

  /** `a` has the larger M-point. */
  predicate Serves<P>(c: Curve<P>, a: Peer, b: Peer) {
    Less(c.encode(BlindedM(c, b.secret)), c.encode(BlindedM(c, a.secret)))
  }

  /** The side with the smaller M-point is the client. */
  function MeetingOf<P>(c: Curve<P>, a: Peer, b: Peer): P {
    if Serves(c, a, b) then Meeting(c, b.secret, a.secret)
    else Meeting(c, a.secret, b.secret)
  }

  /** The one input both sides' keys are bound to: the points and fingerprints of the pair. */
  function InputOf<P>(c: Curve<P>, a: Peer, b: Peer): Bytes {
    if Serves(c, a, b)
    then Binding(c, c.encode(BlindedN(c, a.secret)), c.encode(BlindedM(c, b.secret)), a.fp, b.fp)
    else Binding(c, c.encode(BlindedM(c, a.secret)), c.encode(BlindedN(c, b.secret)), a.fp, b.fp)
  }

  /** Two honest peers with one password take opposite roles, meet in one point and derive the same
      keys, from that point's x-coordinate and the one input. The only way not to is a meeting point with
      x-coordinate zero, and then both see it. */
  lemma Agreement<P(!new)>(c: Curve<P>, h: Crypto, a: Peer, b: Peer)
    requires Honest(c, a, b)
    ensures var ra, rb := Process(c, h, a, Payload(c, b)), Process(c, h, b, Payload(c, a));
            if c.xIsZero(MeetingOf(c, a, b)) then ra == rb == Err(SharedXZero)
            else
              && ra.Ok? && rb.Ok? && Mirrored(ra.value, rb.value) && ra.value.peerFp == b.fp && rb.value.peerFp == a.fp
              && (ra.value.confirmKey, ra.value.encKey) == h.derive(InputOf(c, a, b), c.x(MeetingOf(c, a, b)))
  {
    hide Lawful, Healthy, ComputeShared, Binding, Payload;
    PayloadParts(c, a);
    PayloadParts(c, b);
    var aM, bM := c.encode(BlindedM(c, a.secret)), c.encode(BlindedM(c, b.secret));
    LessTotal(aM, bM);
    var aN, bN := c.encode(BlindedN(c, a.secret)), c.encode(BlindedN(c, b.secret));
    if Less(bM, aM) {
      ServerShared(c, b, a);
      ClientShared(c, b, a);
      BindingCommutes(c, aN, bM, a.fp, b.fp);
    } else {
      ServerShared(c, a, b);
      ClientShared(c, a, b);
      BindingCommutes(c, aM, bN, a.fp, b.fp);
    }
  }

  // ---- what the keys depend on ----

  /** The point a side was sent, with the mask its own password makes taken off. */
  function Unmasked<P>(c: Curve<P>, s: Secret, peer: P, peerUsedM: bool): P {
    c.add(peer, c.neg(c.mul(s.pw, if peerUsedM then c.m else c.n)))
  }

  /** The point it arrives at: that, times the scalar of its role. */
  function Reached<P>(c: Curve<P>, s: Secret, peer: P, peerUsedM: bool): P {
    c.mul(if peerUsedM then s.rN else s.rM, Unmasked(c, s, peer, peerUsedM))
  }

  /** The x-coordinate behind a session. */
  function SharedX<P>(c: Curve<P>, me: Peer, ses: Session): Bytes {
    match c.decode(ses.peerPoint)
    case None => []
    case Some(p) => c.x(Reached(c, me.secret, p, ses.isServer))
  }

  function SessionInput<P>(c: Curve<P>, me: Peer, ses: Session): Bytes {
    Binding(c, ses.myPoint, ses.peerPoint, me.fp, ses.peerFp)
  }

  /** Whatever was sent: a session has a peer with another fingerprint and a point that decodes, arrives at a point with
      a nonzero x-coordinate, and has the keys of that coordinate bound to both points and both fingerprints. */
  lemma SessionSound<P>(c: Curve<P>, h: Crypto, me: Peer, payload: Bytes)
    requires Process(c, h, me, payload).Ok?
    ensures var ses := Process(c, h, me, payload).value;
            && c.decode(ses.peerPoint).Some? && |ses.peerPoint| == POINT_LEN
            && ses.myPoint == c.encode(if ses.isServer then BlindedN(c, me.secret) else BlindedM(c, me.secret))
            && |me.fp| == |ses.peerFp| == FINGERPRINT_SIZE && me.fp != ses.peerFp
            && (var z := Reached(c, me.secret, c.decode(ses.peerPoint).value, ses.isServer);
                z != c.zero && !c.xIsZero(z))
            && (ses.confirmKey, ses.encKey) == h.derive(SessionInput(c, me, ses), SharedX(c, me, ses))
  {
    hide Binding;
  }

  /** The derivation does not send these two inputs to one key pair. */
  predicate Uncollided(h: Crypto, a: Bytes, x: Bytes, b: Bytes, y: Bytes) {
    h.derive(a, x) == h.derive(b, y) ==> a == b && x == y
  }

  predicate SamePair<T(==)>(a: T, b: T, p: T, q: T) { (a == p && b == q) || (a == q && b == p) }

  lemma OwnPointLength<P(!new)>(c: Curve<P>, h: Crypto, me: Peer, payload: Bytes)
    requires Lawful(c) && Healthy(c, me) && Process(c, h, me, payload).Ok?
    ensures |Process(c, h, me, payload).value.myPoint| == POINT_LEN
  {
    hide IsGroup, IsAction, IsEncoded, Process;
    SessionSound(c, h, me, payload);
    EncodedPoint(c, BlindedM(c, me.secret));
    EncodedPoint(c, BlindedN(c, me.secret));
  }

  lemma BindingOfPairs<P>(c: Curve<P>, my: Bytes, peer: Bytes, myFp: Bytes, peerFp: Bytes,
                          my': Bytes, peer': Bytes, myFp': Bytes, peerFp': Bytes)
    requires SamePair(my, peer, my', peer') && SamePair(myFp, peerFp, myFp', peerFp')
    ensures Binding(c, my, peer, myFp, peerFp) == Binding(c, my', peer', myFp', peerFp')
  {
    SortedCommutes(my, peer);
    SortedCommutes(myFp, peerFp);
  }

  /** Of any two sessions of any two peers, barring a collision of the derivation: their keys are the same if and only
      if they have the same two points, the same two fingerprints, and arrive at the same x-coordinate. */
  lemma KeysEqualIff<P(!new)>(c: Curve<P>, h: Crypto, me: Peer, payload: Bytes, me': Peer, payload': Bytes)
    requires Lawful(c) && Healthy(c, me) && Healthy(c, me')
    requires Process(c, h, me, payload).Ok? && Process(c, h, me', payload').Ok?
    requires var s, s' := Process(c, h, me, payload).value, Process(c, h, me', payload').value;
             Uncollided(h, SessionInput(c, me, s), SharedX(c, me, s), SessionInput(c, me', s'), SharedX(c, me', s'))
    ensures var s, s' := Process(c, h, me, payload).value, Process(c, h, me', payload').value;
            s.confirmKey == s'.confirmKey && s.encKey == s'.encKey <==>
            && SamePair(s.myPoint, s.peerPoint, s'.myPoint, s'.peerPoint)
            && SamePair(me.fp, s.peerFp, me'.fp, s'.peerFp) && SharedX(c, me, s) == SharedX(c, me', s')
  {
    hide Lawful, Healthy, Process, Binding, SharedX, Reached;
    SessionSound(c, h, me, payload);
    SessionSound(c, h, me', payload');
    OwnPointLength(c, h, me, payload);
    OwnPointLength(c, h, me', payload');
    var s, s' := Process(c, h, me, payload).value, Process(c, h, me', payload').value;
    if SessionInput(c, me, s) == SessionInput(c, me', s') {
      BindingInjective(c, s.myPoint, s.peerPoint, me.fp, s.peerFp, s'.myPoint, s'.peerPoint, me'.fp, s'.peerFp);
    }
    if SamePair(s.myPoint, s.peerPoint, s'.myPoint, s'.peerPoint) && SamePair(me.fp, s.peerFp, me'.fp, s'.peerFp) {
      BindingOfPairs(c, s.myPoint, s.peerPoint, me.fp, s.peerFp, s'.myPoint, s'.peerPoint, me'.fp, s'.peerFp);
    }
  }

  /** Two healthy peers, each with a password of its own. */
  ghost predicate Strangers<P(!new)>(c: Curve<P>, a: Peer, b: Peer) {
    && Lawful(c) && Healthy(c, a) && Healthy(c, b) && a.fp != b.fp
    && c.encode(BlindedM(c, a.secret)) != c.encode(BlindedM(c, b.secret))
  }

  /** The point `a` unmasks when it meets `b`. */
  function Unmasks<P>(c: Curve<P>, a: Peer, b: Peer): P {
    var server := Serves(c, a, b);
    Unmasked(c, a.secret, if server then BlindedM(c, b.secret) else BlindedN(c, b.secret), server)
  }

  /** The point `a` arrives at. */
  function Arrives<P>(c: Curve<P>, a: Peer, b: Peer): P {
    var server := Serves(c, a, b);
    Reached(c, a.secret, if server then BlindedM(c, b.secret) else BlindedN(c, b.secret), server)
  }

  /** Meeting another healthy peer fails if and only if nothing is left once the mask is off, or the x-coordinate is
      zero. */
  lemma MeetsIff<P(!new)>(c: Curve<P>, h: Crypto, a: Peer, b: Peer)
    requires Strangers(c, a, b)
    ensures var r := Process(c, h, a, Payload(c, b));
            && (r == Err(UnblindedIdentity) <==> Unmasks(c, a, b) == c.zero)
            && (r == Err(SharedXZero) <==> Unmasks(c, a, b) != c.zero && c.xIsZero(Arrives(c, a, b)))
            && (r.Ok? <==> Unmasks(c, a, b) != c.zero && !c.xIsZero(Arrives(c, a, b)))
  {
    hide IsGroup, IsAction, IsEncoded, Binding, Payload, Less;
    PayloadParts(c, b);
    EncodedPoint(c, BlindedM(c, b.secret));
    EncodedPoint(c, BlindedN(c, b.secret));
  }

  /** A payload with one's own fingerprint or one's own M-point is refused, whoever sent it. */
  lemma ReflectionRefused<P>(c: Curve<P>, h: Crypto, me: Peer, payload: Bytes)
    requires |payload| >= PAYLOAD_LEN
    requires payload[2 * POINT_LEN..PAYLOAD_LEN] == me.fp || payload[..POINT_LEN] == c.encode(BlindedM(c, me.secret))
    ensures Process(c, h, me, payload).Err?
  {
    hide Binding, Less, ComputeShared;
  }

  lemma MetSession<P(!new)>(c: Curve<P>, h: Crypto, a: Peer, b: Peer)
    requires Strangers(c, a, b) && Process(c, h, a, Payload(c, b)).Ok?
    ensures var ses := Process(c, h, a, Payload(c, b)).value;
            var aM, bM := BlindedM(c, a.secret), BlindedM(c, b.secret);
            && ses.isServer == Serves(c, a, b) && ses.peerFp == b.fp
            && ses.myPoint == c.encode(if ses.isServer then BlindedN(c, a.secret) else aM)
            && ses.peerPoint == c.encode(if ses.isServer then bM else BlindedN(c, b.secret))
            && SharedX(c, a, ses) == c.x(Arrives(c, a, b))
  {
    hide IsGroup, IsAction, IsEncoded, Binding, Payload, Reached, Nonzero, Less;
    PayloadParts(c, b);
    EncodedPoint(c, BlindedM(c, b.secret));
    EncodedPoint(c, BlindedN(c, b.secret));
  }

  /** Whatever their passwords, two peers that reach a session with each other take opposite roles, and have the same
      keys, barring a collision, if and only if they arrive at the same x-coordinate. With one password they do
      (`Agreement`); with two they have the same keys only if the points they unblind happen to agree. */
  lemma PasswordsDecide<P(!new)>(c: Curve<P>, h: Crypto, a: Peer, b: Peer)
    requires Strangers(c, a, b) && Process(c, h, a, Payload(c, b)).Ok? && Process(c, h, b, Payload(c, a)).Ok?
    requires var s, t := Process(c, h, a, Payload(c, b)).value, Process(c, h, b, Payload(c, a)).value;
             Uncollided(h, SessionInput(c, a, s), SharedX(c, a, s), SessionInput(c, b, t), SharedX(c, b, t))
    ensures var s, t := Process(c, h, a, Payload(c, b)).value, Process(c, h, b, Payload(c, a)).value;
            && s.isServer != t.isServer && s.myPoint == t.peerPoint && s.peerPoint == t.myPoint
            && (s.confirmKey == t.confirmKey && s.encKey == t.encKey <==>
                c.x(Arrives(c, a, b)) == c.x(Arrives(c, b, a)))
  {
    hide Lawful, Healthy, Process, Binding, SharedX, Reached, Payload, Arrives, Uncollided;
    LessTotal(c.encode(BlindedM(c, a.secret)), c.encode(BlindedM(c, b.secret)));
    MetSession(c, h, a, b);
    MetSession(c, h, b, a);
    KeysEqualIff(c, h, a, Payload(c, b), b, Payload(c, a));
  }

  /** Bytes after the 162nd never matter. */
  lemma ProcessPrefix<P>(c: Curve<P>, h: Crypto, me: Peer, payload: Bytes)
    requires |payload| >= PAYLOAD_LEN
    ensures Process(c, h, me, payload) == Process(c, h, me, payload[..PAYLOAD_LEN])
  {
    var p := payload[..PAYLOAD_LEN];
    assert p[..POINT_LEN] == payload[..POINT_LEN];
    assert p[POINT_LEN..2 * POINT_LEN] == payload[POINT_LEN..2 * POINT_LEN];
    assert p[2 * POINT_LEN..PAYLOAD_LEN] == payload[2 * POINT_LEN..PAYLOAD_LEN];
  }

  // ---- the assumptions are met by a small group ----

  type Mod5 = i: nat | i < 5

  function Add5(p: Mod5, q: Mod5): Mod5 { if p + q < 5 then p + q else p + q - 5 }
  function Neg5(p: Mod5): Mod5 { if p == 0 then 0 else 5 - p }
  function Mul5(k: int, p: Mod5): Mod5 { if k == 2 then Add5(p, p) else p }
  function Encode5(p: Mod5): Bytes { [4, p] + Zeros(63) }
  function Decode5(b: Bytes): Option<Mod5> { if |b| == POINT_LEN && b[1] < 5 then Some(b[1]) else None }
  function X5(p: Mod5): Bytes { [p] }
  predicate XIsZero5(p: Mod5) { false }

  function Curve5(): Curve<Mod5> { Curve(0, Add5, Neg5, Mul5, 1, 2, 3, Encode5, Decode5, X5, XIsZero5) }

  lemma Curve5Lawful()
    ensures Lawful(Curve5())
  {
  }

  /** The hypotheses of `Agreement` hold of some peers. */
  lemma HonestPeersExist()
    ensures Honest(Curve5(), Peer(Secret(1, 1, 1), Zeros(32)), Peer(Secret(1, 2, 1), [1] + Zeros(31)))
  {
    hide Lawful;
    Curve5Lawful();
    var c, a, b := Curve5(), Peer(Secret(1, 1, 1), Zeros(32)), Peer(Secret(1, 2, 1), [1] + Zeros(31));
    assert a.fp[0] == 0 && b.fp[0] == 1;
    assert c.encode(BlindedM(c, a.secret))[1] == 3 && c.encode(BlindedM(c, b.secret))[1] == 4;
  }
}
