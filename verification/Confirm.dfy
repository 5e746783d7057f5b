/** Key confirmation: a MAC over both points, both fingerprints and a nonce, with the sender's
    encrypted address beside it. */
module Confirm {
  import opened Net
  import opened Spake2
  import Hex

  const MAX_METADATA_SIZE: nat := 52
  const NONCE_SIZE: nat := 16
  const MAC_SIZE: nat := 32
  const AEAD_NONCE_SIZE: nat := 12
  const PAD_SIZE: nat := 32
  const CONFIRM_SIZE: nat := 160

  datatype ConfirmError = BadHex | TooShort | Mismatch | Undecryptable

  // ---- transcript ----

  /** What a confirm is a MAC of. */
  function Transcript(gen: Bytes, my: Bytes, peer: Bytes, nonce: Bytes, sender: Bytes, receiver: Bytes): Bytes {
    Sorted(my, peer) + gen + Ascii("qvole-spake2-confirm-sender") + sender
      + Ascii("qvole-spake2-confirm-receiver") + receiver + nonce + Ascii("qvole-spake2-confirm")
  }

  /** Undefined for an empty nonce, for odd-sized fingerprints and for a reflected one. */
  function Compute(h: Crypto, key: Bytes, gen: Bytes, my: Bytes, peer: Bytes, nonce: Bytes, sender: Bytes,
                   receiver: Bytes): Option<Bytes> {
    if nonce == [] || |sender| != FINGERPRINT_SIZE || |receiver| != FINGERPRINT_SIZE || sender == receiver then None
    else Some(h.mac(key, Transcript(gen, my, peer, nonce, sender, receiver)))
  }

  /** The verifier swaps the fingerprints: the peer was the sender. */
  predicate Verify(h: Crypto, key: Bytes, gen: Bytes, my: Bytes, peer: Bytes, nonce: Bytes, myFp: Bytes, peerFp: Bytes,
                   tag: Bytes) {
    Compute(h, key, gen, my, peer, nonce, peerFp, myFp) == Some(tag)
  }

  /** Points of one size, fingerprints and nonces of their sizes: the transcript determines the
      unordered pair of points, the sender, the receiver and the nonce. */
  lemma TranscriptInjective(gen: Bytes, my: Bytes, peer: Bytes, nonce: Bytes, s: Bytes, r: Bytes,
                            my': Bytes, peer': Bytes, nonce': Bytes, s': Bytes, r': Bytes)
    requires |my| == |peer| == |my'| == |peer'| == POINT_LEN
    requires |s| == |r| == |s'| == |r'| == FINGERPRINT_SIZE && |nonce| == |nonce'|
    requires Transcript(gen, my, peer, nonce, s, r) == Transcript(gen, my', peer', nonce', s', r')
    ensures ((my == my' && peer == peer') || (my == peer' && peer == my')) && nonce == nonce' && s == s' && r == r'
  {
    hide Ascii, Sorted;
    var i1, i2, i3 := Ascii("qvole-spake2-confirm-sender"), Ascii("qvole-spake2-confirm-receiver"),
        Ascii("qvole-spake2-confirm");
    var p, p' := Sorted(my, peer), Sorted(my', peer');
    SortedSize(my, peer);
    SortedSize(my', peer');
    Regroup(p, gen, i1, s, i2, r, nonce, i3);
    Regroup(p', gen, i1, s', i2, r', nonce', i3);
    CancelLeft(p, p', gen + (i1 + (s + (i2 + (r + (nonce + i3))))), gen + (i1 + (s' + (i2 + (r' + (nonce' + i3))))));
    CancelLeft(gen, gen, i1 + (s + (i2 + (r + (nonce + i3)))), i1 + (s' + (i2 + (r' + (nonce' + i3)))));
    CancelLeft(i1, i1, s + (i2 + (r + (nonce + i3))), s' + (i2 + (r' + (nonce' + i3))));
    CancelLeft(s, s', i2 + (r + (nonce + i3)), i2 + (r' + (nonce' + i3)));
    CancelLeft(i2, i2, r + (nonce + i3), r' + (nonce' + i3));
    CancelLeft(r, r', nonce + i3, nonce' + i3);
    CancelLeft(nonce, nonce', i3, i3);
    SortedInjective(my, peer, my', peer');
  }

  lemma SortedSize(a: Bytes, b: Bytes)
    ensures |Sorted(a, b)| == |a| + |b|
  {
  }

  lemma Regroup(a: Bytes, b: Bytes, c: Bytes, d: Bytes, e: Bytes, f: Bytes, g: Bytes, i: Bytes)
    ensures a + b + c + d + e + f + g + i == a + (b + (c + (d + (e + (f + (g + i))))))
  {
  }

  /** Two different (key, message) pairs with one tag. */
  predicate Collision(h: Crypto, key: Bytes, msg: Bytes, key': Bytes, msg': Bytes) {
    (key != key' || msg != msg') && h.mac(key, msg) == h.mac(key', msg')
  }

  /** Barring a MAC collision, a tag verifies exactly for the same key, the same unordered pair of
      points, the same nonce and the same ordered (sender, receiver) fingerprints. */
  lemma VerifiesIff(h: Crypto, gen: Bytes, key: Bytes, my: Bytes, peer: Bytes, nonce: Bytes, myFp: Bytes, peerFp: Bytes,
                    key': Bytes, p: Bytes, q: Bytes, nonce': Bytes, s: Bytes, r: Bytes)
    requires |my| == |peer| == |p| == |q| == POINT_LEN && |nonce| == |nonce'| == NONCE_SIZE
    requires |s| == |r| == |myFp| == |peerFp| == FINGERPRINT_SIZE && s != r
    requires !Collision(h, key, Transcript(gen, my, peer, nonce, peerFp, myFp),
                        key', Transcript(gen, p, q, nonce', s, r))
    ensures Verify(h, key, gen, my, peer, nonce, myFp, peerFp, Compute(h, key', gen, p, q, nonce', s, r).value) <==>
            && key == key' && nonce == nonce' && peerFp == s && myFp == r
            && ((my == p && peer == q) || (my == q && peer == p))
  {
    hide Transcript;
    if h.mac(key, Transcript(gen, my, peer, nonce, peerFp, myFp)) == h.mac(key', Transcript(gen, p, q, nonce', s, r)) {
      TranscriptInjective(gen, my, peer, nonce, peerFp, myFp, p, q, nonce', s, r);
    }
    if my == q && peer == p { SwappedTranscript(gen, my, peer, nonce, peerFp, myFp); }
  }

  lemma SwappedTranscript(gen: Bytes, my: Bytes, peer: Bytes, nonce: Bytes, s: Bytes, r: Bytes)
    ensures Transcript(gen, my, peer, nonce, s, r) == Transcript(gen, peer, my, nonce, s, r)
  {
    SortedCommutes(my, peer);
  }

  // ---- messages ----

  /** The AEAD opens what it sealed, and seals to 16 bytes more; the MAC has its size. */
  ghost predicate Sealing(h: Crypto) {
    && (forall k, n, a, d :: |h.seal(k, n, a, d)| == |d| + 16 && h.open(k, n, a, h.seal(k, n, a, d)) == Some(d))
    && (forall k, m :: |h.mac(k, m)| == MAC_SIZE)
  }

  /** The random bytes of one confirm. */
  datatype Randomness = Randomness(nonce: Bytes, aeadNonce: Bytes, pad: Bytes)

  predicate Drawn(rnd: Randomness) {
    |rnd.nonce| == NONCE_SIZE && |rnd.aeadNonce| == AEAD_NONCE_SIZE && |rnd.pad| == PAD_SIZE
  }

  function Padded(addr: Bytes): Bytes
    requires |addr| <= MAX_METADATA_SIZE
  {
    addr + Zeros(MAX_METADATA_SIZE - |addr|)
  }

  /** nonce, MAC, sealed address, random padding. */
  function Build(h: Crypto, gen: Bytes, ses: Session, myFp: Bytes, addr: Bytes, rnd: Randomness): Option<Bytes> {
    match Compute(h, ses.confirmKey, gen, ses.myPoint, ses.peerPoint, rnd.nonce, myFp, ses.peerFp)
    case None => None
    case Some(tag) =>
      if |addr| > MAX_METADATA_SIZE then None
      else Some(rnd.nonce + tag + rnd.aeadNonce
          + h.seal(ses.encKey, rnd.aeadNonce, Sorted(ses.myPoint, ses.peerPoint), Padded(addr)) + rnd.pad)
  }

  /** Everything before the first zero byte. */
  function BeforeZero(b: Bytes): (p: Bytes)
    ensures p <= b && 0 !in p && (p == b || b[|p|] == 0)
  {
    if b == [] || b[0] == 0 then [] else [b[0]] + BeforeZero(b[1..])
  }

  /** The text with one character per byte, in UTF-8: a byte from 128 on takes two. */
  function Chars(b: Bytes): Bytes {
    if b == [] then []
    else (if b[0] < 128 then [b[0]] else [192 + b[0] / 64, 128 + b[0] % 64]) + Chars(b[1..])
  }

  predicate IsAscii(b: Bytes) { forall i :: 0 <= i < |b| ==> b[i] < 128 }

  lemma {:induction false} CharsFacts(b: Bytes)
    ensures |Chars(b)| >= |b| && (|Chars(b)| == |b| <==> IsAscii(b)) && (IsAscii(b) ==> Chars(b) == b)
    ensures 0 !in b ==> 0 !in Chars(b)
  {
    if b != [] {
      CharsFacts(b[1..]);
      assert b == [b[0]] + b[1..];
      assert IsAscii(b) <==> b[0] < 128 && IsAscii(b[1..]);
    }
  }

  /** The sender's address, if the confirm is genuine. Only the first 160 bytes count. */
  function Accept(h: Crypto, gen: Bytes, ses: Session, myFp: Bytes, payload: Bytes): Result<Bytes, ConfirmError> {
    if |payload| < CONFIRM_SIZE then Err(TooShort)
    else
      var nonce, tag := payload[..NONCE_SIZE], payload[NONCE_SIZE..NONCE_SIZE + MAC_SIZE];
      var sealed := payload[NONCE_SIZE + MAC_SIZE..CONFIRM_SIZE - PAD_SIZE];
      if !Verify(h, ses.confirmKey, gen, ses.myPoint, ses.peerPoint, nonce, myFp, ses.peerFp, tag) then Err(Mismatch)
      else match h.open(ses.encKey, sealed[..AEAD_NONCE_SIZE], Sorted(ses.myPoint, ses.peerPoint),
          sealed[AEAD_NONCE_SIZE..])
        case None => Err(Undecryptable)
        case Some(padded) => Ok(Chars(BeforeZero(padded)))
  }

  function AcceptHex(h: Crypto, gen: Bytes, ses: Session, myFp: Bytes, body: Bytes): Result<Bytes, ConfirmError> {
    match Hex.Decode(body)
    case None => Err(BadHex)
    case Some(payload) => Accept(h, gen, ses, myFp, payload)
  }

  lemma {:induction false} BeforeZeroPadded(addr: Bytes, n: nat)
    requires 0 !in addr
    ensures BeforeZero(addr + Zeros(n)) == addr
  {
    if addr != [] {
      assert (addr + Zeros(n))[1..] == addr[1..] + Zeros(n);
      BeforeZeroPadded(addr[1..], n);
    }
  }

  lemma BuildParts(h: Crypto, gen: Bytes, ses: Session, myFp: Bytes, addr: Bytes, rnd: Randomness)
    requires Sealing(h) && Drawn(rnd) && Build(h, gen, ses, myFp, addr, rnd).Some?
    ensures var p := Build(h, gen, ses, myFp, addr, rnd).value;
            && |p| == CONFIRM_SIZE && p[..NONCE_SIZE] == rnd.nonce
            && Some(p[NONCE_SIZE..NONCE_SIZE + MAC_SIZE])
                == Compute(h, ses.confirmKey, gen, ses.myPoint, ses.peerPoint, rnd.nonce, myFp, ses.peerFp)
            && p[NONCE_SIZE + MAC_SIZE..CONFIRM_SIZE - PAD_SIZE]
               == rnd.aeadNonce + h.seal(ses.encKey, rnd.aeadNonce, Sorted(ses.myPoint, ses.peerPoint), Padded(addr))
  {
    var tag := Compute(h, ses.confirmKey, gen, ses.myPoint, ses.peerPoint, rnd.nonce, myFp, ses.peerFp).value;
    var sealed := rnd.aeadNonce + h.seal(ses.encKey, rnd.aeadNonce, Sorted(ses.myPoint, ses.peerPoint), Padded(addr));
    var p := Build(h, gen, ses, myFp, addr, rnd).value;
    assert p == rnd.nonce + tag + sealed + rnd.pad;
    assert p[..NONCE_SIZE] == rnd.nonce;
    assert p[NONCE_SIZE..NONCE_SIZE + MAC_SIZE] == tag;
    assert p[NONCE_SIZE + MAC_SIZE..CONFIRM_SIZE - PAD_SIZE] == sealed;
  }

  /** What arrives of an address: everything before its first zero byte, one character per byte. */
  function Shown(addr: Bytes): Bytes { Chars(BeforeZero(addr)) }

  lemma {:induction false} PaddingIsCut(addr: Bytes, n: nat)
    ensures BeforeZero(addr + Zeros(n)) == BeforeZero(addr)
  {
    if addr != [] && addr[0] != 0 {
      assert (addr + Zeros(n))[1..] == addr[1..] + Zeros(n);
      PaddingIsCut(addr[1..], n);
    }
  }

  /** An address arrives as it is exactly when it is ASCII without a zero byte. */
  lemma ShownIff(addr: Bytes)
    ensures Shown(addr) == addr <==> IsAscii(addr) && 0 !in addr
  {
    var cut := BeforeZero(addr);
    CharsFacts(cut);
    if 0 !in addr {
      BeforeZeroPadded(addr, 0);
      assert addr + Zeros(0) == addr;
    }
  }

  /** Built on one side and accepted on the other, a confirm carries over what is shown of the address, which
      is the address itself exactly when that is ASCII and holds no zero byte. */
  lemma ConfirmRoundTrip(h: Crypto, gen: Bytes, mine: Session, theirs: Session, myFp: Bytes, addr: Bytes,
                         rnd: Randomness)
    requires Sealing(h) && Drawn(rnd) && Mirrored(mine, theirs) && |addr| <= MAX_METADATA_SIZE
    requires |myFp| == |mine.peerFp| == FINGERPRINT_SIZE && myFp != mine.peerFp && theirs.peerFp == myFp
    ensures Build(h, gen, mine, myFp, addr, rnd).Some?
    ensures var body := Hex.Encode(Build(h, gen, mine, myFp, addr, rnd).value);
            && AcceptHex(h, gen, theirs, mine.peerFp, body) == Ok(Shown(addr))
            && (AcceptHex(h, gen, theirs, mine.peerFp, body) == Ok(addr) <==> IsAscii(addr) && 0 !in addr)
  {
    hide Transcript, Hex.Encode, Hex.Decode, BeforeZero, Chars, Zeros, Sorted;
    BuildParts(h, gen, mine, myFp, addr, rnd);
    hide Build;
    var p := Build(h, gen, mine, myFp, addr, rnd).value;
    Hex.RoundTrip(p);
    SwappedTranscript(gen, mine.myPoint, mine.peerPoint, rnd.nonce, myFp, mine.peerFp);
    SortedCommutes(mine.myPoint, mine.peerPoint);
    var sealed := p[NONCE_SIZE + MAC_SIZE..CONFIRM_SIZE - PAD_SIZE];
    assert sealed[..AEAD_NONCE_SIZE] == rnd.aeadNonce;
    assert sealed[AEAD_NONCE_SIZE..]
        == h.seal(mine.encKey, rnd.aeadNonce, Sorted(mine.myPoint, mine.peerPoint), Padded(addr));
    PaddingIsCut(addr, MAX_METADATA_SIZE - |addr|);
    ShownIff(addr);
  }

  /** A confirm can be built if and only if the address fits, there is a nonce, and the fingerprints have their size
      and differ. */
  lemma BuildsIff(h: Crypto, gen: Bytes, ses: Session, myFp: Bytes, addr: Bytes, rnd: Randomness)
    ensures Build(h, gen, ses, myFp, addr, rnd).Some? <==>
            && |addr| <= MAX_METADATA_SIZE && rnd.nonce != []
            && |myFp| == |ses.peerFp| == FINGERPRINT_SIZE && myFp != ses.peerFp
  {
    hide Transcript;
  }

  /** Of any two sessions, barring a MAC collision: a confirm built in one passes in the other if and only if both have
      the same confirmation key and the same two points, and each side has the other's fingerprint; with the same
      encryption key too it then hands over what is shown of the address. */
  lemma AcceptedIff(h: Crypto, gen: Bytes, from: Session, fromFp: Bytes, ses: Session, myFp: Bytes, addr: Bytes,
                    rnd: Randomness)
    requires Sealing(h) && Drawn(rnd) && Build(h, gen, from, fromFp, addr, rnd).Some?
    requires |from.myPoint| == |from.peerPoint| == |ses.myPoint| == |ses.peerPoint| == POINT_LEN
    requires |myFp| == |ses.peerFp| == FINGERPRINT_SIZE
    requires !Collision(h, ses.confirmKey, Transcript(gen, ses.myPoint, ses.peerPoint, rnd.nonce, ses.peerFp, myFp),
                        from.confirmKey,
                        Transcript(gen, from.myPoint, from.peerPoint, rnd.nonce, fromFp, from.peerFp))
    ensures var got := Accept(h, gen, ses, myFp, Build(h, gen, from, fromFp, addr, rnd).value);
            var fits := && ses.confirmKey == from.confirmKey && ses.peerFp == fromFp && myFp == from.peerFp
                        && SamePair(ses.myPoint, ses.peerPoint, from.myPoint, from.peerPoint);
            && (got == Err(Mismatch) <==> !fits)
            && (fits && ses.encKey == from.encKey ==> got == Ok(Shown(addr)))
  {
    hide Transcript, BeforeZero, Chars, Zeros, Sorted, Sealing;
    var p := Build(h, gen, from, fromFp, addr, rnd).value;
    BuildParts(h, gen, from, fromFp, addr, rnd);
    BuildsIff(h, gen, from, fromFp, addr, rnd);
    VerifiesIff(h, gen, ses.confirmKey, ses.myPoint, ses.peerPoint, rnd.nonce, myFp, ses.peerFp,
                from.confirmKey, from.myPoint, from.peerPoint, rnd.nonce, fromFp, from.peerFp);
    hide Build, Compute;
    SortedCommutes(from.myPoint, from.peerPoint);
    var sealed := p[NONCE_SIZE + MAC_SIZE..CONFIRM_SIZE - PAD_SIZE];
    assert sealed[..AEAD_NONCE_SIZE] == rnd.aeadNonce;
    assert sealed[AEAD_NONCE_SIZE..]
        == h.seal(from.encKey, rnd.aeadNonce, Sorted(from.myPoint, from.peerPoint), Padded(addr));
    Opens(h, from.encKey, rnd.aeadNonce, Sorted(from.myPoint, from.peerPoint), Padded(addr));
    PaddingIsCut(addr, MAX_METADATA_SIZE - |addr|);
  }

  lemma Opens(h: Crypto, key: Bytes, nonce: Bytes, aad: Bytes, data: Bytes)
    requires Sealing(h)
    ensures h.open(key, nonce, aad, h.seal(key, nonce, aad, data)) == Some(data)
  {
  }

  /** A peer's own confirm, sent back to it, is refused unless the MAC collides. */
  lemma OwnConfirmRefused(h: Crypto, gen: Bytes, ses: Session, myFp: Bytes, addr: Bytes, rnd: Randomness)
    requires Sealing(h) && Drawn(rnd) && Build(h, gen, ses, myFp, addr, rnd).Some?
    requires |ses.myPoint| == |ses.peerPoint| == POINT_LEN
    requires !Collision(h, ses.confirmKey, Transcript(gen, ses.myPoint, ses.peerPoint, rnd.nonce, ses.peerFp, myFp),
                        ses.confirmKey, Transcript(gen, ses.myPoint, ses.peerPoint, rnd.nonce, myFp, ses.peerFp))
    ensures AcceptHex(h, gen, ses, myFp, Hex.Encode(Build(h, gen, ses, myFp, addr, rnd).value)) == Err(Mismatch)
  {
    hide Transcript, Hex.Encode, Hex.Decode;
    var p := Build(h, gen, ses, myFp, addr, rnd).value;
    BuildParts(h, gen, ses, myFp, addr, rnd);
    Hex.RoundTrip(p);
    VerifiesIff(h, gen, ses.confirmKey, ses.myPoint, ses.peerPoint, rnd.nonce, myFp, ses.peerFp,
                ses.confirmKey, ses.myPoint, ses.peerPoint, rnd.nonce, myFp, ses.peerFp);
  }
}
