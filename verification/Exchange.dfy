/** The peer's exchange loop: SPAKE2 candidates, confirms that arrive before their candidate, and
    the first pair of the two that fits. */
module Exchange {
  import opened Net
  import opened Sizes
  import opened Spake2
  import opened Confirm
  import Hex

  const MAX_CANDIDATES: nat := 50
  const MAX_BUFFERED_CONFIRMS: nat := 200

  /** What the loop uses of the key exchange: the session a 162-byte payload leads to, the confirm
      to send in it, and the address a received confirm gives in it. */
  datatype Protocol = Protocol(
    session: Bytes -> Option<Session>,
    build: (Session, Bytes, Randomness) -> Option<Bytes>,
    accept: (Session, Bytes) -> Option<Bytes>)

  datatype Candidate = Candidate(session: Session, confirm: Bytes)
  datatype Success = Success(addr: Bytes, fp: Bytes, isServer: bool)

  /** The candidate a `spake2` body stands for: the first 162 bytes it decodes to. */
  function Prefix(body: Bytes): (k: Option<Bytes>)
    ensures k.Some? ==> |k.value| == PAYLOAD_LEN
  {
    match Hex.Decode(body)
    case None => None
    case Some(p) => if |p| < PAYLOAD_LEN then None else Some(p[..PAYLOAD_LEN])
  }

  function Key(body: Bytes): Bytes { if Prefix(body).Some? then Prefix(body).value else [] }

  predicate Offers(pr: Protocol, body: Bytes) { Prefix(body).Some? && pr.session(Key(body)).Some? }

  predicate Fits(pr: Protocol, k: Bytes, confirm: Bytes) {
    pr.session(k).Some? && pr.accept(pr.session(k).value, confirm).Some?
  }

  function Outcome(pr: Protocol, k: Bytes, confirm: Bytes): Success
    requires Fits(pr, k, confirm)
  {
    var s := pr.session(k).value;
    Success(pr.accept(s, confirm).value, s.peerFp, s.isServer)
  }

  /** Two bodies stand for one candidate exactly when they start with the same 324 hex digits, up to
      their case; what follows does not matter. */
  lemma PrefixIff(body: Bytes, body': Bytes)
    requires Hex.Decode(body).Some? && |body| >= 2 * PAYLOAD_LEN
             && Hex.Decode(body').Some? && |body'| >= 2 * PAYLOAD_LEN
    ensures Prefix(body).Some? && Prefix(body').Some?
    ensures Prefix(body) == Prefix(body') <==> Hex.Lower(body)[..2 * PAYLOAD_LEN] == Hex.Lower(body')[..2 * PAYLOAD_LEN]
  {
    LowerPrefix(body, 2 * PAYLOAD_LEN);
    LowerPrefix(body', 2 * PAYLOAD_LEN);
    HexPrefix(body, PAYLOAD_LEN);
    HexPrefix(body', PAYLOAD_LEN);
    Hex.SameBytesIff(body[..2 * PAYLOAD_LEN], body'[..2 * PAYLOAD_LEN]);
  }

  lemma LowerPrefix(s: Bytes, n: nat)
    requires n <= |s|
    ensures Hex.Lower(s)[..n] == Hex.Lower(s[..n])
  {
  }

  lemma HexPrefix(s: Bytes, n: nat)
    requires Hex.Decode(s).Some? && 2 * n <= |s|
    ensures Hex.Decode(s[..2 * n]) == Some(Hex.Decode(s).value[..n])
  {
    assert Hex.Decode(s[..2 * n]).value == Hex.Decode(s).value[..n];
  }

  // ---- the state ----

  ghost predicate IsOldest(last: map<Bytes, nat>, k: Bytes) {
    k in last && forall q :: q in last ==> last[k] <= last[q]
  }

  /** `r` is the outcome of the first of the confirms that fits candidate `k`. */
  ghost predicate FirstOf(pr: Protocol, k: Bytes, buffered: seq<Bytes>, r: Success) {
    exists j ::
      && 0 <= j < |buffered| && Fits(pr, k, buffered[j]) && r == Outcome(pr, k, buffered[j])
      && forall i :: 0 <= i < j ==> !Fits(pr, k, buffered[i])
  }

  /** What is thrown out of a table of `n` candidates to make room: nothing, or the oldest. */
  ghost predicate Evicts(n: nat, last: map<Bytes, nat>, gone: set<Bytes>) {
    if n < MAX_CANDIDATES then gone == {} else exists q :: IsOldest(last, q) && gone == {q}
  }

  /** The key sent to longest ago. */
  method Oldest(last: map<Bytes, nat>) returns (k: Bytes)
    requires last != map[]
    ensures IsOldest(last, k)
  {
    k :| k in last;
    var todo := last.Keys - {k};
    while todo != {}
      invariant todo <= last.Keys && k in last && k !in todo
      invariant forall q :: q in last && q !in todo ==> last[k] <= last[q]
      decreases todo
    {
      var q :| q in todo;
      if last[q] < last[k] {
        k := q;
      }
      todo := todo - {q};
    }
  }

  /** The outcome of the first waiting confirm that fits, if any. */
  method FirstFit(pr: Protocol, ghost k: Bytes, ses: Session, buffered: seq<Bytes>) returns (r: Option<Success>)
    requires pr.session(k) == Some(ses)
    ensures r.None? <==> forall j :: 0 <= j < |buffered| ==> !Fits(pr, k, buffered[j])
    ensures r.Some? ==> FirstOf(pr, k, buffered, r.value)
  {
    for j := 0 to |buffered|
      invariant forall i :: 0 <= i < j ==> !Fits(pr, k, buffered[i])
    {
      var pa := pr.accept(ses, buffered[j]);
      if pa.Some? {
        assert Fits(pr, k, buffered[j]);
        return Some(Success(pa.value, ses.peerFp, ses.isServer));
      }
    }
    r := None;
  }

  lemma RoomLeft(n: nat, last: map<Bytes, nat>, gone: set<Bytes>)
    requires Evicts(n, last, gone)
    ensures n < MAX_CANDIDATES ==> gone == {}
  {
  }

  ghost predicate Sessions(pr: Protocol, candidates: map<Bytes, Candidate>) {
    forall k :: k in candidates ==> pr.session(k) == Some(candidates[k].session)
  }

  ghost predicate Quiet(pr: Protocol, keys: set<Bytes>, buffered: seq<Bytes>) {
    forall k, j :: k in keys && 0 <= j < |buffered| ==> !Fits(pr, k, buffered[j])
  }

  lemma SessionsPut(pr: Protocol, candidates: map<Bytes, Candidate>, k: Bytes, cand: Candidate)
    requires Sessions(pr, candidates) && pr.session(k) == Some(cand.session)
    ensures Sessions(pr, candidates[k := cand])
  {
  }

  lemma QuietPut(pr: Protocol, keys: set<Bytes>, buffered: seq<Bytes>, k: Bytes)
    requires Quiet(pr, keys, buffered) && forall j :: 0 <= j < |buffered| ==> !Fits(pr, k, buffered[j])
    ensures Quiet(pr, keys + {k}, buffered)
  {
  }

  class Exchanger {
    const pr: Protocol
    var myAddr: Bytes
    var candidates: map<Bytes, Candidate>
    var lastSent: map<Bytes, nat>
    var buffered: seq<Bytes>

    /** Every candidate has a send time and the session of its payload, both tables keep their
        bounds, and no confirm that is waiting fits a candidate that is there. */
    ghost predicate Valid()
      reads this
    {
      && candidates.Keys == lastSent.Keys
      && |candidates| <= MAX_CANDIDATES && |buffered| <= MAX_BUFFERED_CONFIRMS
      && Sessions(pr, candidates) && Quiet(pr, candidates.Keys, buffered)
    }

    constructor (pr: Protocol, addr: Bytes)
      ensures Valid() && this.pr == pr && myAddr == addr && candidates == map[] && buffered == []
    {
      this.pr, myAddr, candidates, lastSent, buffered := pr, addr, map[], map[], [];
    }

    /** Sends again every confirm not sent for longer than `interval`. */
    method Resend(now: nat, interval: nat) returns (due: set<Bytes>)
      requires Valid()
      modifies this`lastSent
      ensures Valid()
      ensures due == set k | k in candidates && now - old(lastSent)[k] > interval
      ensures forall k :: k in lastSent ==> lastSent[k] == if k in due then now else old(lastSent)[k]
    {
      due := set k | k in candidates && now - lastSent[k] > interval;
      var todo := due;
      while todo != {}
        invariant todo <= due && lastSent.Keys == candidates.Keys
        invariant forall k :: k in lastSent ==> lastSent[k] == if k in due - todo then now else old(lastSent)[k]
        decreases todo
      {
        var k :| k in todo;
        lastSent := lastSent[k := now];
        todo := todo - {k};
      }
    }

    /** Makes room for one more candidate. */
    method EvictOldest() returns (ghost gone: set<Bytes>)
      requires Valid()
      modifies this`candidates, this`lastSent
      ensures Valid() && |candidates| < MAX_CANDIDATES
      ensures Evicts(|old(candidates)|, old(lastSent), gone)
      ensures candidates == old(candidates) - gone && lastSent == old(lastSent) - gone
    {
      gone := {};
      if |candidates| >= MAX_CANDIDATES {
        NotEmpty(candidates, lastSent);
        var k := Oldest(lastSent);
        assert (candidates - {k}).Keys == candidates.Keys - {k};
        assert |candidates| == |candidates.Keys|;
        gone := {k};
        candidates := candidates - {k};
        lastSent := lastSent - {k};
      }
    }

    /** A `spake2` message. It succeeds exactly when it offers a new candidate that one of the
        waiting confirms fits, and then with the first such confirm. The candidate is kept with the
        confirm built for it, as sent to now. */
    method OnSpake(body: Bytes, rnd: Randomness, now: nat) returns (r: Option<Success>)
      requires Valid()
      modifies this`candidates, this`lastSent
      ensures r.None? ==> Valid()
      ensures !Offers(pr, body) || Key(body) in old(candidates) ==>
                r == None && candidates == old(candidates) && lastSent == old(lastSent)
      ensures Offers(pr, body) && Key(body) !in old(candidates) ==>
                var k := Key(body);
                var confirm := pr.build(pr.session(k).value, myAddr, rnd);
                if confirm.None? then r == None && candidates == old(candidates) && lastSent == old(lastSent)
                else
                  && (|old(candidates)| < MAX_CANDIDATES ==> candidates.Keys == old(candidates).Keys + {k})
                  && (exists gone ::
                        && Evicts(|old(candidates)|, old(lastSent), gone)
                        && candidates == (old(candidates) - gone)[k := Candidate(pr.session(k).value, confirm.value)]
                        && lastSent == (old(lastSent) - gone)[k := now])
                  && (r.None? <==> forall j :: 0 <= j < |buffered| ==> !Fits(pr, k, buffered[j]))
                  && (r.Some? ==> FirstOf(pr, k, buffered, r.value))
    {
      hide Evicts, Key, Prefix, Sessions, Quiet;
      if !Offers(pr, body) {
        return None;
      }
      var k := Key(body);
      if k in candidates {
        return None;
      }
      var ses := pr.session(k).value;
      var confirm := pr.build(ses, myAddr, rnd);
      if confirm.None? {
        return None;
      }
      ghost var gone := Enlist(k, ses, confirm.value, now);
      RoomLeft(|old(candidates)|, old(lastSent), gone);
      r := FirstFit(pr, k, ses, buffered);
      if r.None? { QuietPut(pr, old(candidates).Keys - gone, buffered, k); }
    }

    method Enlist(k: Bytes, ses: Session, confirm: Bytes, now: nat) returns (ghost gone: set<Bytes>)
      requires Valid() && k !in candidates && pr.session(k) == Some(ses)
      modifies this`candidates, this`lastSent
      ensures candidates.Keys == lastSent.Keys && |candidates| <= MAX_CANDIDATES && Sessions(pr, candidates)
      ensures Evicts(|old(candidates)|, old(lastSent), gone) && candidates.Keys == old(candidates).Keys - gone + {k}
      ensures candidates == (old(candidates) - gone)[k := Candidate(ses, confirm)]
      ensures lastSent == (old(lastSent) - gone)[k := now]
      ensures Quiet(pr, old(candidates).Keys - gone, buffered)
    {
      hide Sessions, Quiet, Evicts;
      gone := EvictOldest();
      SessionsPut(pr, candidates, k, Candidate(ses, confirm));
      InsertSize(candidates, k, Candidate(ses, confirm));
      InsertKeys(candidates, k, Candidate(ses, confirm));
      InsertKeys(lastSent, k, now);
      assert candidates.Keys == old(candidates).Keys - gone;
      candidates := candidates[k := Candidate(ses, confirm)];
      lastSent := lastSent[k := now];
    }

    /** A `confirm` message. It succeeds exactly when some candidate fits it; otherwise it waits,
        as long as there is room. */
    method OnConfirm(body: Bytes) returns (r: Option<Success>)
      requires Valid()
      modifies this`buffered
      ensures r.None? ==> Valid()
      ensures r.None? <==> forall k :: k in candidates ==> !Fits(pr, k, body)
      ensures r.Some? ==> exists k :: k in candidates && Fits(pr, k, body) && r.value == Outcome(pr, k, body)
      ensures r.None? ==>
                buffered == if |old(buffered)| < MAX_BUFFERED_CONFIRMS then old(buffered) + [body] else old(buffered)
    {
      var todo := candidates.Keys;
      while todo != {}
        invariant todo <= candidates.Keys
        invariant forall k :: k in candidates && k !in todo ==> !Fits(pr, k, body)
        decreases todo
      {
        var k :| k in todo;
        var cand := candidates[k];
        var pa := pr.accept(cand.session, body);
        if pa.Some? {
          assert Fits(pr, k, body);
          return Some(Success(pa.value, cand.session.peerFp, cand.session.isServer));
        }
        todo := todo - {k};
      }
      if |buffered| < MAX_BUFFERED_CONFIRMS {
        buffered := buffered + [body];
      }
      r := None;
    }
  }

  lemma NotEmpty<K, V, W>(a: map<K, V>, b: map<K, W>)
    requires |a| > 0 && a.Keys == b.Keys
    ensures b != map[]
  {
    assert |a| == |a.Keys|;
    assert |b.Keys| > 0;
  }

  // ---- runs ----

  /** A message that got through the inbound limit, or a new address from the relay. */
  datatype Message = Spake(body: Bytes, rnd: Randomness, now: nat) | Confirmation(body: Bytes) | Address(addr: Bytes)

  predicate Pairs(pr: Protocol, a: Message, b: Message) {
    a.Spake? && b.Confirmation? && Offers(pr, a.body) && Fits(pr, Key(a.body), b.body)
  }

  /** A fitting pair, and what it leads to. */
  predicate Yields(pr: Protocol, spake: Bytes, confirm: Bytes, r: Success) {
    Offers(pr, spake) && Fits(pr, Key(spake), confirm) && Outcome(pr, Key(spake), confirm) == r
  }

  lemma YieldsPairs(pr: Protocol, a: Message, b: Message, r: Success)
    requires a.Spake? && b.Confirmation? && Yields(pr, a.body, b.body, r)
    ensures Pairs(pr, a, b)
  {
  }

  /** Message `i` and one before it form a fitting pair, whichever of the two came first. */
  ghost predicate Completes(pr: Protocol, ms: seq<Message>, i: nat)
    requires i < |ms|
  {
    exists j :: 0 <= j < i && (Pairs(pr, ms[j], ms[i]) || Pairs(pr, ms[i], ms[j]))
  }

  function Candidates(pr: Protocol, ms: seq<Message>): set<Bytes> {
    set m | m in ms && m.Spake? && Offers(pr, m.body) :: Key(m.body)
  }

  function Confirms(ms: seq<Message>): seq<Bytes> {
    if ms == [] then []
    else
      var m := ms[|ms|-1];
      Confirms(ms[..|ms|-1]) + if m.Confirmation? then [m.body] else []
  }

  /** What message `i` is compared with is all there: the confirms before a candidate, at most 200, and the
      different candidates before a confirm, at most 50. */
  ghost predicate Remembered(pr: Protocol, ms: seq<Message>, i: nat)
    requires i < |ms|
  {
    && (ms[i].Spake? ==> |Confirms(ms[..i])| <= MAX_BUFFERED_CONFIRMS)
    && (ms[i].Confirmation? ==> |Candidates(pr, ms[..i])| <= MAX_CANDIDATES)
  }

  /** No bound gets in the way before the first pair is complete, and every address fits into a confirm. */
  ghost predicate Within(pr: Protocol, addr: Bytes, ms: seq<Message>) {
    && (forall i :: 0 <= i < |ms| && (forall j :: 0 <= j < i ==> !Completes(pr, ms, j)) ==> Remembered(pr, ms, i))
    && |addr| <= MAX_METADATA_SIZE
    && Sized(ms)
  }

  /** A confirm can be built whenever there is a session and the address fits. */
  ghost predicate Builds(pr: Protocol) {
    forall k, addr, rnd :: pr.session(k).Some? && |addr| <= MAX_METADATA_SIZE && Drawn(rnd) ==>
      pr.build(pr.session(k).value, addr, rnd).Some?
  }

  lemma CandidatesSnoc(pr: Protocol, ms: seq<Message>, m: Message)
    ensures Candidates(pr, ms + [m])
            == Candidates(pr, ms) + if m.Spake? && Offers(pr, m.body) then {Key(m.body)} else {}
  {
    hide Offers, Key;
    assert forall x :: x in ms + [m] <==> x in ms || x == m;
  }

  lemma CandidatesMonotone(pr: Protocol, ms: seq<Message>, i: nat)
    requires i <= |ms|
    ensures |Candidates(pr, ms[..i])| <= |Candidates(pr, ms)|
  {
    hide Offers, Key;
    var a, b := Candidates(pr, ms[..i]), Candidates(pr, ms);
    assert a <= b;
    assert b == a + (b - a);
  }

  lemma {:induction false} ConfirmsHas(ms: seq<Message>, x: Bytes)
    ensures x in Confirms(ms) <==> Confirmation(x) in ms
  {
    if ms != [] {
      var n := |ms| - 1;
      ConfirmsHas(ms[..n], x);
      assert ms == ms[..n] + [ms[n]];
    }
  }

  lemma SpakeCompletes(pr: Protocol, ms: seq<Message>, i: nat)
    requires i < |ms| && ms[i].Spake?
    ensures Completes(pr, ms, i) <==>
            Offers(pr, ms[i].body) && exists c :: c in Confirms(ms[..i]) && Fits(pr, Key(ms[i].body), c)
  {
    hide Offers, Key, Fits;
    if Offers(pr, ms[i].body) && exists c :: c in Confirms(ms[..i]) && Fits(pr, Key(ms[i].body), c) {
      var c :| c in Confirms(ms[..i]) && Fits(pr, Key(ms[i].body), c);
      ConfirmsHas(ms[..i], c);
      var j :| 0 <= j < i && ms[j] == Confirmation(c);
      assert Pairs(pr, ms[i], ms[j]);
    }
    if Completes(pr, ms, i) {
      var j :| 0 <= j < i && (Pairs(pr, ms[j], ms[i]) || Pairs(pr, ms[i], ms[j]));
      assert ms[..i][j] == ms[j] == Confirmation(ms[j].body);
      ConfirmsHas(ms[..i], ms[j].body);
    }
  }

  lemma ConfirmCompletes(pr: Protocol, ms: seq<Message>, i: nat)
    requires i < |ms| && ms[i].Confirmation?
    ensures Completes(pr, ms, i) <==> exists k :: k in Candidates(pr, ms[..i]) && Fits(pr, k, ms[i].body)
  {
    hide Offers, Key, Fits;
    if exists k :: k in Candidates(pr, ms[..i]) && Fits(pr, k, ms[i].body) {
      var k :| k in Candidates(pr, ms[..i]) && Fits(pr, k, ms[i].body);
      var m :| m in ms[..i] && m.Spake? && Offers(pr, m.body) && Key(m.body) == k;
      var j :| 0 <= j < i && ms[j] == m;
      assert Pairs(pr, ms[j], ms[i]);
    }
    if Completes(pr, ms, i) {
      var j :| 0 <= j < i && (Pairs(pr, ms[j], ms[i]) || Pairs(pr, ms[i], ms[j]));
      assert ms[..i][j] == ms[j];
      assert Key(ms[j].body) in Candidates(pr, ms[..i]);
    }
  }

  /** The first 200 confirms. */
  function Waiting(confirms: seq<Bytes>): seq<Bytes> {
    if |confirms| <= MAX_BUFFERED_CONFIRMS then confirms else confirms[..MAX_BUFFERED_CONFIRMS]
  }

  /** The waiting confirms are the first ones so far, and the candidates are those so far, if not too many. */
  ghost predicate Tracks(x: Exchanger, ms: seq<Message>)
    reads x
  {
    && x.Valid() && x.buffered == Waiting(Confirms(ms)) && |x.myAddr| <= MAX_METADATA_SIZE
    && (|Candidates(x.pr, ms)| <= MAX_CANDIDATES ==> x.candidates.Keys == Candidates(x.pr, ms))
  }

  lemma WaitingSnoc(confirms: seq<Bytes>, c: Bytes)
    ensures var w := Waiting(confirms);
            Waiting(confirms + [c]) == if |w| < MAX_BUFFERED_CONFIRMS then w + [c] else w
  {
  }

  /** The address and the random bytes of every message have their sizes. */
  ghost predicate Sized(ms: seq<Message>) {
    forall m :: m in ms ==> (m.Address? ==> |m.addr| <= MAX_METADATA_SIZE) && (m.Spake? ==> Drawn(m.rnd))
  }

  ghost predicate Found(pr: Protocol, ms: seq<Message>, i: nat, r: Success)
    requires i < |ms|
  {
    exists j :: 0 <= j < i && ((Pairs(pr, ms[j], ms[i]) && r == Outcome(pr, Key(ms[j].body), ms[i].body))
                            || (Pairs(pr, ms[i], ms[j]) && r == Outcome(pr, Key(ms[i].body), ms[j].body)))
  }

  method ReceiveSpake(x: Exchanger, ms: seq<Message>, i: nat) returns (r: Option<Success>)
    requires i < |ms| && ms[i].Spake? && Builds(x.pr) && Sized(ms) && Remembered(x.pr, ms, i) && Tracks(x, ms[..i])
    modifies x
    ensures r.None? ==> Tracks(x, ms[..i + 1])
    ensures r.Some? <==> Completes(x.pr, ms, i)
    ensures r.Some? ==> Found(x.pr, ms, i, r.value)
  {
    hide Offers, Key, Fits, Outcome, Completes, Candidates, Confirms, Builds, Sized, Exchanger.Valid, Evicts, Found;
    var m := ms[i];
    SpakeCompletes(x.pr, ms, i);
    assert ms[..i + 1] == ms[..i] + [m];
    CandidatesSnoc(x.pr, ms[..i], m);
    CandidatesMonotone(x.pr, ms[..i + 1], i);
    assert ms[..i + 1][..i] == ms[..i];
    ConfirmsSnoc(ms[..i], m);
    if Offers(x.pr, m.body) {
      CanBuild(x.pr, ms, i, x.myAddr);
      if Key(m.body) !in x.candidates && |Candidates(x.pr, ms[..i + 1])| <= MAX_CANDIDATES {
        OneMore(x.candidates, Key(m.body), Candidates(x.pr, ms[..i + 1]));
      }
    }
    NoneWaiting(x, Key(m.body));
    r := x.OnSpake(m.body, m.rnd, m.now);
    if r.Some? { SpakeFound(x.pr, ms, i, r.value); }
  }

  lemma CanBuild(pr: Protocol, ms: seq<Message>, i: nat, myAddr: Bytes)
    requires i < |ms| && ms[i].Spake? && Builds(pr) && Sized(ms)
             && Offers(pr, ms[i].body) && |myAddr| <= MAX_METADATA_SIZE
    ensures pr.session(Key(ms[i].body)).Some? && pr.build(pr.session(Key(ms[i].body)).value, myAddr, ms[i].rnd).Some?
  {
    hide Key;
    assert ms[i] in ms;
  }

  lemma NoneWaiting(x: Exchanger, k: Bytes)
    requires x.Valid()
    ensures k in x.candidates ==> forall c :: c in x.buffered ==> !Fits(x.pr, k, c)
  {
  }

  lemma OneMore<V>(m: map<Bytes, V>, k: Bytes, more: set<Bytes>)
    requires k !in m && more == m.Keys + {k}
    ensures |more| == |m| + 1
  {
    assert |m| == |m.Keys|;
  }

  lemma ConfirmsSnoc(ms: seq<Message>, m: Message)
    ensures Confirms(ms + [m]) == Confirms(ms) + if m.Confirmation? then [m.body] else []
  {
    assert (ms + [m])[..|ms|] == ms;
  }

  lemma SpakeFound(pr: Protocol, ms: seq<Message>, i: nat, r: Success)
    requires i < |ms| && ms[i].Spake? && Offers(pr, ms[i].body)
    requires exists j :: 0 <= j < |Confirms(ms[..i])| && Fits(pr, Key(ms[i].body), Confirms(ms[..i])[j])
                         && r == Outcome(pr, Key(ms[i].body), Confirms(ms[..i])[j])
    ensures Found(pr, ms, i, r)
  {
    hide Offers, Key, Fits, Outcome, Confirms;
    var c :| c in Confirms(ms[..i]) && Fits(pr, Key(ms[i].body), c) && r == Outcome(pr, Key(ms[i].body), c);
    ConfirmsHas(ms[..i], c);
    var j :| 0 <= j < i && ms[j] == Confirmation(c);
    assert Pairs(pr, ms[i], ms[j]);
  }

  lemma ConfirmFound(pr: Protocol, ms: seq<Message>, i: nat, r: Success)
    requires i < |ms| && ms[i].Confirmation?
    requires exists k :: k in Candidates(pr, ms[..i]) && Fits(pr, k, ms[i].body) && r == Outcome(pr, k, ms[i].body)
    ensures Found(pr, ms, i, r)
  {
    hide Offers, Key, Fits, Outcome;
    var k :| k in Candidates(pr, ms[..i]) && Fits(pr, k, ms[i].body) && r == Outcome(pr, k, ms[i].body);
    var m :| m in ms[..i] && m.Spake? && Offers(pr, m.body) && Key(m.body) == k;
    var j :| 0 <= j < i && ms[j] == m;
    assert Pairs(pr, ms[j], ms[i]);
  }

  method ReceiveConfirm(x: Exchanger, ms: seq<Message>, i: nat) returns (r: Option<Success>)
    requires i < |ms| && ms[i].Confirmation? && Remembered(x.pr, ms, i) && Tracks(x, ms[..i])
    modifies x
    ensures r.None? ==> Tracks(x, ms[..i + 1])
    ensures r.Some? <==> Completes(x.pr, ms, i)
    ensures r.Some? ==> Found(x.pr, ms, i, r.value)
  {
    hide Offers, Key, Fits, Outcome, Completes, Candidates, Confirms, Waiting;
    var m := ms[i];
    ConfirmCompletes(x.pr, ms, i);
    assert ms[..i + 1] == ms[..i] + [m];
    CandidatesSnoc(x.pr, ms[..i], m);
    ConfirmsSnoc(ms[..i], m);
    WaitingSnoc(Confirms(ms[..i]), m.body);
    r := x.OnConfirm(m.body);
    if r.Some? { ConfirmFound(x.pr, ms, i, r.value); }
  }

  method Receive(x: Exchanger, ms: seq<Message>, i: nat) returns (r: Option<Success>)
    requires i < |ms| && Builds(x.pr) && Sized(ms) && Remembered(x.pr, ms, i) && Tracks(x, ms[..i])
    modifies x
    ensures r.None? ==> Tracks(x, ms[..i + 1])
    ensures r.Some? <==> Completes(x.pr, ms, i)
    ensures r.Some? ==> Found(x.pr, ms, i, r.value)
  {
    hide Tracks, Found, Builds, Sized, Remembered, Completes;
    match ms[i]
    case Spake(_, _, _) => r := ReceiveSpake(x, ms, i);
    case Confirmation(_) => r := ReceiveConfirm(x, ms, i);
    case Address(_) => ReceiveAddress(x, ms, i); r := None;
  }

  method ReceiveAddress(x: Exchanger, ms: seq<Message>, i: nat)
    requires i < |ms| && ms[i].Address? && Sized(ms) && Tracks(x, ms[..i])
    modifies x
    ensures Tracks(x, ms[..i + 1]) && !Completes(x.pr, ms, i)
  {
    hide Offers, Fits, Candidates, Confirms, Waiting;
    assert ms[..i + 1] == ms[..i] + [ms[i]];
    CandidatesSnoc(x.pr, ms[..i], ms[i]);
    ConfirmsSnoc(ms[..i], ms[i]);
    assert Confirms(ms[..i]) + [] == Confirms(ms[..i]);
    assert ms[i] in ms;
    x.myAddr := ms[i].addr;
  }

  /** Runs the loop over the messages. While no bound gets in the way it succeeds on exactly the first message
      that completes a fitting pair, and with the outcome of such a pair. */
  method Converse(pr: Protocol, addr: Bytes, ms: seq<Message>) returns (at: nat, r: Option<Success>)
    requires Builds(pr) && Within(pr, addr, ms)
    ensures at <= |ms| && (r.Some? <==> at < |ms|)
    ensures forall i :: 0 <= i < at ==> !Completes(pr, ms, i)
    ensures r.Some? ==> Completes(pr, ms, at) && Found(pr, ms, at, r.value)
  {
    hide Completes, Found, Candidates, Exchanger.Valid, Builds, Remembered, Sized;
    var x := new Exchanger(pr, addr);
    at := 0;
    assert ms[..0] == [];
    NoCandidates(pr);
    while at < |ms|
      invariant at <= |ms| && x.pr == pr && Tracks(x, ms[..at])
      invariant forall i :: 0 <= i < at ==> !Completes(pr, ms, i)
    {
      r := Receive(x, ms, at);
      if r.Some? {
        return;
      }
      at := at + 1;
    }
    r := None;
  }

  lemma NoCandidates(pr: Protocol)
    ensures Candidates(pr, []) == {}
  {
  }

  /** Some two of the messages fit. */
  ghost predicate AnyPair(pr: Protocol, ms: seq<Message>) {
    exists a, b :: a in ms && b in ms && Pairs(pr, a, b)
  }

  lemma AnyPairCompletes(pr: Protocol, ms: seq<Message>)
    ensures AnyPair(pr, ms) <==> exists i :: 0 <= i < |ms| && Completes(pr, ms, i)
  {
    hide Offers, Fits, Key;
    if AnyPair(pr, ms) {
      var a, b :| a in ms && b in ms && Pairs(pr, a, b);
      var i :| 0 <= i < |ms| && ms[i] == a;
      var j :| 0 <= j < |ms| && ms[j] == b;
      assert Completes(pr, ms, if i < j then j else i);
    }
    if i :| 0 <= i < |ms| && Completes(pr, ms, i) {
      var j :| 0 <= j < i && (Pairs(pr, ms[j], ms[i]) || Pairs(pr, ms[i], ms[j]));
    }
  }

  /** Whether an exchange succeeds does not depend on the order its messages arrive in. */
  lemma OrderIndependent(pr: Protocol, ms: seq<Message>, ms': seq<Message>)
    requires multiset(ms) == multiset(ms')
    ensures (exists i :: 0 <= i < |ms| && Completes(pr, ms, i))
            <==> (exists i :: 0 <= i < |ms'| && Completes(pr, ms', i))
  {
    hide Completes, Pairs;
    AnyPairCompletes(pr, ms);
    AnyPairCompletes(pr, ms');
    assert forall m :: m in ms <==> m in multiset(ms);
    assert forall m :: m in ms' <==> m in multiset(ms');
  }
}
