/** The text protocol between peers and relay, from both ends. */
module Wire {
  import opened Net
  import opened Texts
  import opened RelaySpec
  import Hex

  const SP: Byte := 32
  const NL: Byte := 10
  const MAX_DATAGRAM_LEN: nat := 1400
  const MAX_ROOM_NAME_LEN: nat := 64
  const MAX_MSG_BODY_LEN: nat := 1024

  const REG: Bytes := [82, 69, 71, 32]            // "REG "
  const MSG: Bytes := [77, 83, 71, 32]            // "MSG "
  const REGD: Bytes := [82, 69, 71, 68, 32]       // "REGD "
  const MSGD: Bytes := [77, 83, 71, 68, 32]       // "MSGD "
  const OK: Bytes := [79, 75, 32]                 // "OK "
  const SPAKE2: Bytes := [115, 112, 97, 107, 101, 50]        // "spake2"
  const CONFIRM: Bytes := [99, 111, 110, 102, 105, 114, 109] // "confirm"

  // ---- blanks ----

  predicate Blank(c: Byte) { 9 <= c <= 13 || c == 32 }

  function Lead(b: Bytes): (n: nat)
    ensures n <= |b| && (forall i :: 0 <= i < n ==> Blank(b[i])) && (n < |b| ==> !Blank(b[n]))
  {
    Leading(b, Blank)
  }

  function Tail(b: Bytes): (n: nat)
    ensures n <= |b| && (forall i :: |b| - n <= i < |b| ==> Blank(b[i])) && (n < |b| ==> !Blank(b[|b| - 1 - n]))
  {
    if b == [] || !Blank(b[|b|-1]) then 0 else 1 + Tail(b[..|b|-1])
  }

  /** The relay's trimming. */
  function Trim(b: Bytes): Bytes { if Lead(b) == |b| then [] else b[Lead(b)..|b| - Tail(b)] }

  /** The peer's trimming; `None` is a slice whose end lies before its start. */
  function PeerTrim(b: Bytes): Option<Bytes> {
    if Lead(b) <= |b| - Tail(b) then Some(b[Lead(b)..|b| - Tail(b)]) else None
  }

  /** The two agree exactly on the inputs that are empty or not all blank. */
  lemma TrimsAgreeIff(b: Bytes)
    ensures PeerTrim(b) == Some(Trim(b)) <==> b == [] || exists i :: 0 <= i < |b| && !Blank(b[i])
  {
    if i :| 0 <= i < |b| && !Blank(b[i]) {
      assert Lead(b) <= i < |b| - Tail(b);
    } else {
      assert Lead(b) == |b| == Tail(b);
    }
  }

  /** Neither starts nor ends with a blank. */
  predicate Inked(x: Bytes) { x != [] && !Blank(x[0]) && !Blank(x[|x|-1]) }

  lemma TrimLine(x: Bytes)
    requires Inked(x)
    ensures Trim(x + [NL]) == x == Trim(x) && PeerTrim(x + [NL]) == Some(x)
  {
    var y := x + [NL];
    assert Lead(x) == 0 && Tail(x) == 0 && Lead(y) == 0;
    assert y[..|y|-1] == x;
    assert Tail(y) == 1;
  }

  // ---- fields ----

  /** The part before the first `c`, and the part after it if there is one. */
  function Cut(b: Bytes, c: Byte): (r: (Bytes, Option<Bytes>))
    ensures c !in r.0 && b == r.0 + if r.1.Some? then [c] + r.1.value else []
  {
    if b == [] then ([], None)
    else if b[0] == c then ([], Some(b[1..]))
    else
      var (h, t) := Cut(b[1..], c);
      ([b[0]] + h, t)
  }

  lemma {:induction false} CutNone(a: Bytes, c: Byte)
    requires c !in a
    ensures Cut(a, c) == (a, None)
  {
    if a != [] {
      CutNone(a[1..], c);
      assert a == [a[0]] + a[1..];
    }
  }

  lemma {:induction false} CutJoin(a: Bytes, c: Byte, rest: Bytes)
    requires c !in a
    ensures Cut(a + [c] + rest, c) == (a, Some(rest)) && Cut(a, c) == (a, None)
  {
    CutNone(a, c);
    var b := a + [c] + rest;
    if a == [] {
      assert b[1..] == rest;
    } else {
      CutJoin(a[1..], c, rest);
      hide Cut;
      assert b[1..] == a[1..] + [c] + rest;
      CutStep(b, c);
      assert a == [a[0]] + a[1..];
    }
  }

  lemma CutStep(b: Bytes, c: Byte)
    requires b != [] && b[0] != c
    ensures Cut(b, c) == ([b[0]] + Cut(b[1..], c).0, Cut(b[1..], c).1)
  {
  }

  predicate ValidRoom(r: Bytes) {
    0 < |r| <= MAX_ROOM_NAME_LEN && forall i :: 0 <= i < |r| ==> 33 <= r[i] <= 126
  }

  predicate ValidHex(s: Bytes) { s != [] && |s| % 2 == 0 && Hex.Digits(s) }

  lemma HexInk(s: Bytes)
    requires ValidHex(s)
    ensures Inked(s) && SP !in s && Hex.Decode(s).Some?
  {
  }

  // ---- what peers send and the relay reads ----

  function RenderReg(room: Bytes, cookie: Bytes): Bytes {
    REG + room + (if cookie == [] then [] else [SP] + cookie) + [NL]
  }

  function RenderMsg(room: Bytes, phase: Bytes, body: Bytes): Bytes { MSG + room + [SP] + phase + [SP] + body + [NL] }

  datatype Packet =
    | RegPacket(room: Room, cred: Credential)
    | MsgPacket(sentTo: Room, phase: Bytes, body: Bytes)
    | Junk

  function CredentialOf(cookie: Bytes): Credential {
    if cookie == [] then Absent
    else if !ValidHex(cookie) || |cookie| != 2 * COOKIE_BYTES then Malformed
    else match Hex.Decode(cookie)
      case Some(c) => Presented(c)
      case None => Malformed
  }

  function ParseReg(rest: Bytes): Packet {
    var (room, cookie) := Cut(Trim(rest), SP);
    if !ValidRoom(room) then Junk
    else RegPacket(room, CredentialOf(if cookie.Some? then Trim(cookie.value) else []))
  }

  function ParseMsg(payload: Bytes): Packet {
    var (room, t) := Cut(payload, SP);
    match t
    case None => Junk
    case Some(rest) =>
      var (phase, t') := Cut(rest, SP);
      match t'
      case None => Junk
      case Some(body) =>
        if phase != SPAKE2 && phase != CONFIRM then Junk
        else if !ValidRoom(room) then Junk
        else if !ValidHex(body) || |body| > MAX_MSG_BODY_LEN then Junk
        else MsgPacket(room, phase, body)
  }

  function Parse(data: Bytes): Packet {
    if data == [] || |data| > MAX_DATAGRAM_LEN then Junk
    else
      var line := Trim(data);
      if REG <= line then ParseReg(line[|REG|..])
      else if MSG <= line then ParseMsg(line[|MSG|..])
      else Junk
  }

  predicate IsPhase(p: Bytes) { p == SPAKE2 || p == CONFIRM }

  lemma RoomInk(room: Bytes)
    requires ValidRoom(room)
    ensures Inked(room) && SP !in room
  {
  }

  /** A REG without a cookie is read back as sent. */
  lemma RegParses(room: Bytes)
    requires ValidRoom(room)
    ensures Parse(RenderReg(room, [])) == RegPacket(room, Absent)
  {
    hide Trim, PeerTrim, Cut;
    RoomInk(room);
    var line := REG + room;
    assert line[|line|-1] == room[|room|-1];
    TrimLine(line);
    assert RenderReg(room, []) == line + [NL];
    assert line[|REG|..] == room;
    TrimLine(room);
    CutJoin(room, SP, []);
  }

  /** A REG with a 16-byte cookie is read back as sent. */
  lemma CookieRegParses(room: Bytes, cookie: Bytes)
    requires ValidRoom(room) && |cookie| == COOKIE_BYTES
    ensures Parse(RenderReg(room, Hex.Encode(cookie))) == RegPacket(room, Presented(cookie))
  {
    hide Trim, PeerTrim, Cut, Hex.Encode, Hex.Decode, ValidRoom;
    var text := Hex.Encode(cookie);
    Hex.EncodeIsDigits(cookie);
    Hex.RoundTrip(cookie);
    HexInk(text);
    RoomInk(room);
    RoomSize(room);
    var rest := room + [SP] + text;
    var line := REG + rest;
    assert rest[0] == room[0] && rest[|rest|-1] == text[|text|-1] == line[|line|-1];
    TrimLine(line);
    assert RenderReg(room, text) == line + [NL];
    assert line[|REG|..] == rest;
    TrimLine(rest);
    CutJoin(room, SP, text);
    TrimLine(text);
  }

  lemma RoomSize(room: Bytes)
    requires ValidRoom(room)
    ensures 0 < |room| <= MAX_ROOM_NAME_LEN
  {
  }

  /** A MSG is read back as sent. */
  lemma MsgParses(room: Bytes, phase: Bytes, body: Bytes)
    requires ValidRoom(room) && IsPhase(phase) && ValidHex(body) && |body| <= MAX_MSG_BODY_LEN
    ensures Parse(RenderMsg(room, phase, body)) == MsgPacket(room, phase, body)
  {
    hide Trim, PeerTrim, Cut, Hex.Digits, ValidRoom;
    HexInk(body);
    RoomInk(room);
    RoomSize(room);
    var payload := room + [SP] + (phase + [SP] + body);
    var line := MSG + payload;
    assert line[|line|-1] == body[|body|-1];
    TrimLine(line);
    assert RenderMsg(room, phase, body) == line + [NL];
    assert line[|MSG|..] == payload;
    assert line[0] == 77;
    CutJoin(room, SP, phase + [SP] + body);
    CutJoin(phase, SP, body);
  }

  /** And nothing else is read as that MSG: its line, up to blanks around it, is the one sent. */
  lemma MsgOnlyParses(data: Bytes)
    requires Parse(data).MsgPacket?
    ensures var m := Parse(data);
            && Trim(data) + [NL] == RenderMsg(m.sentTo, m.phase, m.body)
            && ValidRoom(m.sentTo) && IsPhase(m.phase) && ValidHex(m.body) && |m.body| <= MAX_MSG_BODY_LEN
  {
    hide Trim, Cut, ParseMsg, CredentialOf, ValidRoom, ValidHex;
    var line := Trim(data);
    assert line == MSG + line[|MSG|..];
    MsgFields(line[|MSG|..]);
  }

  lemma MsgFields(payload: Bytes)
    requires ParseMsg(payload).MsgPacket?
    ensures var m := ParseMsg(payload);
            && payload == m.sentTo + [SP] + m.phase + [SP] + m.body
            && ValidRoom(m.sentTo) && IsPhase(m.phase) && ValidHex(m.body) && |m.body| <= MAX_MSG_BODY_LEN
  {
    hide Cut, ValidRoom, ValidHex;
    var (room, t) := Cut(payload, SP);
    var (phase, t') := Cut(t.value, SP);
    assert payload == room + [SP] + (phase + [SP] + t'.value);
  }

  /** A REG is read with a cookie only if its line ends, after the room and a blank, in 32 hex digits
      that decode to it. */
  lemma RegOnlyParses(data: Bytes) returns (rest: Bytes, text: Bytes)
    requires Parse(data).RegPacket?
    ensures var m := Parse(data);
            && ValidRoom(m.room) && Trim(data) == REG + rest
            && match m.cred
               case Absent => Trim(rest) == m.room
               case Malformed => Cut(Trim(rest), SP) == (m.room, Some(text)) && Trim(text) != []
                                 && (|Trim(text)| != 2 * COOKIE_BYTES || Hex.Decode(Trim(text)).None?)
               case Presented(c) => Cut(Trim(rest), SP) == (m.room, Some(text)) && |c| == COOKIE_BYTES
                                    && |Trim(text)| == 2 * COOKIE_BYTES && Hex.Decode(Trim(text)) == Some(c)
  {
    hide Trim;
    var line := Trim(data);
    rest := line[|REG|..];
    assert line == REG + rest;
    var cookie := Cut(Trim(rest), SP).1;
    text := if cookie.Some? then cookie.value else [];
    TrimmedEnds(rest);
    if cookie.Some? { TextNotBlank(Trim(rest), text); }
  }

  /** After an inner blank of a trimmed text something is left. */
  lemma TextNotBlank(x: Bytes, text: Bytes)
    requires x == [] || Inked(x)
    requires |text| < |x| && x[|x| - |text| - 1] == SP && x[|x| - |text|..] == text
    ensures Trim(text) != []
  {
    if text != [] {
      SuffixTrims(x, |x| - |text|);
      TrimsAgreeIff(text);
    }
  }

  // ---- what the relay sends and peers read ----

  function RenderMsgd(phase: Bytes, body: Bytes): Bytes { MSGD + phase + [SP] + body + [NL] }
  function RenderChallenge(room: Bytes, cookie: Bytes): Bytes { REGD + room + [SP] + Hex.Encode(cookie) + [NL] }

  function RenderRegd(room: Bytes, addr: Bytes): Bytes { REGD + room + [SP] + OK + addr + [NL] }

  datatype Inbound =
    | Registered(addr: Bytes)    // "REGD room OK addr"
    | Challenged(cookie: Bytes)  // "REGD room cookie"
    | Message(phase: Bytes, body: Bytes)
    | Ignored
    | Panics                     // trimming takes a slice that ends before it starts

  function ReadRegd(room: Bytes, rest: Bytes): Inbound {
    var (name, t) := Cut(rest, SP);
    if t.None? || name != room then Ignored
    else match PeerTrim(t.value)
      case None => Panics
      case Some(payload) =>
        if OK <= payload then
          match PeerTrim(payload[|OK|..])
          case None => Panics
          case Some(addr) => Registered(addr)
        else if |payload| == 32 && Hex.Decode(payload).Some? then Challenged(payload)
        else Ignored
  }

  function Read(room: Bytes, data: Bytes): Inbound {
    match PeerTrim(data)
    case None => Panics
    case Some(line) =>
      if REGD <= line then ReadRegd(room, line[|REGD|..])
      else if MSGD + SPAKE2 + [SP] <= line then Message(SPAKE2, line[|MSGD + SPAKE2 + [SP]|..])
      else if MSGD + CONFIRM + [SP] <= line then Message(CONFIRM, line[|MSGD + CONFIRM + [SP]|..])
      else Ignored
  }

  lemma MsgdReads(room: Bytes, phase: Bytes, body: Bytes)
    requires IsPhase(phase) && ValidHex(body)
    ensures Read(room, RenderMsgd(phase, body)) == Message(phase, body)
  {
    hide Trim, PeerTrim, Cut;
    HexInk(body);
    var line := MSGD + phase + [SP] + body;
    assert line[|line|-1] == body[|body|-1];
    TrimLine(line);
    assert line[0] == 77 && line[5] == phase[0];
    assert line[|MSGD + phase + [SP]|..] == body;
  }

  lemma ChallengeReads(room: Bytes, cookie: Bytes)
    requires ValidRoom(room) && |cookie| == COOKIE_BYTES
    ensures Read(room, RenderChallenge(room, cookie)) == Challenged(Hex.Encode(cookie))
  {
    hide Trim, PeerTrim, Cut, Hex.Encode, Hex.Decode, ValidRoom;
    var text := Hex.Encode(cookie);
    Hex.EncodeIsDigits(cookie);
    Hex.RoundTrip(cookie);
    HexInk(text);
    RoomInk(room);
    var rest := room + [SP] + text;
    var line := REGD + rest;
    assert line[|line|-1] == text[|text|-1];
    TrimLine(line);
    assert RenderChallenge(room, cookie) == line + [NL];
    assert line[|REGD|..] == rest;
    CutJoin(room, SP, text);
    TrimPlain(text);
    assert Hex.Value(text[0]).Some?;
  }

  lemma RegdReads(room: Bytes, addr: Bytes)
    requires ValidRoom(room) && Inked(addr)
    ensures Read(room, RenderRegd(room, addr)) == Registered(addr)
  {
    hide Trim, PeerTrim, Cut, ValidRoom;
    RoomInk(room);
    var payload := OK + addr;
    var rest := room + [SP] + payload;
    var line := REGD + rest;
    assert line[|line|-1] == payload[|payload|-1] == addr[|addr|-1];
    TrimLine(line);
    assert RenderRegd(room, addr) == line + [NL];
    assert line[|REGD|..] == rest;
    CutJoin(room, SP, payload);
    TrimPlain(payload);
    assert payload[|OK|..] == addr;
    TrimPlain(addr);
  }

  /** And a peer takes nothing else for them: a line is an OK or a challenge only if it names the peer's own room, a
      challenge only if it carries 32 hex digits, a message only if it names a phase. */
  lemma ReadOnly(room: Bytes, data: Bytes) returns (line: Bytes, rest: Bytes)
    requires !Read(room, data).Ignored? && !Read(room, data).Panics?
    ensures PeerTrim(data) == Some(line)
    ensures match Read(room, data)
            case Message(phase, body) => IsPhase(phase) && line == MSGD + phase + [SP] + body
            case Challenged(cookie) =>
              && line == REGD + room + [SP] + rest && SP !in room
              && PeerTrim(rest) == Some(cookie) && |cookie| == 2 * COOKIE_BYTES && Hex.Decode(cookie).Some?
            case Registered(addr) =>
              && line == REGD + room + [SP] + rest && SP !in room && PeerTrim(rest).Some?
              && OK <= PeerTrim(rest).value && PeerTrim(PeerTrim(rest).value[|OK|..]) == Some(addr)
            case _ => true
  {
    hide PeerTrim, Trim, Hex.Decode;
    line, rest := PeerTrim(data).value, [];
    if REGD <= line {
      var (name, t) := Cut(line[|REGD|..], SP);
      rest := t.value;
      assert line == REGD + line[|REGD|..] == REGD + room + [SP] + rest;
    } else {
      var m := Read(room, data);
      assert line == (MSGD + m.phase + [SP]) + line[|MSGD + m.phase + [SP]|..];
    }
  }

  lemma TrimmedEnds(b: Bytes)
    ensures PeerTrim(b).Some? && PeerTrim(b).value != [] ==> Inked(PeerTrim(b).value)
    ensures Trim(b) == [] || Inked(Trim(b))
  {
  }

  /** What is left of an inked text after a cut is not all blank. */
  lemma SuffixTrims(x: Bytes, n: nat)
    requires Inked(x) && n < |x|
    ensures PeerTrim(x[n..]).Some? && Inked(PeerTrim(x[n..]).value)
  {
    var y := x[n..];
    assert y[|y|-1] == x[|x|-1];
    TrimsAgreeIff(y);
    TrimmedEnds(y);
    assert Lead(y) < |y|;
  }

  /** The peer panics on exactly the datagrams that are all blank and not empty. */
  lemma PanicsIff(room: Bytes, data: Bytes)
    ensures Read(room, data) == Panics <==> data != [] && forall i :: 0 <= i < |data| ==> Blank(data[i])
  {
    hide Cut;
    TrimsAgreeIff(data);
    TrimmedEnds(data);
    if PeerTrim(data).Some? {
      var line := PeerTrim(data).value;
      if REGD <= line { RegdNeverPanics(room, line); }
    }
  }

  lemma RegdNeverPanics(room: Bytes, line: Bytes)
    requires Inked(line) && REGD <= line
    ensures ReadRegd(room, line[|REGD|..]) != Panics
  {
    hide PeerTrim, Trim, Lead, Tail;
    var rest := line[|REGD|..];
    var (name, t) := Cut(rest, SP);
    if t.Some? && t.value != [] {
      var n := |line| - |t.value|;
      assert line[n..] == t.value;
      SuffixTrims(line, n);
      var payload := PeerTrim(t.value).value;
      if OK < payload { SuffixTrims(payload, |OK|); }
    }
    EmptyTrims();
  }

  lemma EmptyTrims()
    ensures PeerTrim([]) == Some([]) && Trim([]) == []
  {
  }

  lemma TrimPlain(x: Bytes)
    requires Inked(x)
    ensures PeerTrim(x) == Some(x)
  {
    assert Lead(x) == 0 && Tail(x) == 0 && x[0..|x|] == x;
  }

  /** A payload sent through the relay arrives unchanged: datagram, relay parse, `MSGD` line, peer
      parse, hex. */
  lemma MessageRoundTrip(room: Bytes, phase: Bytes, payload: Bytes)
    requires ValidRoom(room) && IsPhase(phase) && 0 < 2 * |payload| <= MAX_MSG_BODY_LEN
    ensures var m := Parse(RenderMsg(room, phase, Hex.Encode(payload)));
            && m.MsgPacket? && m.sentTo == room
            && var got := Read(room, RenderMsgd(m.phase, m.body));
               got.Message? && got.phase == phase && Hex.Decode(got.body) == Some(payload)
  {
    hide Parse, Read, RenderMsg, RenderMsgd, Hex.Encode, Hex.Decode;
    Hex.EncodeIsDigits(payload);
    Hex.RoundTrip(payload);
    MsgParses(room, phase, Hex.Encode(payload));
    MsgdReads(room, phase, Hex.Encode(payload));
  }

  /** A challenge comes back as the credential it asks for. */
  lemma ChallengeRoundTrip(room: Bytes, cookie: Bytes)
    requires ValidRoom(room) && |cookie| == COOKIE_BYTES
    ensures var got := Read(room, RenderChallenge(room, cookie));
            got.Challenged? && Parse(RenderReg(room, got.cookie)) == RegPacket(room, Presented(cookie))
  {
    hide Parse, Read;
    ChallengeReads(room, cookie);
    CookieRegParses(room, cookie);
  }
}
