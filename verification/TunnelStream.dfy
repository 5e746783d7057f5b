/** The tunnel configuration stream: an `ACCEPT` line, request lines, `END`. The readers work on
    whatever pieces the stream delivers and are proved against a parser of the whole text. */
module TunnelStream {
  import opened Net
  import opened Texts
  import Wire

  const SP: Byte := 32
  const NL: Byte := 10
  const CR: Byte := 13
  const MAX_TOKEN: nat := 4096
  const MAX_REQUESTS: nat := 100

  const END: Bytes := [69, 78, 68]                                           // "END"
  const ACCEPT_TRUE: Bytes := [65, 67, 67, 69, 80, 84, 32, 116, 114, 117, 101]       // "ACCEPT true"
  const ACCEPT_FALSE: Bytes := [65, 67, 67, 69, 80, 84, 32, 102, 97, 108, 115, 101]  // "ACCEPT false"

  /** A request: `L` (76) or `R` (82), and its two addresses. */
  datatype Request = Request(typ: Byte, listen: Bytes, target: Bytes)

  datatype ReadError = TooMany | InvalidLine | InvalidType | TooLong | UnexpectedEof
  datatype Result<+T> = Ok(value: T) | Err(error: ReadError)

  // ---- the parser of the whole text ----

  function StripCr(b: Bytes): Bytes { if b != [] && b[|b|-1] == CR then b[..|b|-1] else b }

  /** Keeps printable ASCII. */
  function Printable(b: Bytes): Bytes {
    if b == [] then [] else (if 32 <= b[0] < 127 then [b[0]] else []) + Printable(b[1..])
  }

  /** One request line: type, listen address up to the next blank, target. */
  function ParseLine(text: Bytes): Result<Request> {
    var (typ, t) := Wire.Cut(text, SP);
    if t.None? then Err(InvalidLine)
    else
      var (listen, t') := Wire.Cut(t.value, SP);
      if t'.None? then Err(InvalidLine)
      else if typ != [76] && typ != [82] then Err(InvalidType)
      else Ok(Request(typ[0], Printable(listen), Printable(t'.value)))
  }

  /** What follows the requests `sofar`. */
  function ParseFrom(s: Bytes, sofar: seq<Request>): Result<seq<Request>>
    decreases |s|
  {
    if s == [] then Ok(sofar)
    else
      var (line, t) := Wire.Cut(s, NL);
      if |line| > MAX_TOKEN then Err(TooLong)
      else if StripCr(line) == END then Ok(sofar)
      else if |sofar| >= MAX_REQUESTS then Err(TooMany)
      else match ParseLine(StripCr(line))
        case Err(e) => Err(e)
        case Ok(r) => ParseFrom(if t.Some? then t.value else [], sofar + [r])
  }

  /** The flag, and the text after its line. */
  function ParseAccept(s: Bytes): Result<(bool, Bytes)> {
    var (line, t) := Wire.Cut(s, NL);
    if |line| > MAX_TOKEN then Err(TooLong)
    else if t.None? then Err(UnexpectedEof)
    else if StripCr(line) == ACCEPT_TRUE then Ok((true, t.value))
    else if StripCr(line) == ACCEPT_FALSE then Ok((false, t.value))
    else Err(InvalidLine)
  }

  // ---- exactly what the parser accepts ----

  /** `text` is a line with type `r.typ` and these two fields. */
  predicate Reads(text: Bytes, r: Request, listen: Bytes, target: Bytes) {
    && text == [r.typ, SP] + listen + [SP] + target && SP !in listen
    && r.listen == Printable(listen) && r.target == Printable(target)
  }

  /** A line is accepted if and only if it is an `L` or an `R`, a blank, a field, a blank and the rest. */
  lemma ParseLineIff(text: Bytes, r: Request)
    ensures ParseLine(text) == Ok(r) <==> r.typ in {76, 82} && exists listen, target :: Reads(text, r, listen, target)
  {
    hide Reads, ParseLine;
    if ParseLine(text) == Ok(r) {
      var listen, target := LineFields(text, r);
    }
    if r.typ in {76, 82} && exists listen, target :: Reads(text, r, listen, target) {
      var listen, target :| Reads(text, r, listen, target);
      LineAccepted(text, r, listen, target);
    }
  }

  lemma LineAccepted(text: Bytes, r: Request, listen: Bytes, target: Bytes)
    requires r.typ in {76, 82} && Reads(text, r, listen, target)
    ensures ParseLine(text) == Ok(r)
  {
    hide Printable, Wire.Cut;
    assert text == [r.typ] + [SP] + (listen + [SP] + target);
    Wire.CutJoin([r.typ], SP, listen + [SP] + target);
    Wire.CutJoin(listen, SP, target);
  }

  lemma LineFields(text: Bytes, r: Request) returns (listen: Bytes, target: Bytes)
    requires ParseLine(text) == Ok(r)
    ensures r.typ in {76, 82} && Reads(text, r, listen, target)
  {
    hide Printable, Wire.Cut;
    var (typ, t) := Wire.Cut(text, SP);
    var (l, t') := Wire.Cut(t.value, SP);
    listen, target := l, t'.value;
    assert text == typ + ([SP] + (listen + ([SP] + target)));
    assert text == [r.typ, SP] + listen + [SP] + target;
  }

  /** It is short of a field if and only if it has fewer than two blanks; otherwise only its type can be wrong. */
  lemma LineErrors(text: Bytes)
    ensures ParseLine(text) == Err(InvalidLine) <==> multiset(text)[SP] < 2
    ensures ParseLine(text).Err? ==> ParseLine(text).error in {InvalidLine, InvalidType}
  {
    hide Printable, Wire.Cut;
    Blanks(text);
    var t := Wire.Cut(text, SP).1;
    if t.Some? { Blanks(t.value); }
  }

  lemma Blanks(b: Bytes)
    ensures var (h, t) := Wire.Cut(b, SP); multiset(b)[SP] == if t.Some? then 1 + multiset(t.value)[SP] else 0
  {
    hide Wire.Cut;
    var (h, t) := Wire.Cut(b, SP);
    if t.Some? {
      assert b == h + ([SP] + t.value);
      assert multiset(b) == multiset(h) + (multiset([SP]) + multiset(t.value));
    } else {
      assert b == h;
    }
    assert multiset(h)[SP] == 0;
  }

  /** The lines of a text; the last need not end in a newline. */
  function Lines(s: Bytes): seq<Bytes>
    decreases |s|
  {
    if s == [] then []
    else
      var (line, t) := Wire.Cut(s, NL);
      [line] + if t.Some? then Lines(t.value) else []
  }

  /** The line stands for this request. */
  predicate Gives(line: Bytes, r: Request) {
    |line| <= MAX_TOKEN && StripCr(line) != END && ParseLine(StripCr(line)) == Ok(r)
  }

  predicate Ends(line: Bytes) { |line| <= MAX_TOKEN && StripCr(line) == END }

  /** Why the reader stops at a line after `n` requests, if it does. */
  function Stops(line: Bytes, n: nat): Option<ReadError> {
    if |line| > MAX_TOKEN then Some(TooLong)
    else if StripCr(line) == END then None
    else if n >= MAX_REQUESTS then Some(TooMany)
    else match ParseLine(StripCr(line))
      case Err(e) => Some(e)
      case Ok(_) => None
  }

  /** The text holds exactly these requests, and then `END` or nothing. */
  ghost predicate Holds(lines: seq<Bytes>, reqs: seq<Request>, sofar: nat) {
    && |reqs| <= |lines| && sofar + |reqs| <= MAX_REQUESTS
    && (forall i :: 0 <= i < |reqs| ==> Gives(lines[i], reqs[i]))
    && (|reqs| == |lines| || Ends(lines[|reqs|]))
  }

  lemma HoldsCons(lines: seq<Bytes>, r: Request, reqs: seq<Request>, sofar: nat)
    requires lines != []
    ensures Holds(lines, [r] + reqs, sofar) <==> Gives(lines[0], r) && Holds(lines[1..], reqs, sofar + 1)
  {
    hide Gives, Ends;
    var all := [r] + reqs;
    if Holds(lines, all, sofar) {
      assert Gives(lines[0], all[0]);
      forall i | 0 <= i < |reqs| ensures Gives(lines[1..][i], reqs[i]) { assert Gives(lines[i + 1], all[i + 1]); }
    }
    if Gives(lines[0], r) && Holds(lines[1..], reqs, sofar + 1) {
      forall i | 0 <= i < |all| ensures Gives(lines[i], all[i]) {
        if i > 0 { assert Gives(lines[1..][i - 1], reqs[i - 1]); }
      }
    }
  }

  lemma {:induction false} HoldsParses(s: Bytes, sofar: seq<Request>, reqs: seq<Request>)
    requires |sofar| <= MAX_REQUESTS
    ensures ParseFrom(s, sofar) == Ok(sofar + reqs) <==> Holds(Lines(s), reqs, |sofar|)
    decreases |s|
  {
    hide Wire.Cut, ParseLine, StripCr, Holds;
    if s == [] {
      EmptyHolds(reqs, |sofar|);
      assert sofar + reqs == sofar <==> reqs == [];
    } else {
      var (line, t) := Wire.Cut(s, NL);
      var rest := if t.Some? then t.value else [];
      assert Lines(s) == [line] + Lines(rest) && Lines(s)[1..] == Lines(rest);
      if reqs == [] {
        NoneHolds(Lines(s), |sofar|);
        assert sofar + reqs == sofar;
        if Stops(line, |sofar|) == None && !Ends(line) {
          ParsesOn(rest, sofar + [ParseLine(StripCr(line)).value]);
        }
      } else {
        HoldsCons(Lines(s), reqs[0], reqs[1..], |sofar|);
        assert [reqs[0]] + reqs[1..] == reqs;
        FirstHolds(Lines(s), reqs, |sofar|);
        if Stops(line, |sofar|) == None && !Ends(line) {
          var r := ParseLine(StripCr(line)).value;
          ParsesOn(rest, sofar + [r]);
          if r == reqs[0] {
            HoldsParses(rest, sofar + [r], reqs[1..]);
            assert sofar + [r] + reqs[1..] == sofar + reqs;
          } else if ParseFrom(rest, sofar + [r]).Ok? {
            assert ParseFrom(rest, sofar + [r]).value[|sofar|] == r != (sofar + reqs)[|sofar|];
          }
        } else if ParseFrom(s, sofar).Ok? {
          assert |sofar + reqs| > |sofar|;
        }
      }
    }
  }

  lemma EmptyHolds(reqs: seq<Request>, sofar: nat)
    requires sofar <= MAX_REQUESTS
    ensures Holds([], reqs, sofar) <==> reqs == []
  {
  }

  lemma NoneHolds(lines: seq<Bytes>, sofar: nat)
    requires lines != [] && sofar <= MAX_REQUESTS
    ensures Holds(lines, [], sofar) <==> Ends(lines[0])
  {
  }

  lemma FirstHolds(lines: seq<Bytes>, reqs: seq<Request>, sofar: nat)
    requires lines != [] && reqs != []
    ensures Holds(lines, reqs, sofar) ==> Gives(lines[0], reqs[0]) && sofar < MAX_REQUESTS
  {
  }

  /** What has been read stays read. */
  lemma {:induction false} ParsesOn(s: Bytes, sofar: seq<Request>)
    ensures ParseFrom(s, sofar).Ok? ==> sofar <= ParseFrom(s, sofar).value
    decreases |s|
  {
    hide Wire.Cut, ParseLine, StripCr;
    if s != [] {
      var (line, t) := Wire.Cut(s, NL);
      if Stops(line, |sofar|) == None && !Ends(line) {
        ParsesOn(if t.Some? then t.value else [], sofar + [ParseLine(StripCr(line)).value]);
      }
    }
  }

  /** The reader returns these requests if and only if they are what the first lines of the text stand for, at most 100
      of them, and then comes `END` or the end of the text. */
  lemma ParseIff(s: Bytes, reqs: seq<Request>)
    ensures ParseFrom(s, []) == Ok(reqs) <==> Holds(Lines(s), reqs, 0)
  {
    HoldsParses(s, [], reqs);
    assert [] + reqs == reqs;
  }

  /** The reader fails with `e` if and only if, after some lines that stand for requests, there is one it stops at for
      that reason. */
  lemma ParseErrIff(s: Bytes, e: ReadError)
    ensures ParseFrom(s, []) == Err(e) <==> FailsWith(Lines(s), 0, e)
  {
    FailsParses(s, [], e);
  }

  predicate Passes(line: Bytes, n: nat) { Stops(line, n) == None && !Ends(line) }

  ghost predicate FailsAt(lines: seq<Bytes>, sofar: nat, e: ReadError, n: nat)
    requires n < |lines|
  {
    Stops(lines[n], sofar + n) == Some(e) && forall i :: 0 <= i < n ==> Passes(lines[i], sofar + i)
  }

  ghost predicate FailsWith(lines: seq<Bytes>, sofar: nat, e: ReadError) {
    exists n :: 0 <= n < |lines| && FailsAt(lines, sofar, e, n)
  }

  lemma FailsLater(lines: seq<Bytes>, sofar: nat, e: ReadError, n: nat)
    requires n + 1 < |lines|
    ensures FailsAt(lines, sofar, e, n + 1) <==> Passes(lines[0], sofar) && FailsAt(lines[1..], sofar + 1, e, n)
  {
    hide Stops, Passes;
    var rest := lines[1..];
    assert forall i :: 0 <= i < |rest| ==> rest[i] == lines[i + 1];
    if FailsAt(lines, sofar, e, n + 1) {
      assert Passes(lines[0], sofar + 0);
      forall i | 0 <= i < n ensures Passes(rest[i], sofar + 1 + i) { assert Passes(lines[i + 1], sofar + (i + 1)); }
    }
    if Passes(lines[0], sofar) && FailsAt(rest, sofar + 1, e, n) {
      forall i | 0 <= i < n + 1 ensures Passes(lines[i], sofar + i) {
        if i > 0 { assert Passes(rest[i - 1], sofar + 1 + (i - 1)); }
      }
    }
  }

  lemma FailsCons(lines: seq<Bytes>, sofar: nat, e: ReadError)
    requires lines != []
    ensures FailsWith(lines, sofar, e) <==>
            Stops(lines[0], sofar) == Some(e) || (Passes(lines[0], sofar) && FailsWith(lines[1..], sofar + 1, e))
  {
    hide Stops, Passes, FailsAt;
    FailsFirst(lines, sofar, e);
    if FailsWith(lines, sofar, e) {
      var n :| 0 <= n < |lines| && FailsAt(lines, sofar, e, n);
      if n > 0 { FailsLater(lines, sofar, e, n - 1); }
    }
    if Passes(lines[0], sofar) && FailsWith(lines[1..], sofar + 1, e) {
      var n :| 0 <= n < |lines[1..]| && FailsAt(lines[1..], sofar + 1, e, n);
      FailsLater(lines, sofar, e, n);
    }
  }

  lemma FailsFirst(lines: seq<Bytes>, sofar: nat, e: ReadError)
    requires lines != []
    ensures FailsAt(lines, sofar, e, 0) <==> Stops(lines[0], sofar) == Some(e)
  {
  }

  lemma {:induction false} FailsParses(s: Bytes, sofar: seq<Request>, e: ReadError)
    ensures ParseFrom(s, sofar) == Err(e) <==> FailsWith(Lines(s), |sofar|, e)
    decreases |s|
  {
    hide Wire.Cut, ParseLine, StripCr, FailsWith;
    if s == [] {
      NothingFails(|sofar|, e);
    } else {
      var (line, t) := Wire.Cut(s, NL);
      var rest := if t.Some? then t.value else [];
      assert Lines(s) == [line] + Lines(rest) && Lines(s)[1..] == Lines(rest);
      FailsCons(Lines(s), |sofar|, e);
      if Stops(line, |sofar|) == None && !Ends(line) {
        FailsParses(rest, sofar + [ParseLine(StripCr(line)).value], e);
      }
    }
  }

  lemma NothingFails(sofar: nat, e: ReadError)
    ensures !FailsWith([], sofar, e)
  {
  }

  /** The first line is accepted if and only if it is one of the two words, up to a carriage return. */
  lemma ParseAcceptIff(s: Bytes, flag: bool, rest: Bytes)
    ensures var word := if flag then ACCEPT_TRUE else ACCEPT_FALSE;
            ParseAccept(s) == Ok((flag, rest)) <==> s == word + [NL] + rest || s == word + [CR] + [NL] + rest
  {
    var word := if flag then ACCEPT_TRUE else ACCEPT_FALSE;
    AcceptPlain();
    assert word[|word|-1] != CR && NL !in word + [CR];
    if s == word + [NL] + rest { Wire.CutJoin(word, NL, rest); }
    if s == word + [CR] + [NL] + rest {
      Wire.CutJoin(word + [CR], NL, rest);
      assert (word + [CR])[..|word|] == word;
    }
    hide Wire.Cut;
    var (line, t) := Wire.Cut(s, NL);
    if ParseAccept(s) == Ok((flag, rest)) {
      assert s == line + [NL] + rest;
      if line != word { assert line == StripCr(line) + [CR]; }
    }
  }

  // ---- a stream that arrives in pieces ----

  /** A byte stream cut into nonempty pieces; a read never crosses a cut. */
  class Source {
    var cuts: seq<Bytes>

    ghost predicate Valid()
      reads this
    {
      forall i :: 0 <= i < |cuts| ==> cuts[i] != []
    }

    ghost function Rest(): Bytes
      reads this
    {
      Flat(cuts)
    }

    constructor (cuts: seq<Bytes>)
      requires forall i :: 0 <= i < |cuts| ==> cuts[i] != []
      ensures Valid() && Rest() == Flat(cuts)
    {
      this.cuts := cuts;
    }

    method Read(max: nat) returns (b: Bytes)
      requires Valid() && max > 0
      modifies this
      ensures Valid() && b + Rest() == old(Rest()) && |b| <= max
      ensures b == [] <==> old(Rest()) == []
    {
      if cuts == [] {
        return [];
      }
      var piece, later := cuts[0], cuts[1..];
      if |piece| <= max {
        cuts := later;
        return piece;
      }
      b := piece[..max];
      cuts := [piece[max..]] + later;
      assert cuts[1..] == later;
      assert b + (piece[max..] + Flat(later)) == piece + Flat(later);
    }
  }

  // ---- the readers ----

  /** A line and what follows it. */
  lemma {:induction false} CutAt(line: Bytes, rest: Bytes)
    requires NL !in line
    ensures Wire.Cut(line + [NL] + rest, NL) == (line, Some(rest)) && Wire.Cut(line, NL) == (line, None)
  {
    Wire.CutJoin(line, NL, rest);
  }

  /** A line is at least as long as any part of it that has no newline. */
  lemma {:induction false} CutLong(line: Bytes, rest: Bytes)
    requires NL !in line
    ensures |Wire.Cut(line + rest, NL).0| >= |line|
  {
    if line != [] {
      assert (line + rest)[1..] == line[1..] + rest;
      CutLong(line[1..], rest);
    }
  }

  /** `read_accept_line`: one byte at a time. */
  method ReadAccept(src: Source) returns (r: Result<bool>)
    requires src.Valid()
    modifies src
    ensures src.Valid()
    ensures match ParseAccept(old(src.Rest()))
            case Err(e) => r == Err(e)
            case Ok((flag, rest)) => r == Ok(flag) && src.Rest() == rest
  {
    var line: Bytes := [];
    ghost var all := src.Rest();
    while true
      invariant src.Valid() && line + src.Rest() == all && NL !in line && |line| <= MAX_TOKEN
      decreases |src.Rest()|
    {
      var b := src.Read(1);
      if b == [] {
        assert line == all;
        CutAt(line, []);
        return Err(UnexpectedEof);
      }
      if b[0] == NL {
        assert all == line + [NL] + src.Rest();
        CutAt(line, src.Rest());
        break;
      }
      assert all == (line + b) + src.Rest();
      if |line| >= MAX_TOKEN {
        CutLong(line + b, src.Rest());
        return Err(TooLong);
      }
      line := line + b;
    }
    var text := StripCr(line);
    if text == ACCEPT_TRUE {
      return Ok(true);
    }
    if text == ACCEPT_FALSE {
      return Ok(false);
    }
    r := Err(InvalidLine);
  }

  /** Everything not yet consumed: the unread part of the last piece, then the stream. */
  ghost function Pending(chunk: Bytes, pos: nat, src: Source): Bytes
    requires pos <= |chunk|
    reads src
  {
    chunk[pos..] + src.Rest()
  }

  lemma TakeOne(chunk: Bytes, pos: nat, rest: Bytes)
    requires pos < |chunk|
    ensures chunk[pos..] + rest == [chunk[pos]] + (chunk[pos + 1..] + rest)
  {
  }

  /** One line, `None` if it is too long. It ends in a newline unless the stream ended first. */
  method ReadToken(src: Source, chunk0: Bytes, pos0: nat) returns (token: Option<Bytes>, chunk: Bytes, pos: nat)
    requires src.Valid() && pos0 <= |chunk0|
    modifies src
    ensures src.Valid() && pos <= |chunk|
    ensures var s := old(Pending(chunk0, pos0, src));
            var (line, t) := Wire.Cut(s, NL);
            if |line| > MAX_TOKEN then token == None
            else && token == Some(line + if t.Some? then [NL] else [])
                 && Pending(chunk, pos, src) == if t.Some? then t.value else []
  {
    hide Wire.Cut, Flat;
    chunk, pos := chunk0, pos0;
    var line: Bytes := [];
    ghost var all := Pending(chunk, pos, src);
    while true
      invariant src.Valid() && pos <= |chunk| && line + Pending(chunk, pos, src) == all
      invariant NL !in line && |line| <= MAX_TOKEN
      decreases |Pending(chunk, pos, src)|
    {
      ghost var before := Pending(chunk, pos, src);
      if pos >= |chunk| {
        chunk := src.Read(MAX_TOKEN);
        pos := 0;
        if chunk == [] {
          assert line == all;
          CutAt(line, []);
          return Some(line), chunk, pos;
        }
        assert chunk[0..] == chunk;
        assert Pending(chunk, pos, src) == before;
      }
      var b := chunk[pos];
      TakeOne(chunk, pos, src.Rest());
      pos := pos + 1;
      if b == NL {
        assert all == line + [NL] + Pending(chunk, pos, src);
        CutAt(line, Pending(chunk, pos, src));
        return Some(line + [b]), chunk, pos;
      }
      assert all == (line + [b]) + Pending(chunk, pos, src);
      if |line| >= MAX_TOKEN {
        CutLong(line + [b], Pending(chunk, pos, src));
        return None, chunk, pos;
      }
      line := line + [b];
    }
  }

  /** `strip_eol`. */
  function StripEol(token: Bytes): Bytes {
    StripCr(if token != [] && token[|token|-1] == NL then token[..|token|-1] else token)
  }

  lemma StripEolLine(line: Bytes, ended: bool)
    requires NL !in line
    ensures StripEol(line + if ended then [NL] else []) == StripCr(line)
  {
    if ended { assert (line + [NL])[..|line|] == line; } else { assert line + [] == line; }
  }

  /** `read_requests_from_stream`: for every stream and every way it is cut, the result of parsing
      the whole text. */
  method ReadRequests(src: Source) returns (r: Result<seq<Request>>)
    requires src.Valid()
    modifies src
    ensures r == ParseFrom(old(src.Rest()), [])
  {
    hide Wire.Cut, StripCr, StripEol;
    var reqs: seq<Request> := [];
    var chunk: Bytes := [];
    var pos: nat := 0;
    ghost var all := src.Rest();
    assert Pending(chunk, pos, src) == all;
    while true
      invariant src.Valid() && pos <= |chunk|
      invariant ParseFrom(Pending(chunk, pos, src), reqs) == ParseFrom(all, [])
      decreases |Pending(chunk, pos, src)|
    {
      ghost var s := Pending(chunk, pos, src);
      ghost var cut := Wire.Cut(s, NL);
      CutParts(s);
      var token;
      token, chunk, pos := ReadToken(src, chunk, pos);
      if token.None? {
        return Err(TooLong);
      }
      if token.value == [] {
        return Ok(reqs);
      }
      var text := StripEol(token.value);
      StripEolLine(cut.0, cut.1.Some?);
      if text == END {
        return Ok(reqs);
      }
      if |reqs| >= MAX_REQUESTS {
        return Err(TooMany);
      }
      var parsed := ParseLine(text);
      if parsed.Err? {
        return Err(parsed.error);
      }
      reqs := reqs + [parsed.value];
    }
  }

  lemma CutParts(s: Bytes)
    ensures var (line, t) := Wire.Cut(s, NL);
            && NL !in line && |s| == |line| + (if t.Some? then 1 + |t.value| else 0)
            && (s == [] <==> line == [] && t.None?)
  {
  }

  // ---- the writer, and what the readers make of it ----

  function RenderLine(r: Request): Bytes { [r.typ, SP] + r.listen + [SP] + r.target }

  function RenderLines(reqs: seq<Request>): Bytes {
    if reqs == [] then [] else RenderLine(reqs[0]) + [NL] + RenderLines(reqs[1..])
  }

  function RenderConfig(flag: bool, reqs: seq<Request>): Bytes {
    (if flag then ACCEPT_TRUE else ACCEPT_FALSE) + [NL] + RenderLines(reqs) + END + [NL]
  }

  predicate IsPrintable(b: Bytes) { forall i :: 0 <= i < |b| ==> 32 <= b[i] < 127 }

  /** A request with a known type, printable addresses, and a line that fits. */
  predicate WellFormed(r: Request) {
    r.typ in {76, 82} && IsPrintable(r.listen) && IsPrintable(r.target) && |RenderLine(r)| <= MAX_TOKEN
  }

  lemma {:induction false} PrintableKeeps(b: Bytes)
    ensures IsPrintable(b) ==> Printable(b) == b
    ensures SP !in b ==> SP !in Printable(b)
  {
    if b != [] {
      PrintableKeeps(b[1..]);
      assert b == [b[0]] + b[1..];
      assert IsPrintable(b) ==> IsPrintable(b[1..]);
    }
  }

  /** A line is read back as written exactly when the listen address has no blank. */
  lemma LineRoundTripIff(r: Request)
    requires WellFormed(r)
    ensures ParseLine(RenderLine(r)) == Ok(r) <==> SP !in r.listen
  {
    var after := r.listen + [SP] + r.target;
    assert RenderLine(r) == [r.typ] + [SP] + after;
    Wire.CutJoin([r.typ], SP, after);
    if SP !in r.listen {
      Wire.CutJoin(r.listen, SP, r.target);
    }
    PrintableKeeps(Wire.Cut(after, SP).0);
    PrintableKeeps(r.target);
  }

  lemma LineShape(r: Request)
    requires WellFormed(r)
    ensures NL !in RenderLine(r) && StripCr(RenderLine(r)) == RenderLine(r) != END
  {
    var line := RenderLine(r);
    assert line[1] == SP && END[1] == 78;
    assert forall i :: 0 <= i < |line| ==> 32 <= line[i];
  }

  lemma {:induction false} LinesRoundTrip(reqs: seq<Request>, sofar: seq<Request>)
    requires forall r :: r in reqs ==> WellFormed(r) && SP !in r.listen
    requires |sofar| + |reqs| <= MAX_REQUESTS
    ensures ParseFrom(RenderLines(reqs) + END + [NL], sofar) == Ok(sofar + reqs)
  {
    hide ParseLine, RenderLine, WellFormed, StripCr, Wire.Cut;
    if reqs == [] {
      assert RenderLines(reqs) + END + [NL] == END + [NL] + [];
      Wire.CutJoin(END, NL, []);
      assert StripCr(END) == END by { EndPlain(); }
      assert sofar + reqs == sofar;
    } else {
      var r, rest := reqs[0], RenderLines(reqs[1..]) + END + [NL];
      assert RenderLines(reqs) + END + [NL] == RenderLine(r) + [NL] + rest;
      LineShape(r);
      LineFits(r);
      LineRoundTripIff(r);
      Wire.CutJoin(RenderLine(r), NL, rest);
      LinesRoundTrip(reqs[1..], sofar + [r]);
      assert sofar + [r] + reqs[1..] == sofar + reqs;
    }
  }

  lemma AcceptPlain()
    ensures StripCr(ACCEPT_TRUE) == ACCEPT_TRUE && StripCr(ACCEPT_FALSE) == ACCEPT_FALSE
    ensures NL !in ACCEPT_TRUE && NL !in ACCEPT_FALSE && |ACCEPT_TRUE| < |ACCEPT_FALSE| < MAX_TOKEN
  {
  }

  lemma EndPlain()
    ensures StripCr(END) == END
  {
  }

  lemma LineFits(r: Request)
    requires WellFormed(r)
    ensures |RenderLine(r)| <= MAX_TOKEN
  {
  }

  /** The whole of what one side writes is what the other side reads. */
  lemma ConfigRoundTrip(flag: bool, reqs: seq<Request>)
    requires forall r :: r in reqs ==> WellFormed(r) && SP !in r.listen
    requires |reqs| <= MAX_REQUESTS
    ensures var accept := ParseAccept(RenderConfig(flag, reqs));
            accept.Ok? && accept.value.0 == flag && ParseFrom(accept.value.1, []) == Ok(reqs)
  {
    hide WellFormed, RenderLines, ParseFrom, Wire.Cut, StripCr;
    AcceptPlain();
    var line := if flag then ACCEPT_TRUE else ACCEPT_FALSE;
    var rest := RenderLines(reqs) + END + [NL];
    assert RenderConfig(flag, reqs) == line + [NL] + rest;
    Wire.CutJoin(line, NL, rest);
    LinesRoundTrip(reqs, []);
    assert [] + reqs == reqs;
  }

  function ParseConfig(s: Bytes): Result<(bool, seq<Request>)> {
    match ParseAccept(s)
    case Err(e) => Err(e)
    case Ok((flag, rest)) =>
      match ParseFrom(rest, [])
      case Err(e) => Err(e)
      case Ok(reqs) => Ok((flag, reqs))
  }

  /** The peer's side of the exchange, off the stream. */
  method ReadConfig(src: Source) returns (r: Result<(bool, seq<Request>)>)
    requires src.Valid()
    modifies src
    ensures r == ParseConfig(old(src.Rest()))
  {
    hide ParseFrom, ParseAccept;
    var flag := ReadAccept(src);
    if flag.Err? {
      return Err(flag.error);
    }
    var reqs := ReadRequests(src);
    if reqs.Err? {
      return Err(reqs.error);
    }
    r := Ok((flag.value, reqs.value));
  }
}
