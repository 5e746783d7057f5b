/** Addresses as text: `host:port`, `[host]:port`, and tunnel specs made of them. */
module Address {
  import opened Net

  const COLON: Byte := 58
  const OPEN: Byte := 91
  const CLOSE: Byte := 93

  /** The first and the last place of `c`. */
  function First(b: Bytes, c: Byte): (i: Option<nat>)
    ensures i.None? <==> c !in b
    ensures i.Some? ==> i.value < |b| && b[i.value] == c && c !in b[..i.value]
  {
    if b == [] then None
    else if b[0] == c then Some(0)
    else match First(b[1..], c)
      case None => None
      case Some(i) => assert b[..i + 1] == [b[0]] + b[1..][..i]; Some(i + 1)
  }

  function Last(b: Bytes, c: Byte): (i: Option<nat>)
    ensures i.None? <==> c !in b
    ensures i.Some? ==> i.value < |b| && b[i.value] == c && c !in b[i.value + 1..]
  {
    if b == [] then None
    else if b[|b|-1] == c then Some(|b| - 1)
    else match Last(b[..|b|-1], c)
      case None => assert b == b[..|b|-1] + [b[|b|-1]]; None
      case Some(i) => assert b[i + 1..] == b[..|b|-1][i + 1..] + [b[|b|-1]]; Some(i)
  }

  // ---- host and port ----

  /** The allowlist's `split_host_port`. */
  function Split(s: Bytes): Option<(Bytes, Bytes)> {
    match Last(s, COLON)
    case None => None
    case Some(i) =>
      if s[0] == OPEN then
        match First(s, CLOSE)
        case None => None
        case Some(end) =>
          if end + 1 == |s| || end + 1 != i then None
          else if OPEN in s[1..] || CLOSE in s[end + 1..] then None
          else Some((s[1..end], s[i + 1..]))
      else
        if COLON in s[..i] || OPEN in s || CLOSE in s then None
        else Some((s[..i], s[i + 1..]))
  }

  datatype AddrError = MissingPort | TooManyColons | MissingClose | UnexpectedOpen | UnexpectedClose
  datatype Resolved = Parts(host: Bytes, port: Bytes) | Bad(why: AddrError)

  /** The resolver's copy of it, which names the error. */
  function ResolverSplit(s: Bytes): Resolved {
    match Last(s, COLON)
    case None => Bad(MissingPort)
    case Some(i) =>
      if s[0] == OPEN then
        match First(s, CLOSE)
        case None => Bad(MissingClose)
        case Some(end) =>
          if end + 1 == |s| then Bad(MissingPort)
          else if end + 1 != i then (if s[end + 1] == COLON then Bad(TooManyColons) else Bad(MissingPort))
          else if OPEN in s[1..] then Bad(UnexpectedOpen)
          else if CLOSE in s[end + 1..] then Bad(UnexpectedClose)
          else Parts(s[1..end], s[i + 1..])
      else
        if COLON in s[..i] then Bad(TooManyColons)
        else if OPEN in s then Bad(UnexpectedOpen)
        else if CLOSE in s then Bad(UnexpectedClose)
        else Parts(s[..i], s[i + 1..])
  }

  function Join(host: Bytes, port: Bytes): Bytes {
    if COLON in host then [OPEN] + host + [CLOSE, COLON] + port else host + [COLON] + port
  }

  predicate Bare(b: Bytes) { OPEN !in b && CLOSE !in b }

  lemma FirstAt(b: Bytes, i: nat, c: Byte)
    requires i < |b| && b[i] == c && c !in b[..i]
    ensures First(b, c) == Some(i)
  {
  }

  lemma LastAt(b: Bytes, i: nat, c: Byte)
    requires i < |b| && b[i] == c && c !in b[i + 1..]
    ensures Last(b, c) == Some(i)
  {
  }

  lemma SplitBracketed(host: Bytes, port: Bytes)
    requires Bare(host) && Bare(port) && COLON !in port
    ensures Split([OPEN] + host + [CLOSE, COLON] + port) == Some((host, port))
  {
    hide First, Last;
    var s, n := [OPEN] + host + [CLOSE, COLON] + port, |host|;
    assert s[n + 3..] == port && s[..n + 1] == [OPEN] + host && s[1..n + 1] == host;
    LastAt(s, n + 2, COLON);
    FirstAt(s, n + 1, CLOSE);
    assert s[1..] == host + [CLOSE, COLON] + port;
    assert s[n + 2..] == [COLON] + port;
  }

  lemma SplitPlain(host: Bytes, port: Bytes)
    requires Bare(host) && Bare(port) && COLON !in port && COLON !in host
    ensures Split(host + [COLON] + port) == Some((host, port))
  {
    var s, n := host + [COLON] + port, |host|;
    assert s[n + 1..] == port && s[..n] == host;
    LastAt(s, n, COLON);
  }

  /** Exactly what is accepted, and with what result. */
  lemma SplitIff(s: Bytes, host: Bytes, port: Bytes)
    ensures Split(s) == Some((host, port)) <==>
            && Bare(host) && Bare(port) && COLON !in port
            && (s == [OPEN] + host + [CLOSE, COLON] + port || (COLON !in host && s == host + [COLON] + port))
  {
    if Split(s) == Some((host, port)) {
      var i := Last(s, COLON).value;
      if s[0] == OPEN {
        SplitOpenParts(s, i, First(s, CLOSE).value);
      } else {
        assert s == s[..i] + [s[i]] + s[i + 1..];
      }
    }
    if Bare(host) && Bare(port) && COLON !in port {
      SplitBracketed(host, port);
      if COLON !in host { SplitPlain(host, port); }
    }
  }

  lemma SplitOpenParts(s: Bytes, i: nat, end: nat)
    requires i < |s| && end + 1 == i && s[0] == OPEN && s[i] == COLON && s[end] == CLOSE
    requires CLOSE !in s[..end] && OPEN !in s[1..] && CLOSE !in s[end + 1..]
    ensures s == [OPEN] + s[1..end] + [CLOSE, COLON] + s[i + 1..] && Bare(s[1..end]) && Bare(s[i + 1..])
  {
    assert forall x :: x in s[1..end] ==> x in s[1..] && x in s[..end];
    assert forall x :: x in s[i + 1..] ==> x in s[1..] && x in s[end + 1..];
  }

  /** Splitting undoes joining. */
  lemma SplitJoin(host: Bytes, port: Bytes)
    requires Bare(host) && Bare(port) && COLON !in port
    ensures Split(Join(host, port)) == Some((host, port))
  {
    SplitBracketed(host, port);
    if COLON !in host { SplitPlain(host, port); }
  }

  /** The two copies accept the same inputs with the same results. */
  lemma CopiesAgree(s: Bytes)
    ensures match Split(s)
            case None => ResolverSplit(s).Bad?
            case Some((host, port)) => ResolverSplit(s) == Parts(host, port)
  {
  }

  // ---- tunnel specs ----

  /** Brackets opened and not closed. */
  function Depth(s: Bytes): int {
    if s == [] then 0
    else Depth(s[..|s|-1]) + (if s[|s|-1] == OPEN then 1 else if s[|s|-1] == CLOSE then -1 else 0)
  }

  ghost predicate Balanced(s: Bytes) { Depth(s) == 0 && forall i :: 0 <= i <= |s| ==> Depth(s[..i]) >= 0 }

  /** Every colon is inside brackets. */
  ghost predicate Shielded(s: Bytes) { forall i :: 0 <= i < |s| && s[i] == COLON ==> Depth(s[..i]) > 0 }

  function Joined(parts: seq<Bytes>): Bytes {
    if |parts| == 0 then [] else if |parts| == 1 then parts[0] else parts[0] + [COLON] + Joined(parts[1..])
  }

  /** The spec cut at its outer colons. */
  ghost predicate IsCut(s: Bytes, parts: seq<Bytes>) {
    |parts| >= 1 && Joined(parts) == s && forall i :: 0 <= i < |parts| ==> Balanced(parts[i]) && Shielded(parts[i])
  }

  lemma {:induction false} DepthConcat(a: Bytes, b: Bytes)
    ensures Depth(a + b) == Depth(a) + Depth(b)
  {
    if b == [] {
      assert a + b == a;
    } else {
      DepthConcat(a, b[..|b|-1]);
      assert (a + b)[..|a + b|-1] == a + b[..|b|-1];
    }
  }

  lemma {:induction false} JoinedSnoc(parts: seq<Bytes>, last: Bytes)
    ensures Joined(parts + [last]) == (if parts == [] then last else Joined(parts) + [COLON] + last)
  {
    if |parts| > 1 {
      JoinedSnoc(parts[1..], last);
      assert (parts + [last])[1..] == parts[1..] + [last];
    } else if |parts| == 1 {
      assert (parts + [last])[1..] == [last];
    }
  }

  /** The state of the scan before byte `i`: the parts cut off so far end where the current one starts,
      and the current one follows the running depth. */
  ghost predicate Scanned(s: Bytes, parts: seq<Bytes>, start: nat, i: nat) {
    && start <= i <= |s|
    && (forall j :: 0 <= j <= i ==> Depth(s[..j]) >= 0)
    && (forall k :: 0 <= k < |parts| ==> Balanced(parts[k]) && Shielded(parts[k]))
    && s[..start] == (if parts == [] then [] else Joined(parts) + [COLON])
    && (forall j :: start <= j <= i ==> Depth(s[start..j]) == Depth(s[..j]))
    && (forall j :: start <= j < i && s[j] == COLON ==> Depth(s[..j]) > 0)
  }

  lemma ScanStart(s: Bytes)
    ensures Scanned(s, [], 0, 0)
  {
    assert s[0..0] == s[..0] == [];
  }

  lemma ScanOn(s: Bytes, parts: seq<Bytes>, start: nat, i: nat)
    requires Scanned(s, parts, start, i) && i < |s| && Depth(s[..i + 1]) >= 0
    requires s[i] == COLON ==> Depth(s[..i]) > 0
    ensures Scanned(s, parts, start, i + 1)
  {
    hide Depth, Balanced, Shielded, Joined;
    DepthFrom(s, start, i);
  }

  lemma ScanCut(s: Bytes, parts: seq<Bytes>, start: nat, i: nat)
    requires Scanned(s, parts, start, i) && i < |s| && s[i] == COLON && Depth(s[..i]) == 0
    ensures Scanned(s, parts + [s[start..i]], i + 1, i + 1)
  {
    hide Balanced, Shielded, Depth, Joined;
    CutPart(s, start, i);
    DepthStep(s, i);
    JoinedSnoc(parts, s[start..i]);
    assert s[..i + 1] == s[..start] + s[start..i] + [COLON];
    assert s[i + 1..i + 1] == [];
    NoDepth();
  }

  lemma NoDepth()
    ensures Depth([]) == 0
  {
  }

  lemma DepthStep(s: Bytes, i: nat)
    requires i < |s|
    ensures Depth(s[..i + 1]) == Depth(s[..i]) + (if s[i] == OPEN then 1 else if s[i] == CLOSE then -1 else 0)
  {
    assert s[..i + 1][..i] == s[..i];
  }

  lemma ScanEnd(s: Bytes, parts: seq<Bytes>, start: nat)
    requires Scanned(s, parts, start, |s|) && Depth(s) == 0
    ensures Balanced(s) && IsCut(s, parts + [s[start..]])
  {
    hide Shielded, Depth, Joined;
    assert s[..|s|] == s;
    assert s[start..|s|] == s[start..];
    CutPart(s, start, |s|);
    JoinedSnoc(parts, s[start..]);
    assert s == s[..start] + s[start..];
  }

  /** `split_tunnel_request`: refuses exactly the unbalanced specs, and cuts the others at their outer
      colons. */
  method SplitRequest(s: Bytes) returns (r: Option<seq<Bytes>>)
    ensures r.None? <==> !Balanced(s)
    ensures r.Some? ==> IsCut(s, r.value)
  {
    hide Scanned, Depth, IsCut;
    var parts: seq<Bytes> := [];
    var depth: int := 0;
    var start := 0;
    ScanStart(s);
    NoDepth();
    for i := 0 to |s|
      invariant 0 <= start <= i && depth == Depth(s[..i]) && Scanned(s, parts, start, i)
    {
      var c := s[i];
      DepthStep(s, i);
      ScanDepth(s, parts, start, i);
      if c == OPEN {
        depth := depth + 1;
        ScanOn(s, parts, start, i);
      } else if c == CLOSE {
        depth := depth - 1;
        if depth < 0 {
          return None;
        }
        ScanOn(s, parts, start, i);
      } else if c == COLON && depth == 0 {
        ScanCut(s, parts, start, i);
        parts := parts + [s[start..i]];
        start := i + 1;
      } else {
        ScanOn(s, parts, start, i);
      }
    }
    assert s[..|s|] == s;
    if depth != 0 {
      return None;
    }
    ScanEnd(s, parts, start);
    r := Some(parts + [s[start..]]);
  }

  lemma ScanDepth(s: Bytes, parts: seq<Bytes>, start: nat, i: nat)
    requires Scanned(s, parts, start, i)
    ensures Depth(s[..i]) >= 0
  {
  }

  lemma DepthFrom(s: Bytes, start: nat, i: nat)
    requires start <= i < |s| && Depth(s[start..i]) == Depth(s[..i])
    ensures Depth(s[start..i + 1]) == Depth(s[..i + 1])
  {
    assert s[start..i + 1][..i - start] == s[start..i] && s[..i + 1][..i] == s[..i];
  }

  /** A stretch that follows the running depth and ends at zero is a part. */
  lemma CutPart(s: Bytes, start: nat, i: nat)
    requires start <= i <= |s| && Depth(s[..i]) == 0
    requires forall j :: start <= j <= i ==> Depth(s[start..j]) == Depth(s[..j]) >= 0
    requires forall j :: start <= j < i && s[j] == COLON ==> Depth(s[..j]) > 0
    ensures Balanced(s[start..i]) && Shielded(s[start..i])
  {
    var p := s[start..i];
    forall j | 0 <= j <= |p| ensures Depth(p[..j]) == Depth(s[..start + j]) >= 0 {
      assert p[..j] == s[start..start + j];
    }
    assert p[..|p|] == p;
  }

  lemma FirstPart(s: Bytes, parts: seq<Bytes>)
    requires IsCut(s, parts)
    ensures parts[0] <= s
    ensures if |parts| == 1 then s == parts[0]
            else |s| > |parts[0]| && s[|parts[0]|] == COLON && IsCut(s[|parts[0]| + 1..], parts[1..])
  {
    hide Balanced, Shielded;
    if |parts| > 1 {
      assert s == parts[0] + [COLON] + Joined(parts[1..]);
      assert s[|parts[0]| + 1..] == Joined(parts[1..]);
    }
  }

  lemma NotLonger(s: Bytes, parts: seq<Bytes>, parts': seq<Bytes>)
    requires IsCut(s, parts) && IsCut(s, parts')
    ensures |parts'[0]| <= |parts[0]|
  {
    FirstPart(s, parts);
    FirstPart(s, parts');
    if |parts[0]| < |parts'[0]| {
      OuterColon(s, parts[0], parts'[0]);
      assert false;
    }
  }

  lemma OuterColon(s: Bytes, p: Bytes, q: Bytes)
    requires p <= s && q <= s && |p| < |q| && s[|p|] == COLON && Depth(p) == 0
    ensures !Shielded(q)
  {
    assert q[..|p|] == s[..|p|] == p && q[|p|] == COLON;
  }

  /** There is one way to cut a spec. */
  lemma {:induction false} CutUnique(s: Bytes, parts: seq<Bytes>, parts': seq<Bytes>)
    requires IsCut(s, parts) && IsCut(s, parts')
    ensures parts == parts'
    decreases |parts|
  {
    NotLonger(s, parts, parts');
    NotLonger(s, parts', parts);
    FirstPart(s, parts);
    FirstPart(s, parts');
    hide IsCut;
    assert parts[0] == s[..|parts[0]|] == parts'[0];
    assert |parts| == 1 <==> |parts'| == 1;
    if |parts| > 1 {
      CutUnique(s[|parts[0]| + 1..], parts[1..], parts'[1..]);
      assert parts == [parts[0]] + parts[1..] && parts' == [parts'[0]] + parts'[1..];
    }
  }

  function StripBrackets(s: Bytes): Bytes {
    if |s| >= 2 && s[0] == OPEN && s[|s|-1] == CLOSE then s[1..|s|-1] else s
  }

  const LOCALHOST: Bytes := [49, 50, 55, 46, 48, 46, 48, 46, 49] // "127.0.0.1"

  /** Listen and target address of a spec cut in three or four. */
  function FromParts(parts: seq<Bytes>): Option<(Bytes, Bytes)> {
    if |parts| == 3 then Some((Join(LOCALHOST, parts[0]), Join(StripBrackets(parts[1]), parts[2])))
    else if |parts| == 4 then
      var host := StripBrackets(parts[0]);
      Some((Join(if host == [] then LOCALHOST else host, parts[1]), Join(StripBrackets(parts[2]), parts[3])))
    else None
  }

  /** `parse_tunnel_request`. */
  method ParseRequest(spec: Bytes) returns (r: Option<(Bytes, Bytes)>)
    ensures !Balanced(spec) ==> r == None
    ensures forall parts :: IsCut(spec, parts) ==> r == FromParts(parts)
  {
    hide IsCut, FromParts;
    var cut := SplitRequest(spec);
    if cut.None? {
      forall parts | IsCut(spec, parts) ensures false { CutIsBalanced(spec, parts); }
      return None;
    }
    r := FromParts(cut.value);
    forall parts | IsCut(spec, parts) ensures r == FromParts(parts) { CutUnique(spec, parts, cut.value); }
  }

  lemma {:induction false} CutIsBalanced(s: Bytes, parts: seq<Bytes>)
    requires IsCut(s, parts)
    ensures Balanced(s)
    decreases |parts|
  {
    FirstPart(s, parts);
    var n := |parts[0]|;
    if |parts| > 1 {
      var rest := s[n + 1..];
      CutIsBalanced(rest, parts[1..]);
      hide IsCut;
      assert s == parts[0] + [COLON] + rest;
      forall i | 0 <= i <= |s| ensures Depth(s[..i]) >= 0 && (i == |s| ==> Depth(s[..i]) == 0) {
        if i <= n {
          assert s[..i] == parts[0][..i];
        } else {
          assert s[..i] == parts[0] + ([COLON] + rest[..i - n - 1]);
          DepthConcat(parts[0], [COLON] + rest[..i - n - 1]);
          DepthConcat([COLON], rest[..i - n - 1]);
          ColonDepth();
          assert i == |s| ==> rest[..i - n - 1] == rest;
        }
      }
      assert s[..|s|] == s;
    }
  }

  lemma ColonDepth()
    ensures Depth([COLON]) == 0
  {
    assert [COLON][..0] == [];
  }

  // ---- specs made of addresses ----

  lemma {:induction false} BareDepth(b: Bytes)
    requires Bare(b)
    ensures Depth(b) == 0
  {
    if b != [] { BareDepth(b[..|b|-1]); }
  }

  lemma BarePart(b: Bytes)
    requires Bare(b) && COLON !in b
    ensures Balanced(b) && Shielded(b)
  {
    forall i | 0 <= i <= |b| ensures Depth(b[..i]) == 0 { BareDepth(b[..i]); }
    assert b[..|b|] == b;
  }

  lemma OpenDepth(b: Bytes)
    requires Bare(b)
    ensures Depth([OPEN] + b) == 1
  {
    DepthConcat([OPEN], b);
    BareDepth(b);
    assert [OPEN][..0] == [];
  }

  lemma BracketPart(b: Bytes)
    requires Bare(b)
    ensures Balanced([OPEN] + b + [CLOSE]) && Shielded([OPEN] + b + [CLOSE])
  {
    var s := [OPEN] + b + [CLOSE];
    forall i | 0 <= i <= |s| ensures Depth(s[..i]) == if i == 0 || i == |s| then 0 else 1 {
      if 0 < i < |s| {
        assert s[..i] == [OPEN] + b[..i - 1];
        OpenDepth(b[..i - 1]);
      } else if i == |s| {
        OpenDepth(b);
        assert s[..i][..i - 1] == [OPEN] + b;
      }
    }
    assert s[..|s|] == s;
  }

  function Wrapped(host: Bytes): Bytes { if COLON in host then [OPEN] + host + [CLOSE] else host }

  lemma WrappedPart(host: Bytes)
    requires Bare(host)
    ensures Balanced(Wrapped(host)) && Shielded(Wrapped(host)) && StripBrackets(Wrapped(host)) == host
  {
    if COLON in host { BracketPart(host); } else { BarePart(host); }
  }

  predicate IsEndpoint(host: Bytes, port: Bytes) { Bare(host) && Bare(port) && COLON !in port }

  /** A four-part spec written as two joined addresses is parsed to exactly those two, when the listen
      host is not empty; an empty one becomes the local host. */
  lemma SpecRoundTrip(h: Bytes, p: Bytes, h': Bytes, p': Bytes)
    requires IsEndpoint(h, p) && IsEndpoint(h', p')
    ensures var parts := [Wrapped(h), p, Wrapped(h'), p'];
            && IsCut(Join(h, p) + [COLON] + Join(h', p'), parts)
            && FromParts(parts) == Some((Join(if h == [] then LOCALHOST else h, p), Join(h', p')))
  {
    hide Balanced, Shielded, Joined;
    WrappedPart(h);
    WrappedPart(h');
    BarePart(p);
    BarePart(p');
    Joined4(Wrapped(h), p, Wrapped(h'), p');
    JoinWrapped(h, p);
    JoinWrapped(h', p');
  }

  /** A three-part spec listens on the local host; a cut into fewer or more parts is none. */
  lemma ShortSpecRoundTrip(p: Bytes, h: Bytes, p': Bytes)
    requires Bare(p) && COLON !in p && IsEndpoint(h, p')
    ensures var parts := [p, Wrapped(h), p'];
            && IsCut(p + [COLON] + Join(h, p'), parts)
            && FromParts(parts) == Some((Join(LOCALHOST, p), Join(h, p')))
    ensures forall parts :: FromParts(parts).Some? <==> |parts| == 3 || |parts| == 4
  {
    hide Balanced, Shielded, Joined;
    WrappedPart(h);
    BarePart(p);
    BarePart(p');
    Joined3(p, Wrapped(h), p');
    JoinWrapped(h, p');
  }

  lemma Joined3(a: Bytes, b: Bytes, c: Bytes)
    ensures Joined([a, b, c]) == a + [COLON] + (b + [COLON] + c)
  {
    var parts := [a, b, c];
    assert parts[1..] == [b, c] && [b, c][1..] == [c];
    assert Joined([c]) == c && Joined([b, c]) == b + [COLON] + c;
  }

  lemma Joined4(a: Bytes, b: Bytes, c: Bytes, d: Bytes)
    ensures Joined([a, b, c, d]) == a + [COLON] + b + [COLON] + (c + [COLON] + d)
  {
    var parts := [a, b, c, d];
    assert parts[1..] == [b, c, d] && [b, c, d][1..] == [c, d] && [c, d][1..] == [d];
    assert Joined([d]) == d && Joined([c, d]) == c + [COLON] + d;
    assert Joined([b, c, d]) == b + [COLON] + (c + [COLON] + d);
    assert Joined(parts) == a + [COLON] + (b + [COLON] + (c + [COLON] + d));
  }

  lemma JoinWrapped(host: Bytes, port: Bytes)
    ensures Join(host, port) == Wrapped(host) + [COLON] + port
  {
    assert [OPEN] + host + [CLOSE, COLON] + port == [OPEN] + host + [CLOSE] + [COLON] + port;
  }
}
