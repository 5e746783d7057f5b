/** Shell-like splitting of a command line on blanks, with single and double quotes. */
module SplitCommand {
  import opened Net
  import opened Texts

  const SQ: Byte := 39
  const DQ: Byte := 34

  predicate Blank(c: Byte) { c == 32 || c == 9 }

  // ---- quoting ----

  datatype Mode = Out | Single | Double

  function Next(m: Mode, c: Byte): Mode {
    match m
    case Single => if c == SQ then Out else Single
    case Double => if c == DQ then Out else Double
    case Out => if c == SQ then Single else if c == DQ then Double else Out
  }

  /** The quotes open after a text. */
  function ModeOf(s: Bytes): Mode { if s == [] then Out else Next(ModeOf(s[..|s|-1]), s[|s|-1]) }

  /** A byte that is syntax where it stands: a delimiting quote, or a blank outside quotes. */
  predicate IsSyntax(m: Mode, c: Byte) {
    match m
    case Single => c == SQ
    case Double => c == DQ
    case Out => c == SQ || c == DQ || Blank(c)
  }

  /** The text without its syntax. */
  function Kept(s: Bytes): Bytes {
    if s == [] then []
    else Kept(s[..|s|-1]) + if IsSyntax(ModeOf(s[..|s|-1]), s[|s|-1]) then [] else [s[|s|-1]]
  }

  // ---- the scanner ----

  datatype Scanner = Scanner(args: seq<Bytes>, current: Bytes, started: bool, mode: Mode)

  const FRESH: Scanner := Scanner([], [], false, Out)

  function Feed(x: Scanner, c: Byte): Scanner {
    match x.mode
    case Single => if c == SQ then x.(mode := Out) else x.(current := x.current + [c])
    case Double => if c == DQ then x.(mode := Out) else x.(current := x.current + [c])
    case Out =>
      if c == SQ then x.(mode := Single, started := true)
      else if c == DQ then x.(mode := Double, started := true)
      else if Blank(c) then (if x.started then Scanner(x.args + [x.current], [], false, Out) else x)
      else x.(current := x.current + [c], started := true)
  }

  function FeedAll(x: Scanner, s: Bytes): Scanner {
    if s == [] then x else Feed(FeedAll(x, s[..|s|-1]), s[|s|-1])
  }

  function Args(x: Scanner): seq<Bytes> { if x.started then x.args + [x.current] else x.args }

  function Split(s: Bytes): Option<seq<Bytes>> {
    var x := FeedAll(FRESH, s);
    if x.mode != Out then None else Some(Args(x))
  }

  /** `split_command`. */
  method Run(s: Bytes) returns (r: Option<seq<Bytes>>)
    ensures r == Split(s)
  {
    var args: seq<Bytes> := [];
    var current: Bytes := [];
    var started, inSingle, inDouble := false, false, false;
    for i := 0 to |s|
      invariant !(inSingle && inDouble)
      invariant FeedAll(FRESH, s[..i])
                == Scanner(args, current, started, if inSingle then Single else if inDouble then Double else Out)
    {
      var c := s[i];
      assert s[..i + 1][..i] == s[..i];
      if inSingle {
        if c == SQ { inSingle := false; } else { current := current + [c]; }
        continue;
      }
      if inDouble {
        if c == DQ { inDouble := false; } else { current := current + [c]; }
        continue;
      }
      if c == SQ {
        inSingle, started := true, true;
      } else if c == DQ {
        inDouble, started := true, true;
      } else if Blank(c) {
        if started {
          args, current, started := args + [current], [], false;
        }
      } else {
        current, started := current + [c], true;
      }
    }
    assert s[..|s|] == s;
    if inSingle || inDouble {
      return None;
    }
    r := Some(if started then args + [current] else args);
  }

  // ---- laws ----

  lemma {:induction false} FeedConcat(x: Scanner, a: Bytes, b: Bytes)
    ensures FeedAll(x, a + b) == FeedAll(FeedAll(x, a), b)
  {
    if b == [] {
      assert a + b == a;
    } else {
      var n := |b| - 1;
      assert (a + b)[..|a + b| - 1] == a + b[..n];
      FeedConcat(x, a, b[..n]);
    }
  }

  /** The bytes a scanner holds. */
  function Held(x: Scanner): Bytes { Flat(x.args) + x.current }

  lemma FeedHolds(x: Scanner, c: Byte)
    requires !x.started ==> x.current == [] && x.mode == Out
    ensures var y := Feed(x, c);
            && y.mode == Next(x.mode, c) && (!y.started ==> y.current == [] && y.mode == Out)
            && Held(y) == Held(x) + if IsSyntax(x.mode, c) then [] else [c]
  {
    hide Flat;
    FlatSnoc(x.args, x.current);
    assert Flat(x.args) + (x.current + [c]) == Held(x) + [c];
    assert Held(x) + [] == Held(x);
    assert Held(x.(current := x.current + [c])) == Held(x) + [c];
    assert Flat(x.args) + x.current + [] == Held(x);
  }

  lemma {:induction false} ScannerTracks(s: Bytes)
    ensures var x := FeedAll(FRESH, s);
            x.mode == ModeOf(s) && Held(x) == Kept(s) && (!x.started ==> x.current == [] && x.mode == Out)
  {
    hide Feed, Next, IsSyntax, Held;
    if s == [] {
      FreshHolds();
    } else {
      var n := |s| - 1;
      ScannerTracks(s[..n]);
      FeedHolds(FeedAll(FRESH, s[..n]), s[n]);
    }
  }

  lemma FreshHolds()
    ensures Held(FRESH) == []
  {
  }

  /** A command is refused exactly when it leaves a quote open. Otherwise its arguments, put together,
      are the text without delimiting quotes and outer blanks: no byte is lost, added or moved. */
  lemma SplitKeeps(s: Bytes)
    ensures Split(s).None? <==> ModeOf(s) != Out
    ensures Split(s).Some? ==> Flat(Split(s).value) == Kept(s)
  {
    ScannerTracks(s);
    var x := FeedAll(FRESH, s);
    FlatSnoc(x.args, x.current);
    assert Flat(x.args) + [] == Flat(x.args);
  }

  lemma {:induction false} FeedShift(before: seq<Bytes>, x: Scanner, t: Bytes)
    ensures FeedAll(x.(args := before + x.args), t) == FeedAll(x, t).(args := before + FeedAll(x, t).args)
  {
    if t != [] {
      FeedShift(before, x, t[..|t|-1]);
      var y := FeedAll(x, t[..|t|-1]);
      assert before + y.args + [y.current] == before + (y.args + [y.current]);
    }
  }

  /** A blank outside quotes separates: the arguments of the two sides follow each other. */
  lemma SplitAtBlank(s: Bytes, c: Byte, t: Bytes)
    requires ModeOf(s) == Out && Blank(c)
    ensures Split(s + [c] + t).None? <==> Split(t).None?
    ensures Split(s).Some?
    ensures Split(t).Some? ==> Split(s + [c] + t) == Some(Split(s).value + Split(t).value)
  {
    ScannerTracks(s);
    var x := FeedAll(FRESH, s);
    FeedConcat(FRESH, s + [c], t);
    assert (s + [c])[..|s|] == s;
    var y := FeedAll(FRESH, s + [c]);
    assert Args(x) + [] == Args(x);
    assert y == FRESH.(args := Args(x) + FRESH.args);
    FeedShift(Args(x), FRESH, t);
    var z := FeedAll(FRESH, t);
    assert Args(x) + z.args + [z.current] == Args(x) + (z.args + [z.current]);
  }

  lemma {:induction false} WordTracks(w: Bytes)
    requires w != [] && forall i :: 0 <= i < |w| && ModeOf(w[..i]) == Out ==> !Blank(w[i])
    ensures var x := FeedAll(FRESH, w); x.args == [] && x.started
  {
    var n := |w| - 1;
    assert ModeOf(w[..n]) == Out ==> !Blank(w[n]);
    ScannerTracks(w[..n]);
    if n > 0 {
      forall i | 0 <= i < n && ModeOf(w[..n][..i]) == Out ensures !Blank(w[..n][i]) {
        assert w[..n][..i] == w[..i];
      }
      WordTracks(w[..n]);
    } else {
      assert w[..n] == [];
    }
  }

  /** Text without a blank outside quotes is one argument, even if only quotes are in it. */
  lemma SplitWord(w: Bytes)
    requires w != [] && ModeOf(w) == Out && forall i :: 0 <= i < |w| && ModeOf(w[..i]) == Out ==> !Blank(w[i])
    ensures Split(w) == Some([Kept(w)])
  {
    WordTracks(w);
    ScannerTracks(w);
    var x := FeedAll(FRESH, w);
    assert Flat([]) + x.current == x.current;
    assert [] + [x.current] == [x.current];
  }

  // ---- a rendering for every argument list ----

  /** Quoted text: single quotes become `'"'"'`. */
  function Body(a: Bytes): Bytes {
    if a == [] then [] else Body(a[..|a|-1]) + if a[|a|-1] == SQ then [SQ, DQ, SQ, DQ, SQ] else [a[|a|-1]]
  }

  function Quote(a: Bytes): Bytes { [SQ] + Body(a) + [SQ] }

  function Render(args: seq<Bytes>): Bytes {
    if args == [] then []
    else if |args| == 1 then Quote(args[0])
    else Render(args[..|args|-1]) + [32] + Quote(args[|args|-1])
  }

  lemma FeedOne(x: Scanner, c: Byte)
    ensures FeedAll(x, [c]) == Feed(x, c)
  {
    assert [c][..0] == [];
  }

  lemma FeedQuoteByte(x: Scanner)
    requires x.mode == Single && x.started
    ensures FeedAll(x, [SQ, DQ, SQ, DQ, SQ]) == x.(current := x.current + [SQ])
  {
    var q := [SQ, DQ, SQ, DQ, SQ];
    assert q[..4] == [SQ, DQ, SQ, DQ] && q[..4][..3] == [SQ, DQ, SQ]
           && [SQ, DQ, SQ][..2] == [SQ, DQ] && [SQ, DQ][..1] == [SQ];
    FeedOne(x, SQ);
    assert FeedAll(x, [SQ, DQ]) == Feed(Feed(x, SQ), DQ);
    assert FeedAll(x, [SQ, DQ, SQ]) == x.(mode := Double, current := x.current + [SQ]);
    assert FeedAll(x, [SQ, DQ, SQ, DQ]) == x.(mode := Out, current := x.current + [SQ]);
  }

  lemma {:induction false} FeedBody(x: Scanner, a: Bytes)
    requires x.mode == Single && x.started
    ensures FeedAll(x, Body(a)) == x.(current := x.current + a)
  {
    if a == [] {
      assert x.current + a == x.current;
    } else {
      var n := |a| - 1;
      FeedBody(x, a[..n]);
      var y := FeedAll(x, Body(a[..n]));
      FeedConcat(x, Body(a[..n]), if a[n] == SQ then [SQ, DQ, SQ, DQ, SQ] else [a[n]]);
      if a[n] == SQ { FeedQuoteByte(y); } else { FeedOne(y, a[n]); }
      assert x.current + a[..n] + [a[n]] == x.current + a;
    }
  }

  lemma FeedQuote(x: Scanner, a: Bytes)
    requires x.mode == Out && x.current == []
    ensures FeedAll(x, Quote(a)) == Scanner(x.args, a, true, Out)
  {
    var y := Feed(x, SQ);
    FeedConcat(x, [SQ] + Body(a), [SQ]);
    FeedConcat(x, [SQ], Body(a));
    FeedOne(x, SQ);
    FeedBody(y, a);
    assert [] + a == a;
    FeedOne(FeedAll(x, [SQ] + Body(a)), SQ);
  }

  lemma {:induction false} RenderFeeds(args: seq<Bytes>)
    requires args != []
    ensures FeedAll(FRESH, Render(args)) == Scanner(args[..|args|-1], args[|args|-1], true, Out)
  {
    var n := |args| - 1;
    if n == 0 {
      FeedQuote(FRESH, args[0]);
    } else {
      var init := args[..n];
      RenderFeeds(init);
      var x := FeedAll(FRESH, Render(init));
      FeedConcat(FRESH, Render(init) + [32], Quote(args[n]));
      FeedConcat(FRESH, Render(init), [32]);
      FeedOne(x, 32);
      assert init[..n - 1] + [init[n - 1]] == init;
      FeedQuote(Feed(x, 32), args[n]);
    }
  }

  /** Every list of byte strings can be written so that it is split into exactly that list. */
  lemma RenderRoundTrip(args: seq<Bytes>)
    ensures Split(Render(args)) == Some(args)
  {
    if args == [] {
      assert Args(FRESH) == [];
    } else {
      RenderFeeds(args);
      assert args[..|args|-1] + [args[|args|-1]] == args;
    }
  }
}
