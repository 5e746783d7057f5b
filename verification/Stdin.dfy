/** Standard input read on a thread of its own and handed over through a bounded channel. */
module Stdin {
  import opened Net
  import opened Texts

  const CHUNK: nat := 8192
  const CAPACITY: nat := 8

  /** What the reader thread sends: bytes (none at the end of input) or a read error. */
  datatype Item = Chunk(data: Bytes) | Failure

  predicate Ends(i: Item) { i == Failure || i.data == [] }

  function Data(i: Item): Bytes { if i.Chunk? then i.data else [] }

  function Queued(queue: seq<Item>): Bytes { if queue == [] then [] else Data(queue[0]) + Queued(queue[1..]) }

  function Left(pending: Option<Bytes>): Bytes { if pending.Some? then pending.value else [] }

  lemma {:induction false} QueuedSnoc(queue: seq<Item>, i: Item)
    ensures Queued(queue + [i]) == Queued(queue) + Data(i)
  {
    hide Data;
    if queue == [] {
      assert (queue + [i])[1..] == [];
      assert Queued(queue + [i]) == Data(i) + [];
    } else {
      QueuedSnoc(queue[1..], i);
      assert (queue + [i])[1..] == queue[1..] + [i];
      assert Data(queue[0]) + (Queued(queue[1..]) + Data(i)) == Data(queue[0]) + Queued(queue[1..]) + Data(i);
    }
  }

  lemma Handed(d: Bytes, p: Bytes, n: nat, rest: Bytes)
    requires n <= |p|
    ensures d + p + rest == d + p[..n] + p[n..] + rest
  {
    assert p == p[..n] + p[n..];
    assert d + (p[..n] + p[n..]) == d + p[..n] + p[n..];
  }

  datatype Poll = Ready(data: Bytes) | Wait | Error

  // ---- the hand-over as a machine ----

  /** The channel, whether the thread has sent its last word, whether it has then dropped its end, what was left
      over, and whether the end of input was seen. */
  datatype Hand = Hand(queue: seq<Item>, stopped: bool, closed: bool, pending: Option<Bytes>, eof: bool)

  const EMPTY: Hand := Hand([], false, false, None, false)

  predicate CanSend(x: Hand) { !x.stopped && |x.queue| < CAPACITY }

  function Min(a: nat, b: nat): nat { if a <= b then a else b }

  /** Hands over as much of `p` as there is room for and keeps the rest. */
  function Cut(x: Hand, p: Bytes, room: nat): (Hand, Poll) {
    var n := Min(|p|, room);
    (x.(pending := if n < |p| then Some(p[n..]) else None), Ready(p[..n]))
  }

  /** A poll with `room` bytes left in the caller's buffer. */
  function Polled(x: Hand, room: nat): (Hand, Poll) {
    if Left(x.pending) != [] then Cut(x, Left(x.pending), room)
    else
      var y := x.(pending := None);
      if y.eof then (y, Ready([]))
      else if y.queue == [] then (if y.closed then (y.(eof := true), Ready([])) else (y, Wait))
      else
        var z := y.(queue := y.queue[1..]);
        match y.queue[0]
        case Failure => (z, Error)
        case Chunk(data) => if data == [] then (z.(eof := true), Ready([])) else Cut(z, data, room)
  }

  datatype Turn = Sends(data: Bytes) | Stops(failed: bool) | HangsUp | Polls(room: nat)

  /** The state after some turns, the polls made and what they had room for, and the bytes read. */
  datatype Log = Log(hand: Hand, polls: seq<Poll>, rooms: seq<nat>, read: Bytes)

  /** The thread sends what it read, or its last word, when the channel has room, and else waits; after its last
      word it hangs up. */
  function Turned(l: Log, t: Turn): Log {
    match t
    case Sends(data) =>
      if CanSend(l.hand) && 0 < |data| <= CHUNK
      then l.(hand := l.hand.(queue := l.hand.queue + [Chunk(data)]), read := l.read + data) else l
    case Stops(failed) =>
      if CanSend(l.hand)
      then l.(hand := l.hand.(queue := l.hand.queue + [if failed then Failure else Chunk([])], stopped := true)) else l
    case HangsUp => if l.hand.stopped then l.(hand := l.hand.(closed := true)) else l
    case Polls(room) =>
      var (hand, r) := Polled(l.hand, room);
      l.(hand := hand, polls := l.polls + [r], rooms := l.rooms + [room])
  }

  function Run(turns: seq<Turn>): Log {
    if turns == [] then Log(EMPTY, [], [], []) else Turned(Run(turns[..|turns|-1]), turns[|turns|-1])
  }

  /** What the caller asked for, and what the thread was let to send, read off the turns. */
  function RoomsOf(turns: seq<Turn>): seq<nat> {
    if turns == [] then []
    else
      var t := turns[|turns|-1];
      if t.Polls? then RoomsOf(turns[..|turns|-1]) + [t.room] else RoomsOf(turns[..|turns|-1])
  }

  function Accepted(turns: seq<Turn>): seq<Bytes> {
    if turns == [] then []
    else
      var init, t := turns[..|turns|-1], turns[|turns|-1];
      if t.Sends? && CanSend(Run(init).hand) && 0 < |t.data| <= CHUNK then Accepted(init) + [t.data] else Accepted(init)
  }

  /** Everything the polls returned. */
  function Output(polls: seq<Poll>): Bytes {
    if polls == [] then [] else Output(polls[..|polls|-1]) + Given(polls[|polls|-1])
  }

  function Given(r: Poll): Bytes { if r.Ready? then r.data else [] }

  lemma OutputSnoc(polls: seq<Poll>, r: Poll)
    ensures Output(polls + [r]) == Output(polls) + Given(r)
  {
    assert (polls + [r])[..|polls|] == polls;
  }

  // ---- conservation ----

  /** The thread's last word is the last item, and once the end is seen nothing is left. */
  ghost predicate Orderly(x: Hand) {
    && |x.queue| <= CAPACITY
    && (forall i :: 0 <= i < |x.queue| && Ends(x.queue[i]) ==> i == |x.queue| - 1 && x.stopped)
    && (x.closed ==> x.stopped)
    && (x.eof ==> x.stopped && x.queue == [] && Left(x.pending) == [])
  }

  function Kept(x: Hand): Bytes { Left(x.pending) + Queued(x.queue) }

  lemma CutKeeps(x: Hand, p: Bytes, room: nat)
    requires Orderly(x) && !x.eof && p != []
    ensures var (y, r) := Cut(x, p, room);
            && Orderly(y) && y.stopped == x.stopped && !y.eof
            && Given(r) + Kept(y) == p + Queued(x.queue) && r.Ready? && |r.data| <= room && (r.data == [] ==> room == 0)
  {
    hide Queued, Ends;
    Handed([], p, Min(|p|, room), Queued(x.queue));
  }

  /** A poll keeps order, moves bytes from what is kept to the caller, and returns nothing with room to
      spare only when nothing is kept and nothing more can come. */
  lemma PollKeeps(x: Hand, room: nat)
    requires Orderly(x)
    ensures var (y, r) := Polled(x, room);
            && Orderly(y) && y.stopped == x.stopped && Given(r) + Kept(y) == Kept(x)
            && (r.Ready? ==> |r.data| <= room)
            && (r == Ready([]) && room > 0 ==> y.eof && Kept(y) == [])
            && (x.eof ==> y.eof && r == Ready([]))
            && (r.Wait? <==> !x.eof && !x.closed && Kept(x) == [] && x.queue == [])
  {
    if Left(x.pending) != [] {
      CutKeeps(x, Left(x.pending), room);
    } else if !x.eof && x.queue != [] {
      var z := x.(pending := None, queue := x.queue[1..]);
      NextItem(x.queue);
      if x.queue[0].Chunk? && x.queue[0].data != [] { CutKeeps(z, x.queue[0].data, room); }
    }
  }

  lemma NextItem(queue: seq<Item>)
    requires queue != []
    ensures Queued(queue) == Data(queue[0]) + Queued(queue[1..])
  {
  }

  lemma SendKeeps(x: Hand, i: Item)
    requires Orderly(x) && CanSend(x)
    ensures var y := x.(queue := x.queue + [i], stopped := Ends(i)); Orderly(y) && Kept(y) == Kept(x) + Data(i)
  {
    QueuedSnoc(x.queue, i);
    assert Left(x.pending) + (Queued(x.queue) + Data(i)) == Kept(x) + Data(i);
  }

  lemma HangUpKeeps(x: Hand)
    requires Orderly(x) && x.stopped
    ensures Orderly(x.(closed := true)) && Kept(x.(closed := true)) == Kept(x)
  {
  }

  /** For every interleaving and all buffer sizes: there is one result per poll, in order; the bytes read are
      those of the accepted sends; and delivered, left-over and queued bytes are the bytes read. */
  lemma {:induction false} Conserved(turns: seq<Turn>)
    ensures var l := Run(turns);
            && Orderly(l.hand) && |l.polls| == |l.rooms| && l.rooms == RoomsOf(turns)
            && l.read == Flat(Accepted(turns)) && Output(l.polls) + Kept(l.hand) == l.read
  {
    hide Turned, Orderly, Kept, Output, Flat;
    if turns == [] {
      StartConserves();
    } else {
      var init, t := turns[..|turns|-1], turns[|turns|-1];
      Conserved(init);
      TurnConserves(Run(init), t);
      TurnRecords(Run(init), t);
      if t.Sends? { FlatSnoc(Accepted(init), t.data); }
    }
  }

  lemma StartConserves()
    ensures Orderly(EMPTY) && Kept(EMPTY) == [] && Output([]) == [] && Flat([]) == []
  {
  }

  /** What one turn adds to the record. */
  lemma TurnRecords(l: Log, t: Turn)
    ensures var m := Turned(l, t);
            && |m.polls| - |l.polls| == |m.rooms| - |l.rooms|
            && m.rooms == (if t.Polls? then l.rooms + [t.room] else l.rooms)
            && m.read == (if t.Sends? && CanSend(l.hand) && 0 < |t.data| <= CHUNK then l.read + t.data else l.read)
  {
    hide Polled;
  }

  lemma TurnConserves(l: Log, t: Turn)
    requires Orderly(l.hand) && Output(l.polls) + Kept(l.hand) == l.read
    ensures var m := Turned(l, t); Orderly(m.hand) && Output(m.polls) + Kept(m.hand) == m.read
  {
    hide Polled, Orderly, Kept, Output, Queued, Left;
    match t
    case Sends(data) =>
      if CanSend(l.hand) && 0 < |data| {
        SendKeeps(l.hand, Chunk(data));
        assert Output(l.polls) + (Kept(l.hand) + data) == l.read + data;
      }
    case Stops(failed) =>
      var last := if failed then Failure else Chunk([]);
      if CanSend(l.hand) { SendKeeps(l.hand, last); }
      assert Kept(l.hand) + [] == Kept(l.hand);
    case HangsUp => if l.hand.stopped { HangUpKeeps(l.hand); }
    case Polls(room) =>
      var (y, r) := Polled(l.hand, room);
      PollKeeps(l.hand, room);
      OutputSnoc(l.polls, r);
      assert Output(l.polls) + Given(r) + Kept(y) == Output(l.polls) + (Given(r) + Kept(y));
  }

  // ---- the end ----

  /** Poll `i` had room and succeeded empty-handed. */
  predicate Drained(polls: seq<Poll>, rooms: seq<nat>, i: nat)
    requires i < |polls| == |rooms|
  {
    polls[i] == Ready([]) && rooms[i] > 0
  }

  /** Whoever polled with room and got nothing had everything, and so has everyone after. */
  ghost predicate Faithful(polls: seq<Poll>, rooms: seq<nat>, eof: bool, read: Bytes) {
    && |polls| == |rooms|
    && forall i :: 0 <= i < |polls| && Drained(polls, rooms, i) ==>
         eof && Output(polls[..i]) == read && forall j :: i <= j < |polls| ==> polls[j] == Ready([])
  }

  lemma FaithfulSnoc(polls: seq<Poll>, rooms: seq<nat>, r: Poll, room: nat, eof: bool, eof': bool, read: Bytes)
    requires Faithful(polls, rooms, eof, read) && (eof ==> eof' && r == Ready([]))
    requires r == Ready([]) && room > 0 ==> eof' && Output(polls) == read
    ensures Faithful(polls + [r], rooms + [room], eof', read)
  {
    hide Output;
    var polls', rooms' := polls + [r], rooms + [room];
    forall i | 0 <= i < |polls'| && Drained(polls', rooms', i)
      ensures eof' && Output(polls'[..i]) == read && forall j :: i <= j < |polls'| ==> polls'[j] == Ready([])
    {
      if i < |polls| {
        assert polls'[..i] == polls[..i] && Drained(polls, rooms, i);
      } else {
        assert polls'[..i] == polls;
      }
    }
  }

  lemma {:induction false} RunFaithful(turns: seq<Turn>)
    ensures var l := Run(turns); Faithful(l.polls, l.rooms, l.hand.eof, l.read)
  {
    if turns != [] {
      hide Polled, Orderly, Kept, Output, Faithful, Queued, Left;
      var init, t := turns[..|turns|-1], turns[|turns|-1];
      RunFaithful(init);
      Conserved(init);
      var l := Run(init);
      TurnFaithful(l, t);
    }
  }

  lemma TurnFaithful(l: Log, t: Turn)
    requires Orderly(l.hand) && Output(l.polls) + Kept(l.hand) == l.read
             && Faithful(l.polls, l.rooms, l.hand.eof, l.read)
    ensures var m := Turned(l, t); Faithful(m.polls, m.rooms, m.hand.eof, m.read)
  {
    hide Polled, Kept, Output, Queued, Left;
    match t
    case Sends(data) =>
    case Stops(failed) =>
    case HangsUp =>
    case Polls(room) =>
      hide Faithful;
      var (y, r) := Polled(l.hand, room);
      PollKeeps(l.hand, room);
      assert r == Ready([]) ==> Kept(l.hand) == Kept(y);
      FaithfulSnoc(l.polls, l.rooms, r, room, l.hand.eof, y.eof, l.read);
  }

  /** A poll that had room and succeeded empty-handed comes after all there will ever be to read has been
      delivered, and every later poll is like it. */
  lemma EmptyMeansAll(turns: seq<Turn>, i: nat)
    requires i < |Run(turns).polls| == |Run(turns).rooms| && Drained(Run(turns).polls, Run(turns).rooms, i)
    ensures var l := Run(turns);
            Output(l.polls[..i]) == l.read && forall j :: i <= j < |l.polls| ==> l.polls[j] == Ready([])
  {
    hide Output;
    RunFaithful(turns);
  }

  // ---- a read error ----

  /** The thread's last word was an error, and it got through. */
  predicate Failed(turns: seq<Turn>) {
    turns != [] &&
    var init := turns[..|turns|-1];
    (Failed(init) || (turns[|turns|-1] == Stops(true) && CanSend(Run(init).hand)))
  }

  function Errors(polls: seq<Poll>): nat {
    if polls == [] then 0 else Errors(polls[..|polls|-1]) + if polls[|polls|-1].Error? then 1 else 0
  }

  lemma ErrorsSnoc(polls: seq<Poll>, r: Poll)
    ensures Errors(polls + [r]) == Errors(polls) + if r.Error? then 1 else 0
  {
    assert (polls + [r])[..|polls|] == polls;
  }

  /** A poll reports the error when it is all there is left, and then it is gone from the channel; one that finds the
      end of input leaves no error behind. */
  lemma PollErrs(x: Hand, room: nat)
    requires Orderly(x)
    ensures var (y, r) := Polled(x, room);
            && (r.Error? <==> Left(x.pending) == [] && !x.eof && x.queue == [Failure])
            && (r.Error? ==> Kept(x) == [] && y.queue == [])
            && (!r.Error? ==> (Failure in y.queue <==> Failure in x.queue))
  {
    if x.queue != [] {
      NextItem(x.queue);
      assert x.queue == [x.queue[0]] + x.queue[1..];
      if x.queue[0] == Failure { assert x.queue == [Failure]; }
    }
  }

  /** The error is on its way or has been reported, once, after every byte; no end of input is reported before it. */
  ghost predicate Reported(l: Log, failed: bool) {
    && |l.polls| == |l.rooms| && (failed ==> l.hand.stopped)
    && Errors(l.polls) + (if Failure in l.hand.queue then 1 else 0) == (if failed then 1 else 0)
    && (forall i :: 0 <= i < |l.polls| && l.polls[i].Error? ==> Output(l.polls[..i]) == l.read && l.hand.stopped)
    && (forall i :: 0 <= i < |l.polls| && Drained(l.polls, l.rooms, i) ==>
          l.hand.stopped && Errors(l.polls[..i]) == if failed then 1 else 0)
  }

  lemma PollReports(l: Log, room: nat, failed: bool)
    requires Orderly(l.hand) && Output(l.polls) + Kept(l.hand) == l.read && Reported(l, failed)
    ensures Reported(Turned(l, Polls(room)), failed)
  {
    hide Polled, Kept, Output, Errors;
    var (y, r) := Polled(l.hand, room);
    var m := Turned(l, Polls(room));
    PollKeeps(l.hand, room);
    PollErrs(l.hand, room);
    ErrorsSnoc(l.polls, r);
    assert forall i :: 0 <= i <= |l.polls| ==> m.polls[..i] == l.polls[..i];
    assert l.polls[..|l.polls|] == l.polls;
    forall i | 0 <= i < |m.polls| && Drained(m.polls, m.rooms, i)
      ensures m.hand.stopped && Errors(m.polls[..i]) == if failed then 1 else 0
    {
      if i < |l.polls| { assert Drained(l.polls, l.rooms, i); }
    }
  }

  lemma OtherReports(l: Log, t: Turn, failed: bool)
    requires Orderly(l.hand) && Reported(l, failed) && !t.Polls?
    ensures Reported(Turned(l, t), failed || (t == Stops(true) && CanSend(l.hand)))
  {
    hide Output, Errors;
    match t
    case Sends(data) =>
    case Stops(_) =>
    case HangsUp =>
  }

  lemma {:induction false} RunReports(turns: seq<Turn>)
    ensures Reported(Run(turns), Failed(turns))
  {
    if turns != [] {
      hide Turned, Orderly, Kept, Output, Reported;
      var init, t := turns[..|turns|-1], turns[|turns|-1];
      RunReports(init);
      Conserved(init);
      if t.Polls? { PollReports(Run(init), t.room, Failed(init)); } else { OtherReports(Run(init), t, Failed(init)); }
    }
  }

  /** For every interleaving: a read error of the thread is reported exactly once, unless it still waits in the channel,
      and never without one; by then every byte there ever was has been delivered; and a poll that had room and
      succeeded empty-handed comes after it. */
  lemma FailureOnce(turns: seq<Turn>)
    ensures var l := Run(turns); var failed := Failed(turns);
            && |l.polls| == |l.rooms|
            && Errors(l.polls) == (if failed && Failure !in l.hand.queue then 1 else 0)
            && (forall i :: 0 <= i < |l.polls| && l.polls[i].Error? ==> failed && Output(l.polls[..i]) == l.read)
            && (forall i :: 0 <= i < |l.polls| && Drained(l.polls, l.rooms, i) && failed ==> Errors(l.polls[..i]) == 1)
  {
    hide Output;
    RunReports(turns);
    var l := Run(turns);
    forall i | 0 <= i < |l.polls| && l.polls[i].Error? ensures Failed(turns) { ErrorCounts(l.polls, i); }
  }

  lemma {:induction false} ErrorCounts(polls: seq<Poll>, i: nat)
    requires i < |polls| && polls[i].Error?
    ensures Errors(polls) >= 1
  {
    if i < |polls| - 1 { ErrorCounts(polls[..|polls|-1], i); }
  }

  // ---- the reader ----

  class StdinReader {
    var queue: seq<Item>
    var stopped: bool
    var closed: bool
    var pending: Option<Bytes>
    var eof: bool

    function View(): Hand
      reads this
    {
      Hand(queue, stopped, closed, pending, eof)
    }

    constructor ()
      ensures View() == EMPTY
    {
      queue, stopped, closed, pending, eof := [], false, false, None, false;
    }

    /** The thread has read some bytes; the channel has room for them. */
    method Send(data: Bytes)
      requires CanSend(View())
      modifies this
      ensures View() == old(View()).(queue := old(queue) + [Chunk(data)])
    {
      queue := queue + [Chunk(data)];
    }

    /** The thread has met the end of input, or an error, and says so. */
    method Stop(failed: bool)
      requires CanSend(View())
      modifies this
      ensures View() == old(View()).(queue := old(queue) + [if failed then Failure else Chunk([])], stopped := true)
    {
      queue := queue + [if failed then Failure else Chunk([])];
      stopped := true;
    }

    /** The thread is done and drops its end of the channel. */
    method HangUp()
      requires stopped
      modifies this
      ensures View() == old(View()).(closed := true)
    {
      closed := true;
    }

    /** `poll_read` into a buffer with `room` bytes left. */
    method PollRead(room: nat) returns (r: Poll)
      modifies this
      ensures (View(), r) == Polled(old(View()), room)
    {
      if pending.Some? {
        var p := pending.value;
        if p != [] {
          var n := Min(|p|, room);
          pending := if n < |p| then Some(p[n..]) else None;
          return Ready(p[..n]);
        }
        pending := None;
      }
      if eof {
        return Ready([]);
      }
      if queue == [] {
        if closed {
          eof := true;
          return Ready([]);
        }
        return Wait;
      }
      var item := queue[0];
      queue := queue[1..];
      if item == Failure {
        return Error;
      }
      var chunk := item.data;
      if chunk == [] {
        eof := true;
        return Ready([]);
      }
      var n := Min(|chunk|, room);
      if n < |chunk| {
        pending := Some(chunk[n..]);
      }
      r := Ready(chunk[..n]);
    }
  }

  /** Thread and caller take turns on one reader in the given order, a turn that would block being passed
      over: state, results and rooms are those of the machine's run. */
  method Interleave(turns: seq<Turn>) returns (x: StdinReader, polls: seq<Poll>, rooms: seq<nat>)
    ensures fresh(x) && x.View() == Run(turns).hand && polls == Run(turns).polls && rooms == Run(turns).rooms
  {
    hide Polled;
    x := new StdinReader();
    polls, rooms := [], [];
    for k := 0 to |turns|
      invariant fresh(x) && x.View() == Run(turns[..k]).hand
      invariant polls == Run(turns[..k]).polls && rooms == Run(turns[..k]).rooms
    {
      assert turns[..k + 1][..k] == turns[..k];
      match turns[k]
      case Sends(data) =>
        if CanSend(x.View()) && 0 < |data| <= CHUNK { x.Send(data); }
      case Stops(failed) =>
        if CanSend(x.View()) { x.Stop(failed); }
      case HangsUp =>
        if x.stopped { x.HangUp(); }
      case Polls(room) =>
        var r := x.PollRead(room);
        polls, rooms := polls + [r], rooms + [room];
    }
    assert turns[..|turns|] == turns;
  }
}
