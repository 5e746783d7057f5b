# qvole-rs in Dafny

A model of the qvole rendezvous relay and of the peers that meet through it, with proofs about every
input, every run and every reachable state. `dafny verify dfyconfig.toml` checks the whole project.

## What is modelled

**The relay.** `RelaySpec` is the relay without its redundant state: flat tables, and the cardinality of
a set wherever the server keeps a counter. One datagram or one timer tick is one step. `RelayInv`,
`RelayIndex` and `RelayAdmission` prove what holds of all runs of this machine. Five modules say exactly what a step
does to each part of the state and derive what a whole run leaves there: `RelayLiveness` (the global pending store),
`RelayInRoom` (the entries inside rooms), `RelayMembership` (clients), `RelayRooms` (rooms) and `RelayRates`
(limiters). `RelayAnswers` is a reference for the answer to a REG, read off the state before it without any sweeping,
and `RelayRouting` says where messages go. `RelayScenarios` gives the runs that show where the relay falls short.
`RoomEntries`, `Tables` and `Relay` are the server itself: classes with sixteen-way sharded maps, per-host tallies and
totals, updated in place by loops over shards. Every handler is proved to take exactly the step of the flat machine.
Over any run the sharded server ends in the machine's state and has answered every event as the machine does
(`RelayServer.Serve`), so the theorems about states and outcomes of runs are theorems about the server.
`Packets` puts the text protocol of `Wire` in front of it. `PendingRace` drops the one-packet-at-a-time view
for the pending counters: workers and the cleanup task interleave access by access, with the shard locks as
the only protection. `Limiters` bounds the three rate limiters over whole call sequences, from above and below.

**The peers.** `Spake2` is the key agreement over any commutative group with commuting scalar
multiplications; `Spake2.HonestPeersExist` shows that its hypotheses can be met. `Confirm` is the confirmation
message, with MAC and AEAD as open functions. `Exchange` is the candidate and confirm loop, `Handshake` joins the
three. `Hex` is the codec below them.

**The tunnels.** `TunnelStream` reads configuration off a stream that arrives in arbitrary pieces, `Tunnel`
numbers the requests and serves streams, `Allow` is the forward allowlist, `Address` the address texts.
`SplitCommand`, `Stdin` and `Ports` are the command splitter, the stdin hand-over and the port parser.

Conventions: bytes are numbers below 256; text is bytes; time is a natural number and elapsed time saturates
at zero; a step sees one clock value; randomness (cookies, nonces, padding) is an input. Host key and shard
placement are function parameters of the relay, so the results hold for the real ones (`Net.IpKey`, FNV-1a)
and for any other. Positive per-room caps are assumed where stated, as the configuration reader enforces.

## Where the code falls short of an obvious property

- The host index (`ip_counts`) is documented as the rooms a host is in. It always covers them, but it keeps a
  room the host has left when one sweep removes two or more of the host's clients from it together, because
  the test for remaining clients runs before the removal. `TwinsLeakInARun` is a run from the empty
  server on which it happens; `PhantomIff` and `IndexExactIff` say exactly on which runs the two differ. A host
  that is gone and whose leaked links are at the limit is dropped for good (`LockedOutForGood`).
- A spent cookie does not keep a client registered, and a peer that has been given a cookie sends no plain REG any
  more: such a client lapses with its room's first sweep later than the TTL (`SpentCookieLapses`). A plain REG does not
  renew either while the host is at its room limit (`PlainRenewsIff`), which with a limit of one is always
  (`OneRoomRenewsNobody`).
- The global and per-host pending caps are exceeded under concurrency: by up to workers - 1 entries, and never
  by more (`CapsOvershoot`). Schedules from the start reach both bounds (`TotalOvershoots`, `HostOvershoots`).
- A challenge issued inside an existing room is not always honoured. It is lost when a sweep removes the room
  (`ChallengeLostWithRoom`), and shadowed while an older challenge with another cookie waits in the global store
  (`ChallengeShadowed`). `InRoomOutlivesIff` and `InRoomHonouredIff` are the exact conditions. Challenges for
  rooms that do not exist have neither weakness (`ChallengeHonoured`).
- The peer's `trim_ascii` panics (it slices to an end before the start) on nonempty all-blank input, where the
  relay's version returns the empty slice (`TrimsAgreeIff`). The exchange loop panics on exactly such datagrams
  (`PanicsIff`).
- A tunnel request whose listen address holds a blank is not read back as written (`LineRoundTripIff`), and an
  advertised address arrives unchanged through a confirm only if it is ASCII without a zero byte
  (`ConfirmRoundTrip`).

## Model

| member | source | states |
|---|---|---|
| Net.IpKeyGroups | crates/qvole-relay/src/room.rs:40-60 | two sources share the per-host caps exactly when they are one IPv4 host (mapped or not), one IPv6 loopback, or two other addresses of one /64 |
| Hex.ToHexLower | crates/qvole-protocol/src/hex.rs:8-16 | the byte loop produces the two lower-case digits of every byte |
| Hex.HexDecode | crates/qvole-protocol/src/hex.rs:23-45 | the pair loop decodes exactly the even-length digit strings, to the bytes their digit pairs denote |
| Hex.RoundTrip | crates/qvole-protocol/src/hex.rs:8-45 | decoding undoes encoding on every byte string |
| Hex.EncodeDecode | crates/qvole-protocol/src/hex.rs:8-45 | encoding what was decoded gives the text back with its letters in lower case |
| Hex.SameBytesIff | crates/qvole-protocol/src/hex.rs:23-45 | two decodable texts stand for the same bytes exactly when they agree up to the case of letters |
| Limiters.RegShard.IsLimited | crates/qvole-relay/src/room.rs:281-308 | the two maps always have the same keys and stay under the cap, their clear branches are dead, and the answer and new state are those of one fixed-window meter per source |
| Limiters.RegShard.CleanupStale | crates/qvole-relay/src/room.rs:311-327 | removes from both maps exactly the sources whose window is older than the age, keeping the maps in step |
| Limiters.MessageRateBound | crates/qvole-relay/src/room.rs:119-130 | over any call times, no closed interval as long as the window holds more than 2 * max admitted messages |
| Limiters.MessagePasses | crates/qvole-relay/src/room.rs:119-130 | after any call times, a call is let through whenever fewer than max were within the last window |
| Limiters.RegistrationRateBound | crates/qvole-relay/src/room.rs:281-327 | the same bound per source for registrations, over any interleaving of all sources' calls with cleanups that are not younger than the window |
| Limiters.RegistrationPasses | crates/qvole-relay/src/room.rs:281-308 | after any calls and cleanups, a source of which fewer than max were admitted within the last window is refused if and only if it is unknown to a full shard |
| Limiters.DropLogLimiter.Allow | crates/qvole-relay/src/room.rs:369-389 | the in-place throttle takes the step of the value-level throttle the bounds are proved for |
| Limiters.DropLogBounds | crates/qvole-relay/src/room.rs:369-396 | lines of one host are at least the interval apart, and no half-open second sees more than twice the budget, over any run with cleanups |
| Limiters.DropLogPasses | crates/qvole-relay/src/room.rs:369-389 | after any run, while the last second is below the budget and the host's last line is the interval ago, a line is held back if and only if the host is unknown to a full map |
| RelayInv.StepKeeps | crates/qvole-relay/src/relay.rs:678-1265 | every packet and tick keeps: each client's room indexed under its host, no host over its room limit, the room count, clients per room and per host, in-room pending entries per room and per host, global pending entries in all and per host under their caps, and every client and pending entry stored under the address it resolves to |
| RelayInv.SweepAllIdempotent | crates/qvole-relay/src/relay.rs:507-522 | a second sweep at the same instant changes nothing |
| RelayIndex.RunKeeps | crates/qvole-relay/src/relay.rs:678-1265 | the invariants hold in every reachable state |
| RelayIndex.HostRoomBound | crates/qvole-relay/src/relay.rs:355-380 | in every reachable state the rooms a host is in are among its indexed rooms, hence at most the per-host limit |
| RelayIndex.MaxRoomsRefusal | crates/qvole-relay/src/relay.rs:1050-1078 | a completion is refused for lack of rooms if and only if its room would not survive the sweep and at least max_rooms others have a fresh client or a recent use |
| RelayIndex.SweepTracksHost | crates/qvole-relay/src/room.rs:228-266 | a sweep that removes a host from a room unlinks it if and only if it does not remove two or more of its clients at once |
| RelayIndex.TwinsLeak | crates/qvole-relay/src/room.rs:228-266 | in any state where two clients of one host are alone in the only room: the index is exact, and once both are stale the room disappears and its index entry stays |
| RelayIndex.StepPhantoms | crates/qvole-relay/src/relay.rs:678-1265 | exact accounting of one step: which index entries without a client it creates, which it repairs, which stay |
| RelayIndex.PhantomIff | crates/qvole-relay/src/relay.rs:355-380 | over every run, a host is indexed under a room it is not in if and only if some sweep removed its last two or more clients there together and it has not been admitted there since |
| RelayIndex.IndexExactIff | crates/qvole-relay/src/relay.rs:355-380 | over every run, the index equals true occupancy if and only if every such event has been repaired |
| RelayScenarios.TwinsLeakInARun | crates/qvole-relay/src/relay.rs:678-1154 | a run of five events from the empty server, for any two addresses of one host under caps with a little room, ends with an index entry for a room that does not exist |
| RelayScenarios.TwinsLockedOut | crates/qvole-relay/src/relay.rs:924-927 | after that run, with one room per host allowed, every REG of the host is dropped in every continuation |
| RelayAdmission.EntryWasChallenged | crates/qvole-relay/src/relay.rs:764-789 | every pending entry, global or in a room, goes back to a challenge with its cookie sent to its source for its room at its time stamp |
| RelayAdmission.AdmissionSafety | crates/qvole-relay/src/relay.rs:693-919 | whoever becomes a client presents a cookie the relay sent to that source for that room at an earlier step, at most five seconds before |
| RelayAdmission.RoomsBornByCookie | crates/qvole-relay/src/relay.rs:1036-1096 | a room comes into being only in a step that completes a challenge |
| RelayAdmission.EntriesConserved | crates/qvole-relay/src/relay.rs:693-1154 | per room and source, admissions so far plus live entries never exceed the entries created, and those never the challenges sent: an entry admits at most once, however often its challenge is repeated |
| RelayLiveness.GlobalStep | crates/qvole-relay/src/relay.rs:384-500 | exactly what any step does to any entry of the global store: a challenge for a room that does not exist writes it, showing its cookie takes it away whatever the answer, the timer drops it more than 5 s after it was made, nothing else touches it |
| RelayLiveness.GlobalOutlivesIff | crates/qvole-relay/src/relay.rs:1383-1399 | over any stretch of any run in which its source is silent, an entry of the global store is there at the end, unchanged, if and only if no timer fired more than 5 s after it was made |
| RelayLiveness.ChallengeHonoured | crates/qvole-relay/src/relay.rs:715-751 | in any run, a challenge for a room that does not exist, answered in time, is met by admission, the rate limit or a cap, never by a mismatch, an expiry or another challenge, whatever others did in between |
| RelayLiveness.RoomOpens | crates/qvole-relay/src/relay.rs:1057-1096 | under the caps, an answered challenge creates the room with its source as only client, indexes it and uses up the entry |
| RelayInRoom.InRoomStep | crates/qvole-relay/src/room.rs:188-266 | exactly what any step does to any entry inside a room: a challenge for an existing room writes it; it goes when used up, when its room is swept away, or when its room is swept more than 5 s after it was made; nothing else touches it |
| RelayInRoom.InRoomOutlivesIff | crates/qvole-relay/src/room.rs:417-441 | over any stretch of any run in which its source is silent, an entry inside a room is there at the end, unchanged, if and only if no sweep took the room away and none came to the room more than 5 s after the entry was made |
| RelayInRoom.InRoomHonouredIff | crates/qvole-relay/src/relay.rs:713-751 | with its entry alive in the room, a cookie meets only admission, the rate limit or a cap if and only if it is rate-limited or no entry of the pair waits in the global store, or a fresh one with the same cookie does |
| RelayInRoom.InRoomChallengeHonoured | crates/qvole-relay/src/relay.rs:793-916 | in any run, a challenge for an existing room, answered in time and after no sweep took the room away, meets only admission, the rate limit or a cap if and only if it is rate-limited or not shadowed by the global store |
| RelayInRoom.InRoomChallengeLost | crates/qvole-relay/src/relay.rs:793-916 | if a sweep did take it away, no cookie admits the source, even when the room has been opened again, except that of a fresh challenge in the global store |
| RelayMembership.RecordStep | crates/qvole-relay/src/relay.rs:678-1240 | exactly what any step does to any client: an OK to its own REG writes it (a plain one keeps its meter, a cookie starts a new one), a sweep of its room that finds it stale drops it, its own message counts on its meter, nothing else touches it |
| RelayMembership.StampStep | crates/qvole-relay/src/relay.rs:678-1154 | of the time stamp alone: renewed exactly by an OK to the client's own REG, gone exactly with a sweep of its room that finds it stale |
| RelayMembership.MemberIff | crates/qvole-relay/src/relay.rs:678-1154 | over every run, a source is a client of a room if and only if its last OK for that room has not been followed by a sweep of the room later than the TTL |
| RelayMembership.PlainRenewsIff | crates/qvole-relay/src/relay.rs:922-984 | a plain REG of a client renews it if and only if it passes the limiter, its host is below the room limit and it is not stale yet |
| RelayMembership.FullHostRenewsNobody | crates/qvole-relay/src/relay.rs:922-927 | at the room limit every plain REG of the host is dropped and changes neither rooms nor links nor entries |
| RelayMembership.OneRoomRenewsNobody | crates/qvole-relay/src/relay.rs:922-927 | with one room per host allowed, no plain REG renews any client in any reachable state |
| RelayMembership.SpentCookieLapses | crates/qvole-protocol/src/exchange.rs:532-541 | a client without a waiting challenge that sends only REGs with cookies keeps its stamp, and stays if and only if its room is not swept later than the TTL after it |
| RelayMembership.LockedOutForGood | crates/qvole-relay/src/relay.rs:362-380 | a host without client or challenge whose links reach the limit has every REG dropped in every continuation of the run |
| RelayRooms.RoomStep | crates/qvole-relay/src/relay.rs:1036-1154 | exactly what any step does to any room: a cookie that is let in opens it or marks it used, a sweep of all rooms that finds it abandoned removes it, nothing else does either |
| RelayRooms.RoomIff | crates/qvole-relay/src/room.rs:417-441 | over every run, a room exists if and only if somebody was let into it and no later sweep of all rooms found it abandoned; its mark is the time somebody was last let in |
| RelayAnswers.Answered | crates/qvole-relay/src/relay.rs:678-1154 | in every state every REG gets the answer of a reference that speaks only of the state before it: who was heard of within the TTL, which challenges are younger than 5 s, which links would be left |
| RelayAnswers.InRoomAdmitsIff | crates/qvole-relay/src/relay.rs:793-919 | a good cookie of a challenge in the room admits if and only if, of the fresh clients and the links left: the source is a client or the room below its hard cap, the host present or below its room limit, the source a client or its host below its share; the first that fails is the reason given; once in, the source is stamped, linked and its challenge gone, and exactly the other fresh clients are still there as they were |
| RelayAnswers.GlobalAdmitsIff | crates/qvole-relay/src/relay.rs:1097-1153 | the same for a challenge of the global store when the room is there, with a full table swept first; the challenge is gone whatever the answer |
| RelayAnswers.RoomOpensIff | crates/qvole-relay/src/relay.rs:1050-1096 | when the room is not there it opens if and only if fewer than max_rooms rooms are kept and the host is below its room limit after the sweep; each refusal has its own condition |
| RelayAnswers.AdmittedJoins | crates/qvole-relay/src/relay.rs:889-908 | whoever is let in with a cookie is a new client at the address the cookie was sent to, linked, among exactly the others heard of lately, its challenge used up |
| RelayAnswers.SameCookieAgain | crates/qvole-relay/src/relay.rs:986-991 | in any run, a source challenged in a room that asks again in time gets the same cookie if and only if no rate, room or hard cap is in the way and it is not a client; no cap on challenges ever is |
| RelayRouting.RoutedIff | crates/qvole-relay/src/relay.rs:1202-1240 | a message is routed if and only if its sender is a client whose meter lets it pass, then to every other client of the room and nobody else; each refusal has its own condition |
| RelayRouting.MessageFrame | crates/qvole-relay/src/relay.rs:1202-1240 | a message changes nothing in the state but its sender's meter |
| RelayRouting.RoutedInRuns | crates/qvole-relay/src/relay.rs:1234-1239 | over every run, a routed message goes to exactly the others whose last OK still stands, from a source whose own does; the refusals tell an unregistered source and an unknown room apart |
| RelayRates.ShardStep | crates/qvole-relay/src/relay.rs:1372-1376 | a REG is told it is rate-limited exactly when its shard's limiter refuses it; the limiter's timer forgets exactly the hosts whose window began more than two windows ago; nothing else touches the limiters |
| RelayRates.HostRateBound | crates/qvole-relay/src/relay.rs:678-691 | over every run, no interval as long as the rate window holds more than twice the limit of REGs of one host that were not refused as too many |
| RelayRates.BelowRateHeard | crates/qvole-relay/src/relay.rs:678-691 | over every run, a REG of a host of which fewer than the limit were heard within the last window is refused as too many if and only if the host is unknown to a full shard |
| RelayRates.ClientRateBound | crates/qvole-relay/src/relay.rs:1224-1233 | over every run, from its admission on, no interval as long as the rate window holds more than twice the limit of routed messages of one client |
| RelayRates.BelowRateRouted | crates/qvole-relay/src/relay.rs:1224-1233 | over every run, a client of whom fewer messages than the limit were routed within the last window has the next one routed |
| RelayScenarios.ChallengeLostWithRoom | crates/qvole-relay/src/relay.rs:958-1020 | a run in which a challenge inside a room, answered one tick later with the right cookie, is met by another challenge because the room was swept |
| RelayScenarios.ChallengeShadowed | crates/qvole-relay/src/relay.rs:713-724 | a run in which a challenge inside a room, answered at once with the right cookie, is a mismatch because an older one waits in the global store |
| RoomEntries.RoomEntry.AddPending | crates/qvole-relay/src/room.rs:190-199 | refuses exactly new sources in a full room, and keeps the per-host tally equal to the number of entries |
| RoomEntries.RoomEntry.RemovePending | crates/qvole-relay/src/room.rs:203-215 | removes the entry and keeps the tally exact, so its decrement never meets a missing count |
| RoomEntries.RoomEntry.PendingCountForIp | crates/qvole-relay/src/room.rs:220-222 | the O(1) answer is the number of the room's entries of that host |
| RoomEntries.RoomEntry.RemoveStaleClients | crates/qvole-relay/src/room.rs:228-266 | the two loops leave exactly the fresh clients and entries, and report the hosts whose stale client was alone before the removal |
| Tables.IpIndex.Add | crates/qvole-relay/src/relay.rs:355-360 | the sharded index gains exactly one pair |
| Tables.IpIndex.Remove | crates/qvole-relay/src/relay.rs:362-372 | the sharded index loses exactly one pair and keeps no empty host |
| Tables.IpIndex.Count | crates/qvole-relay/src/relay.rs:375-380 | the answer is the number of rooms paired with the host in the whole relation |
| Tables.PendingStore.Get | crates/qvole-relay/src/relay.rs:384-389 | finds in the one right shard exactly what the whole store holds |
| Tables.PendingStore.Store | crates/qvole-relay/src/relay.rs:399-419 | refuses exactly new keys at the cap; total and per-host tally stay equal to the entries, a replacement leaves them alone |
| Tables.PendingStore.Delete | crates/qvole-relay/src/relay.rs:421-434 | removes the key if it is there, keeps the counters exact and leaves no empty room behind |
| Tables.PendingStore.CountFor | crates/qvole-relay/src/relay.rs:460-465 | the O(1) answer is the number of entries of that host in all shards |
| Tables.PendingStore.RemoveStale | crates/qvole-relay/src/relay.rs:476-500 | the shard loop followed by the deferred subtractions leaves the unexpired entries and exact counters |
| Tables.RoomTable.Insert | crates/qvole-relay/src/relay.rs:1086-1095 | the room goes into the one shard of its name and the total stays the number of rooms |
| Tables.RoomTable.EvictShard | crates/qvole-relay/src/room.rs:417-441 | removes from one shard exactly its rooms without fresh client or recent use, sweeps the others, and reports every link to drop and the number removed |
| RelayServer.Relay.constructor | crates/qvole-relay/src/relay.rs:240-290 | an empty server with all tables, placements and counters in agreement |
| RelayServer.ResweepIsNoop | crates/qvole-relay/src/relay.rs:1050-1071 | sweeping the target shard again after the all-shard sweep of the same instant removes nothing and drops no link |
| RelayServer.Relay.EvictStaleRoomsAll | crates/qvole-relay/src/relay.rs:507-522 | sixteen shard sweeps with one final subtraction equal one sweep of the flat table |
| RelayServer.Relay.RegCookieCreateOrAdmit | crates/qvole-relay/src/relay.rs:1036-1154 | on the sharded tables the completion takes exactly the flat machine's step, both sweeps included |
| RelayServer.Relay.RegWithCookie | crates/qvole-relay/src/relay.rs:693-919 | a cookie REG takes exactly the flat machine's step, whether its challenge is in the store, in a room or gone; what that step answers and does is in `InRoomAdmitsIff`, `GlobalAdmitsIff`, `RoomOpensIff` and `Answered` |
| RelayServer.Relay.RegPlain | crates/qvole-relay/src/relay.rs:922-1029 | a REG without cookie takes exactly the flat machine's step |
| RelayServer.Relay.HandleReg | crates/qvole-relay/src/relay.rs:678-1031 | every REG takes the flat machine's step, rate limiter included, and keeps tables, counters and invariants |
| RelayServer.Relay.HandleMsg | crates/qvole-relay/src/relay.rs:1202-1240 | a MSG is dropped for the machine's reason or handed to every other client of the room once each, never to its sender; `RoutedIff` and `MessageFrame` say when and what else changes |
| RelayServer.Relay.HandleSweep | crates/qvole-relay/src/relay.rs:1383-1399 | the room tick takes the flat machine's step; `GlobalStep`, `InRoomStep`, `RecordStep` and `RoomStep` say what it removes |
| RelayServer.Relay.HandleRateCleanup | crates/qvole-relay/src/relay.rs:1372-1376 | the rate tick sweeps all sixteen limiter shards as the machine does |
| RelayServer.Relay.Handle | crates/qvole-relay/src/relay.rs:623-674 | every event changes the state as the machine does and is answered with the machine's outcome, routed addresses once each |
| RelayServer.Serve | crates/qvole-relay/src/relay.rs:188-1432 | for any sequence of events the sharded server ends in exactly the state of the flat machine's run, and every answer it gave is the machine's outcome of that event, routed addresses as a set without repeats |
| Packets.HandlePacket | crates/qvole-relay/src/relay.rs:597-674 | a malformed datagram changes nothing and is not answered; any other has the effect of its event, and what is sent is the reply to its source or one MSGD line with the sent phase and body to each other client |
| Packets.ReplyReads | crates/qvole-relay/src/relay.rs:597-617 | the one answer to a REG goes to its source, which reads in it its observed address or the very cookie issued; a dropped REG is not answered |
| Packets.SentIsSeen | crates/qvole-relay/src/relay.rs:623-674 | what a peer writes is the event it means, and exactly the unreadable datagrams are none |
| Packets.Delivered | crates/qvole-relay/src/relay.rs:1241-1260 | a routed message reaches each recipient exactly once and is read there with the phase and body sent |
| PendingRace.DoSound | crates/qvole-relay/src/relay.rs:399-500 | every shared access of every thread keeps locks exclusive, counters lagging by the updates in flight only, and both caps within their overshoot |
| PendingRace.CountersSafe | crates/qvole-relay/src/relay.rs:399-500 | in every schedule of workers and cleanup: the total and each host count differ from the entries by exactly the updates in flight, no fetch_sub underflows, no saturating_sub saturates |
| PendingRace.CapsOvershoot | crates/qvole-relay/src/relay.rs:399-419 | with n workers, total and entries stay within max_pending_global + min(n, 16) - 1 and a host within max_pending_per_ip + n - 1; with one worker both caps are strict |
| PendingRace.QuietIsExact | crates/qvole-relay/src/relay.rs:468-500 | whenever no operation is in progress all counters are exact |
| PendingRace.OvershootReached | crates/qvole-relay/src/relay.rs:399-419 | from any quiet state one short of the cap, workers with keys in different shards have a schedule that takes the total to the bound |
| PendingRace.Fill | crates/qvole-relay/src/relay.rs:399-419 | from the start, any distinct keys within both caps can be stored by some schedule, which ends quiet with exactly those entries and that total |
| PendingRace.GivesUp | crates/qvole-relay/src/relay.rs:399-419 | a store that finds its key or a full total changes nothing |
| PendingRace.DeletesThrough | crates/qvole-relay/src/relay.rs:421-434 | a deletion without interruption takes the entry out and both counters down by one, or changes nothing if there is no such entry |
| PendingRace.Cleans | crates/qvole-relay/src/relay.rs:476-500 | whatever entries it finds expired, from a quiet state the cleanup task has a schedule that takes out exactly those and ends quiet with exact counters |
| PendingRace.TotalOvershoots | crates/qvole-relay/src/relay.rs:399-419 | some schedule from the start takes the total to max_pending_global + n - 1, for n workers with keys in different shards |
| PendingRace.HostOvershoots | crates/qvole-relay/src/relay.rs:769-788 | some schedule from the start takes one host to max_pending_per_ip + n - 1 entries and counts, for n workers, and ends quiet |
| Wire.TrimsAgreeIff | crates/qvole-protocol/src/exchange.rs:226-231 | the peer's trimming has a result, and the relay's, if and only if the input is empty or not all blank |
| Wire.PanicsIff | crates/qvole-protocol/src/exchange.rs:568-635 | reading a datagram, with all its trimming, panics if and only if the datagram is all blank and not empty |
| Wire.RegParses | crates/qvole-relay/src/relay.rs:634-666 | the REG line a peer sends is read as that room and no cookie |
| Wire.CookieRegParses | crates/qvole-relay/src/relay.rs:634-713 | the REG line with a cookie is read as that room and the sixteen cookie bytes |
| Wire.RegOnlyParses | crates/qvole-relay/src/relay.rs:634-713 | a REG is read without a cookie only if nothing follows the room, with a cookie only if 32 hex digits of it do, and as malformed only if something else does |
| Wire.MsgParses | crates/qvole-relay/src/relay.rs:1158-1204 | the MSG line a peer sends is read as its room, phase and body |
| Wire.MsgOnlyParses | crates/qvole-relay/src/relay.rs:1158-1204 | only that line, up to blanks around it, is read so, and only with a valid room, a known phase and a valid body |
| Wire.ReadOnly | crates/qvole-protocol/src/exchange.rs:588-640 | a peer takes a line for an OK or a challenge only if it names its own room, for a challenge only with 32 hex digits, for a message only with a known phase |
| Wire.MessageRoundTrip | crates/qvole-relay/src/relay.rs:1158-1260 | a payload of up to 512 bytes goes through hex, MSG, relay, MSGD and hex unchanged |
| Wire.ChallengeRoundTrip | crates/qvole-protocol/src/exchange.rs:619-628 | a challenge line read by the peer leads to a REG that presents exactly the issued cookie |
| Spake2.LessTotal | crates/qvole-protocol/src/exchange.rs:281 | of two different points exactly one is the larger, so roles cannot coincide |
| Spake2.Agreement | crates/qvole-protocol/src/exchange.rs:250-309 | two honest peers with one password take opposite roles, exchange effective points, and derive the same key pair, from the x-coordinate of the one meeting point and one input of both points and both fingerprints; both fail, alike, exactly when that coordinate is zero |
| Spake2.ServerShared | crates/qvole-spake2/src/spake2.rs:366-407 | the server's unblinding leads to the meeting point |
| Spake2.ClientShared | crates/qvole-spake2/src/spake2.rs:366-407 | the client's unblinding leads to the same meeting point |
| Spake2.BindingInjective | crates/qvole-spake2/src/spake2.rs:476-529 | the key derivation input determines the unordered pair of points and of fingerprints |
| Spake2.ProcessPrefix | crates/qvole-protocol/src/exchange.rs:257-264 | bytes after the 162nd never matter |
| Spake2.SessionSound | crates/qvole-protocol/src/exchange.rs:257-309 | whatever was sent, a session has a peer with another fingerprint and a point that decodes, arrives at a point with nonzero x, and has the keys of that x bound to both points and fingerprints |
| Spake2.KeysEqualIff | crates/qvole-protocol/src/exchange.rs:290-297 | of any two sessions of any two peers, barring a collision of the derivation, the keys are equal if and only if the unordered points, the unordered fingerprints and the x-coordinates arrived at are |
| Spake2.PasswordsDecide | crates/qvole-protocol/src/exchange.rs:281-297 | whatever their passwords, two peers in session with each other have opposite roles, and equal keys, barring a collision, if and only if they arrive at the same x-coordinate |
| Spake2.MeetsIff | crates/qvole-spake2/src/spake2.rs:366-407 | meeting another healthy peer, whatever the passwords, fails if and only if nothing is left once the mask is off or the x-coordinate is zero, with the error for each |
| Spake2.ReflectionRefused | crates/qvole-protocol/src/exchange.rs:265-280 | a payload with one's own fingerprint or one's own M-point is refused |
| Confirm.TranscriptInjective | crates/qvole-spake2/src/spake2.rs:578-614 | the MAC input determines the unordered points, the nonce, the sender and the receiver |
| Confirm.VerifiesIff | crates/qvole-spake2/src/spake2.rs:578-643 | barring a MAC collision a tag verifies if and only if key, unordered points, nonce and (sender, receiver) are those it was made with |
| Confirm.ShownIff | crates/qvole-protocol/src/exchange.rs:399-404 | cutting at the first zero and turning bytes into characters leaves an address as it is if and only if it is ASCII without a zero byte |
| Confirm.ConfirmRoundTrip | crates/qvole-protocol/src/exchange.rs:315-405 | through MAC, padding, AEAD, hex and the conversion to text the peer gets what is shown of the address, and the address itself if and only if it is ASCII without a zero byte |
| Confirm.AcceptedIff | crates/qvole-protocol/src/exchange.rs:365-405 | of any two sessions, barring a MAC collision, a confirm built in one passes in the other if and only if confirmation keys and points are the same and each has the other's fingerprint; with the same encryption key it then yields what is shown of the address |
| Confirm.BuildsIff | crates/qvole-protocol/src/exchange.rs:315-362 | a confirm can be built if and only if the address fits, there is a nonce, and the fingerprints have their size and differ |
| Confirm.OwnConfirmRefused | crates/qvole-protocol/src/exchange.rs:365-405 | barring a MAC collision a peer's own confirm, sent back, is a mismatch |
| Exchange.PrefixIff | crates/qvole-protocol/src/exchange.rs:632-646 | two bodies are one candidate if and only if their first 324 hex digits agree up to case |
| Exchange.Oldest | crates/qvole-protocol/src/exchange.rs:678-690 | finds a candidate whose confirm was sent longest ago |
| Exchange.Exchanger.Resend | crates/qvole-protocol/src/exchange.rs:553-566 | sends exactly the confirms that are due and stamps those only |
| Exchange.Exchanger.OnSpake | crates/qvole-protocol/src/exchange.rs:632-724 | succeeds exactly when a new candidate fits a waiting confirm, with the first such; the candidate is kept with the confirm built for it and the present send time, at most the oldest of 50 gives way, all others stay as they are, and if it fails no waiting confirm fits any candidate |
| Exchange.Exchanger.OnConfirm | crates/qvole-protocol/src/exchange.rs:726-751 | succeeds exactly when some candidate fits; otherwise the confirm waits if fewer than 200 do, and still none fits |
| Exchange.Converse | crates/qvole-protocol/src/exchange.rs:524-752 | the loop succeeds on exactly the first message that completes a fitting pair, with that pair's outcome, as long as before that no candidate comes after more than 200 confirms and no confirm after more than 50 candidates |
| Exchange.OrderIndependent | crates/qvole-protocol/src/exchange.rs:632-751 | whether some message completes a pair is the same for every order of arrival |
| Handshake.RealBuilds | crates/qvole-protocol/src/exchange.rs:661-679 | with a session, a confirm can always be built for an address that fits |
| Handshake.HonestPair | crates/qvole-protocol/src/exchange.rs:250-405 | the two messages of an honest partner fit, and yield its address as shown, its fingerprint and the opposite role |
| Handshake.HonestExchange | crates/qvole-protocol/src/exchange.rs:524-752 | whatever else arrives and in whatever order, having received both messages of an honest partner some message completes a pair |
| Handshake.MeetPartner | crates/qvole-protocol/src/exchange.rs:524-752 | the loop over the real key exchange, fed with any messages in any order, both of an honest partner's among them and no bound hit, returns success; with the partner's address, fingerprint and the opposite role if nothing else fits |
| TunnelStream.Source.Read | crates/qvole-app/src/tunnel_request.rs:82-96 | delivers some of the next piece, nothing only at the end |
| TunnelStream.ReadAccept | crates/qvole-app/src/tunnel.rs:253-277 | byte by byte, for every cutting of the stream: the flag or error of its first line, and not a byte more consumed |
| TunnelStream.ReadToken | crates/qvole-app/src/tunnel_request.rs:78-111 | across any pieces: the first line, or that it is too long, leaving exactly what follows it |
| TunnelStream.ReadRequests | crates/qvole-app/src/tunnel_request.rs:66-150 | for every stream and every way of cutting it, the list or error of parsing the whole text |
| TunnelStream.LineRoundTripIff | crates/qvole-app/src/tunnel_request.rs:120-136 | a request line is read back as written if and only if the listen address has no blank |
| TunnelStream.ParseLineIff | crates/qvole-app/src/tunnel_request.rs:123-136 | a line is accepted if and only if it is `L` or `R`, a blank, a field without blanks, a blank and the rest, with the printable part of each field |
| TunnelStream.LineErrors | crates/qvole-app/src/tunnel_request.rs:123-131 | a line is short of fields if and only if it has fewer than two blanks; otherwise only its type can be wrong |
| TunnelStream.ParseIff | crates/qvole-app/src/tunnel_request.rs:66-139 | the reader returns a list if and only if it is what the first lines stand for, at most 100, and then comes `END` or the end of the text |
| TunnelStream.ParseErrIff | crates/qvole-app/src/tunnel_request.rs:66-139 | the reader fails with an error if and only if, after lines that stand for requests, there is one that is too long, one too many, or refused for that reason |
| TunnelStream.ParseAcceptIff | crates/qvole-app/src/tunnel.rs:253-277 | the first line is accepted if and only if it is one of the two words, up to a carriage return |
| TunnelStream.ConfigRoundTrip | crates/qvole-app/src/tunnel.rs:331-376 | the flag and request list one side writes are exactly what the other reads, up to 100 requests of 4096 bytes |
| TunnelStream.ReadConfig | crates/qvole-app/src/tunnel.rs:362-376 | both readers in turn parse the stream as one text |
| Tunnel.ExchangePairs | crates/qvole-app/src/tunnel.rs:331-376 | a lossless exchange of well-formed configurations leaves each side with the other's requests, all of known type and within the cap |
| Tunnel.IndexAgreement | crates/qvole-app/src/tunnel.rs:378-393 | after a lossless exchange both sides hold one list, each index is one side's own and survives the two-byte header, and what one side listens on the other serves and it does not |
| Tunnel.OneListener | crates/qvole-app/src/tunnel.rs:691-712 | every index is served by exactly one side and listened on by at most the other; for an `L` if and only if the peer of its owner accepts, for an `R` if and only if the other side's allowlist has it |
| Tunnel.ServeStream | crates/qvole-app/src/tunnel.rs:862-945 | dials the targets that `OwnTargets`, `PeerTargetsIff` and `PeerTargetsOrder` name, in order, up to the first that connects, and all of them if none does |
| Tunnel.PeerTargetsIff | crates/qvole-app/src/tunnel.rs:913-941 | for a peer's request that is not an `R`, an address is dialled if and only if the target's host resolves to it, the allowlist permits it and the port is a number |
| Tunnel.PeerTargetsOrder | crates/qvole-app/src/tunnel.rs:913-941 | and those are dialled in the resolver's order, each as often as it is listed |
| Tunnel.OwnTargets | crates/qvole-app/src/tunnel.rs:881-912 | for an own `R` the only thing dialled is its target; for an own `L`, a peer's `R` or no request at all, nothing |
| Address.SplitIff | crates/qvole-app/src/tunnel_allow.rs:250-279 | exactly the texts `h:p` and `[h]:p` with clean parts are accepted, with those parts |
| Address.SplitJoin | crates/qvole-app/src/tunnel_request.rs:206-212 | splitting undoes joining for bracket-free hosts and clean ports |
| Address.CopiesAgree | crates/qvole-protocol/src/resolver.rs:13-49 | the resolver's copy accepts the same texts with the same parts |
| Address.SplitRequest | crates/qvole-app/src/tunnel_request.rs:157-182 | refuses exactly the texts with unbalanced brackets; otherwise the parts rejoin to the text, are balanced and have no outer colon |
| Address.CutUnique | crates/qvole-app/src/tunnel_request.rs:157-182 | there is only one such list of parts |
| Address.ParseRequest | crates/qvole-app/src/tunnel_request.rs:220-253 | the addresses are those of the unique cut, or an error |
| Address.SpecRoundTrip | crates/qvole-app/src/tunnel_request.rs:220-253 | a spec written as two joined addresses parses to those two, an empty listen host becoming the local host |
| Address.ShortSpecRoundTrip | crates/qvole-app/src/tunnel_request.rs:220-253 | a spec of a port and a joined address listens on the local host; a cut into other than three or four parts is an error |
| Allow.MatchForwardIps | crates/qvole-app/src/tunnel_allow.rs:148-158 | the loop answers whether some rule matches |
| Allow.BuildForwardRules | crates/qvole-app/src/tunnel_allow.rs:164-182 | the rules permit exactly the addresses and ports some entry permits |
| Allow.TunnelAllow.Resolve | crates/qvole-app/src/tunnel_allow.rs:87-89 | the stored rules permit exactly what the entries permit |
| Allow.AllowedIff | crates/qvole-app/src/tunnel_allow.rs:117-145 | an address is returned if and only if the target resolves to it and `-a` is set or an entry permits it |
| Allow.FilteredOrder | crates/qvole-app/src/tunnel_allow.rs:117-145 | the permitted addresses keep the order and the multiplicity of the resolver's list |
| Allow.TunnelAllow.ForwardIps | crates/qvole-app/src/tunnel_allow.rs:117-145 | the permitted addresses in resolver order, the same with rules built beforehand or on the spot |
| SplitCommand.Run | crates/qvole-app/src/exec.rs:91-145 | the byte loop computes the scanner the laws below are about |
| SplitCommand.SplitKeeps | crates/qvole-app/src/exec.rs:91-145 | refused if and only if a quote is left open; otherwise the arguments together are the text without delimiting quotes and outer blanks |
| SplitCommand.SplitAtBlank | crates/qvole-app/src/exec.rs:124-130 | an outer blank separates: the arguments of the two sides follow each other |
| SplitCommand.SplitWord | crates/qvole-app/src/exec.rs:115-135 | text without an outer blank is one argument, its syntax removed, even if empty |
| SplitCommand.RenderRoundTrip | crates/qvole-app/src/exec.rs:91-145 | every list of byte strings has a quoted rendering that is split into exactly that list |
| Stdin.StdinReader.PollRead | crates/qvole-app/src/stdin_reader.rs:83-130 | the in-place poll takes exactly the step of the hand-over machine |
| Stdin.PollKeeps | crates/qvole-app/src/stdin_reader.rs:83-130 | a poll only moves bytes from what is kept to the caller, within the room; it is empty-handed with room to spare only when nothing is kept and the end is seen, it waits only when nothing is there, and the end is sticky |
| Stdin.Conserved | crates/qvole-app/src/stdin_reader.rs:47-130 | for every interleaving and all buffer sizes: one result per poll in order, the bytes read are those of the accepted sends, and delivered ++ left over ++ queued equals the bytes read |
| Stdin.EmptyMeansAll | crates/qvole-app/src/stdin_reader.rs:83-130 | in every run, an empty success with room comes after everything that is ever read has been delivered, and every later poll is empty too |
| Stdin.FailureOnce | crates/qvole-app/src/stdin_reader.rs:47-130 | in every run, a read error is reported exactly once unless it still waits in the channel, and never without one; by then every byte has been delivered, and no end of input is reported before it |
| Stdin.Interleave | crates/qvole-app/src/stdin_reader.rs:47-130 | thread and caller taking turns on one reader in any order leave it in the state of the machine's run, with its results and rooms |
| Ports.ParsePort | crates/qvole-protocol/src/resolver.rs:78-117 | in 64-bit arithmetic that never overflows: digit strings of any length give their value clamped at 2^30; another text gives none, or a number out of range if and only if it starts with more digits than fit 32 bits |
| Ports.LookupPort | crates/qvole-protocol/src/resolver.rs:60-72 | a signed digit string succeeds if and only if its value is in 0..65535, with that value; any other text is the service of that name, unless it starts with more digits than fit |

## Left out

- Interleaving of whole `handle_reg` calls: packets are atomic steps, except for the pending counters in `PendingRace`; room and entry lookups with the lock released in between are not modelled.
- One clock value per packet or tick stands for the several readings the handlers take.
- Clients and pending entries are keyed by socket addresses, not by their printed form.
- Shard hashing (FNV-1a) is a parameter: all results hold for every placement.
- PendingRace.CapsOvershoot: per-host counts are one map, not sixteen, since each of their updates is one locked access.
- Spake2.Agreement: curve arithmetic, hash-to-curve, password stretching and constant-time comparison are not modelled; the group, encoding and key derivation are open functions with stated laws.
- Confirm.VerifiesIff: SHA-256, HMAC and AES-GCM are open functions; secrecy and unforgeability are not claims about this code.
- Exchange.Converse: the inbound limit of 500 lines a second, deadlines and resend timers only decide which messages are processed and when; the model starts from the processed ones.
- Exchange.OrderIndependent: with several fitting pairs the pair that wins depends on hash-map order, so the outcome is one of theirs.
- TunnelStream.ReadRequests: read errors of the stream and the wording of error messages; text is bytes, which agrees with lossy UTF-8 decoding because addresses keep printable ASCII only.
- Tunnel.IndexAgreement: streams whose two header bytes did not arrive.
- Stdin.Interleave: a dropped receiver and wake-ups.
- Host names and `/etc/services`: the resolver and the service table are functions.
- Textual listen allowlist (`allow_match`), validation of entries and IP literal parsing: easy members.
- Sockets, QUIC, certificates, hole punching, process handling, copy loops, logging, statistics, options and environment defaults.
