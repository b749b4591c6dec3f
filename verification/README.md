# qWDTT: a verified model of its protocol and scheduling core

qWDTT tunnels traffic through TURN relays inside packets that look like WebRTC
audio or video. This project models the parts of it whose correctness is not
obvious from reading one function, and proves what they keep over every input
and every run.

- **Transport.** `Nonce`, `ReplayWindow`, `ReplayRuns`, `GenuineTraffic`,
  `Packet`, `DirectChannel`, `ExactlyOnce` and `Repeats` model the obfuscated RTP
  transport: the nonce derived from a packet counter with wrapping 16- and 32-bit arithmetic, the
  receiver's replay window with its 32-to-64-bit clock, the packet format, and
  the connection between one sender and one receiver over a network that drops,
  duplicates, reorders and injects.
- **Dispatcher.** `Dispatcher`, `DispatcherRuns`, `DispatcherChunks` and
  `DispatcherPacing` model the adaptive-chunk round-robin scheduler as a class and
  as a step function over runs; `Lifecycle` models packet buffers and channels under every interleaving
  of the goroutines that share them.
- **Configuration.** `ConfigToken` models the race of all workers for the one
  configuration request; `WgConfig` the rewriting of the configuration text and
  `WgMtu` what is read back from it.
- **Routing.** `SplitTunnel` compares the SOCKS router with the kernel's
  longest-prefix match.
- **Profiles.** `ShareLink` models the `wdtt://` printer and parser,
  `Subscription` the creation of a subscription's profiles in the store and
  `ImportName` the names they are stored under.
- **Slider.** `SliderTiles`, `SliderSampling` and `SliderRanking` model the grid
  arithmetic, the rearranged sampling and the ranking of candidates.

`Words`, `Text`, `Sets` and `Wrappers` hold fixed-width words, the string
operations of Go's standard library, cardinalities and the result shapes.

Code that changes state is written as classes, methods and loops and proved
against functions on values; the theorems are about those functions and about
every run made of them. The cipher is a value with a predicate, `Ideal`, that
states its laws: opening undoes sealing and opens nothing else, and the tag has
16 bytes. Forgery is excluded by a hypothesis on what the network delivers,
`Unforged`. Randomness, the clock, goroutine scheduling, map iteration order and
netlink's refusals are parameters.

`dafny verify dfyconfig.toml` checks the whole project.

## What the proofs found

- The replay window tolerates a lag of exactly 4100 packets, four more than the
  4096 its constant names (`GenuineTraffic.LagIsSpan`, `LagIsTight`).
- A packet older than the first one seen can be taken for one 2^32 ticks ahead.
  From then on the window counts one epoch up and goes on accepting, but a packet
  that arrives with a lead of almost 2^31 ticks, over two million packets, is
  refused. Without such a lead nothing is ever lost
  (`GenuineTraffic.GentleTrafficIsNeverLost`); with it, `NeverLosesExactly` says
  for which first packets.
- After such a late packet a repeat can be accepted: once 8193 packets have passed,
  the full table is cleared of what came before, and a packet only 4092 behind,
  less than a span, passes a second time (`Repeats.RepeatPasses`).
  `AcceptsOnceExactly` says for which first packets no repeat ever does.
- `Read` has 80 bytes to spare, which is enough for every payload, draw and noise
  if and only if `PaddingMax` is at most 52. Audio mode uses 24; video mode uses
  60, and a payload that fills the caller's buffer is then too long for some
  draws: the relay answers with `io.ErrShortBuffer`, `Read` returns that error, and
  the session's reader ends (`DirectChannel.ReturnsAllExactly`, `VideoLoses`,
  `LargePaddingLoses`). Any other packet longer than that does the same, whether it
  authenticates or not (`ForgeriesAreInert`, `LongForgeryEndsReading`).
- Wrapping with 256 bytes of padding in all writes a count byte of 0, which
  unwrapping refuses. The two built-in configurations never draw that much
  (`Packet.WrapRoundTrips`).
- The buffers that were sent to a session's `PrioCh` after its writer's last look
  never return to the pool, and no others are lost to it
  (`Lifecycle.StrandedExactly`); Go's collector frees them.
- A bypass entry `0.0.0.0/0` means "direct" to the SOCKS router and nothing to
  the kernel; a route of the machine's own, to its local network for instance,
  means "direct" to the kernel and nothing to the router
  (`SplitTunnel.DecisionsAgreeExactly`).
- Teardown deletes every route it noted, also those the machine had before: the
  default route after an entry `0.0.0.0/0`, the local one after an entry for the
  local network. It restores the table if and only if none of its routes was in it
  (`SplitTunnel.TeardownRestores`, `OwnRouteIsLost`).
- Between 13 and 20 slider candidates, one that is twelfth best by all three
  scores can fall behind the thirteenth (`SliderRanking.FinalistsFirstExactly`).
- A subscription update takes a stored profile that it cannot load, because its
  link file is missing for instance, for no profile at all, and overwrites it
  whoever owns it. All foreign files are safe if and only if all those within
  the update's reach can be loaded (`Subscription.ForeignKeptExactly`).
- An entry of a subscription that is called by the name an earlier one got
  replaces that one's profile, and both are listed. There are two ways: both have
  the same own name and nobody else holds it (`Subscription.SameNameCollapses`), or
  somebody else holds the first one's, "a", and the second is called by the name
  made up instead, "a_sub0" (`MadeUpNameCollapses`). There is no other
  (`NamesRepeatExactly`, `AllStoredExactly`).
- The requested MTU is inserted, but `parseWGConfig` ignores case and sections and
  takes the last assignment: an `mtu = 9000` that the patch does not recognise
  wins (`WgMtu.RequestedMtuExactly`).
- A profile whose peer contains more than one colon, such as a bracketed IPv6
  address, does not survive sharing (`ShareLink.ShareableExactly`).

## Model

| member | source | states |
|---|---|---|
| Nonce.NonceIsInjective | internal/core/obfs.go:173-180 | two headers give the same 12-byte nonce only if SSRC, sequence number and timestamp all agree |
| Nonce.NonceLayout | internal/core/obfs.go:173-180 | bytes 0 to 3 of the nonce spell the SSRC, 4 and 5 the sequence number, 6 and 7 are zero, 8 to 11 spell the timestamp |
| Nonce.HeaderCounts | internal/core/obfs.go:214-215 | packet c carries sequence number initSeq + c and timestamp initTs + 960c + c/65536, each reduced modulo its width, for every 64-bit counter |
| Nonce.TimestampIsTicks | internal/core/obfs.go:215 | the wrapping 32-bit timestamp is initTs + 960c + c/65536 reduced once, for every 64-bit counter |
| Nonce.HeadersRepeat | internal/core/obfs.go:214-215 | counters with the same sequence number repeat the header only a multiple of 2^48 apart, because 960*65536+1 is invertible modulo 2^32 |
| Nonce.NoncePeriod | internal/core/obfs.go:209-218 | for all initial values the nonces of two counters agree if and only if the counters differ by a multiple of 2^48 |
| Nonce.NoncesAreFresh | internal/core/obfs.go:147-153 | no nonce is used twice within 2^48 packets |
| ReplayWindow.Guard.constructor | internal/core/obfs.go:32-38 | a new window is uninitialised and empty |
| ReplayWindow.Guard.Delete | internal/core/obfs.go:76-81 | deleting in any iteration order leaves exactly the entries not older than the cutoff |
| ReplayWindow.Guard.Accept | internal/core/obfs.go:40-88 | short packets change nothing; otherwise verdict and new window are those of the specification, which the runs below reason about |
| ReplayWindow.Guard.Judge | internal/core/obfs.go:51-87 | the same for the header fields, including a refusal by a full table that still moves the clock |
| ReplayRuns.UnwrapIsExact | internal/core/obfs.go:62-68 | unwrapping recovers every time strictly within 2^31 of the highest one, across epochs |
| ReplayRuns.UnwrapFailsAtHalf | internal/core/obfs.go:64-68 | at distance exactly 2^31 it does not: the bound is tight |
| ReplayRuns.TimeIsNearest | internal/core/obfs.go:62-68 | for every window and timestamp: the time is the one of its class modulo 2^32 within 2^31 of the highest, on a tie the one of the same epoch, and in the first epoch a timestamp more than 2^31 ahead stands for itself |
| ReplayRuns.ForeignIsIgnored | internal/core/obfs.go:51-58 | in every run packets of another SSRC than the first one's are refused, and deleting them changes neither the window nor any other verdict |
| ReplayRuns.RefusedExactly | internal/core/obfs.go:57-86 | a refused packet changes the window only if it is new, of the window's SSRC and not late, and finds 8192 entries in date: the clock then moves, and what is out of date is forgotten |
| ReplayRuns.PassesExactly | internal/core/obfs.go:59-87 | a new packet within reach passes if and only if it trails by at most the span and pruning leaves room |
| ReplayRuns.TrackedIsRefused | internal/core/obfs.go:59-71 | an accepted packet that is on file, or more than a span behind, is refused and changes nothing |
| ReplayRuns.TrackedIsKept | internal/core/obfs.go:59-87 | every other packet leaves an accepted one on file or more than a span behind |
| ReplayRuns.ReplaySafety | internal/core/obfs.go:40-88 | in every run an accepted packet is never accepted again while the clock is less than 2^31 past it |
| ReplayRuns.ClockBound | internal/core/obfs.go:62-74 | 2^32 packets cannot bring the 64-bit clock near its end |
| ReplayRuns.MemoryBound | internal/core/obfs.go:75-86 | in every run the table holds at most 8192 entries |
| GenuineTraffic.LagIsSpan | internal/core/obfs.go:29 | trailing by at most 4100 packets is exactly trailing by at most the span of ticks |
| GenuineTraffic.PrunedIsSmall | internal/core/obfs.go:75-85 | after pruning at most 4101 genuine nonces remain, so the table is never full |
| GenuineTraffic.NextGenuine | internal/core/obfs.go:40-88 | after any genuine history the next genuine packet passes and is filed under its own time |
| GenuineTraffic.NoGenuineLoss | internal/core/obfs.go:40-88 | no genuine packet is lost in any arrival order with distinct counters, lag at most 4100 and less than 2^31 ticks of lead, if none belongs before the first packet's epoch |
| GenuineTraffic.LagIsTight | internal/core/obfs.go:69-71 | a packet 4101 or more behind is always refused |
| GenuineTraffic.GentleTrafficIsNeverLost | internal/core/obfs.go:40-88 | whatever the first packet and the epoch, nothing genuine is lost when no packet leads by 2^31 ticks less a span or more |
| GenuineTraffic.SlipNext | internal/core/obfs.go:62-87 | a late packet from before the first epoch passes, and the window counts one epoch up |
| GenuineTraffic.ShiftedNext | internal/core/obfs.go:40-88 | one epoch up, every genuine packet less than 2^31 ahead passes and is filed under its time |
| GenuineTraffic.EpochSlipLoses | internal/core/obfs.go:62-74 | after such a late packet a genuine packet 2^31 ticks past it is refused, for every first packet whose timestamp is too small |
| GenuineTraffic.NeverLosesExactly | internal/core/obfs.go:51-74 | for every first packet: no genuine continuation ever loses a packet if and only if its timestamp reaches back to the earliest packet that may follow, or the counters end before 2^31 ticks past that one |
| Packet.PadDrawRange | internal/core/obfs.go:221-229 | the padding draw stays within 255 and reaches it for one byte value and only if the configuration allows it |
| Packet.UnwrapExactly | internal/core/obfs.go:269-326 | unwrapping yields p if and only if the packet splits at byte 12, or at byte 24 if bit 0x10 of its first byte is set, into a version-2 header, p sealed under the header's own bytes with the header as associated data, and padding that ends in its own length if bit 0x20 is set, none otherwise; and p fits the buffer |
| Packet.UnwrapErrsExactly | internal/core/obfs.go:269-322 | for every packet, in lengths, bits and the padding count alone: which of the errors it is refused with |
| Packet.WrapsExactly | internal/core/obfs.go:201-258 | when wrapping fails and with which error, and how long the packet is when it does not |
| Packet.RoundTrip | internal/core/obfs.go:201-326 | unwrapping a wrapped payload returns it, for every padding of up to 254 random bytes; with 255 it is refused |
| Packet.WrapRoundTrips | internal/core/obfs.go:221-229 | every draw survives if and only if PaddingMax is at most 255 or the drawn byte is below 255 |
| Packet.BuiltInsRoundTrip | internal/core/obfs.go:125-143 | in audio and video mode every payload survives every draw, and its packet passes the receiver's filter |
| Packet.WrappedLooksLikeRtp | internal/core/obfs.go:330-341 | a wrapped packet carries its header where the receiver looks and passes the receiver's filter exactly for the two payload types |
| Packet.WrappedBytes | internal/core/obfs.go:234-241 | the first twelve bytes of a wrapped packet: version 2, padding announced, no extension, payload type, and sequence number, timestamp and SSRC, most significant byte first |
| Packet.BuiltInsOnTheWire | internal/core/obfs.go:125-143 | audio packets are of type 111 with 1 to 24 bytes of padding, video packets of type 96 with 1 to 60, count included |
| Packet.WrapPacket | internal/core/obfs.go:201-215 | the counter advances only for a packet that is sealed or fails for lack of randomness, and the result is the packet of the old counter |
| Packet.Fill | internal/core/obfs.go:217-261 | the packet is the specified one, or the error of the random source |
| Packet.Assemble | internal/core/obfs.go:230-261 | the buffer filled in place is header, sealed payload, padding and count byte |
| Packet.UnwrapPacket | internal/core/obfs.go:269-326 | the plaintext is written to the front of the buffer, the rest of it is untouched, and every error leaves the verdict of the specification |
| DirectChannel.DirectConn.Write | internal/core/session.go:106-115 | one packet under the next counter is handed to the relay; the length of the payload, or the error of wrapping or of the relay |
| DirectChannel.DirectConn.Receive | internal/core/session.go:87-102 | one turn of Read: the relay's error for a packet longer than the buffer, which leaves window and destination alone; otherwise only an authenticated packet reaches the window, and only an accepted one is returned |
| DirectChannel.DirectConn.Read | internal/core/session.go:85-104 | Read skips exactly the packets that fit and yield nothing, and ends at the first that yields a payload, with it, or is too long, with an error |
| DirectChannel.ReturnedExactly | internal/core/session.go:85-104 | a packet makes Read return p if and only if it is at most room + 80 bytes long, of payload type 96 or 111, a well-made frame of p that fits the caller's buffer, and passed by the window |
| DirectChannel.ForeignIsSkipped | internal/core/session.go:92-102 | a packet of another SSRC than the one the window knows is skipped and changes nothing, whether it authenticates or not |
| DirectChannel.RunsKeepInvariant | internal/core/session.go:85-115 | in every run, which ends for the reader at the first packet that is too long, each delivery is an accepted arrival of its own, in order, of a payload that was written |
| DirectChannel.NothingInvented | internal/core/session.go:85-104 | every payload ever read was written by the sender, under the header it arrived with |
| DirectChannel.DeliveredAtMostOnce | internal/core/session.go:99-102 | two deliveries come from different counters while the window is less than 2^31 past the first |
| DirectChannel.ForgeriesAreInert | internal/core/session.go:87-98 | a packet that does not authenticate is skipped and changes nothing if and only if it is at most room + 80 bytes long; a longer one makes Read fail and changes nothing else |
| DirectChannel.ReadsOnExactly | internal/core/session.go:646-660 | in every run the session's reader is still at work if and only if every packet so far fitted its buffer |
| DirectChannel.LongForgeryEndsReading | vendor/github.com/pion/turn/v5/internal/client/udp_conn.go:136-140 | the failing input: after one injected packet of room + 81 zeros nothing that arrives is delivered |
| DirectChannel.DeliveredExactly | internal/core/session.go:85-104 | of a sealed packet: Read returns the payload if and only if the window passes it, the payload fits the caller's buffer, payload and padding are at most room + 51 bytes and the padding at most 254; Read fails if and only if they are more than room + 51 |
| DirectChannel.ReturnsAllExactly | internal/core/session.go:86 | every payload that fits the caller's buffer is returned for every draw and noise if and only if PaddingMax is at most 52 |
| DirectChannel.LargePaddingLoses | internal/core/session.go:86-91 | the failing input: a full buffer and 52 bytes of padding, whatever they are: Read fails |
| DirectChannel.VideoLoses | internal/core/obfs.go:131-142 | of the two modes, audio always fits and video does not |
| DirectChannel.GenuineIsDelivered | internal/core/session.go:85-104 | of genuine packets within the window's limits, those whose payload and padding are at most room + 51 bytes, padding at most 254, are delivered with their payloads, and no others; Read fails for those that are longer |
| DirectChannel.EndToEnd | internal/core/session.go:85-115 | from end to end: payloads that were written, whose packets arrive in an order that loses nothing and fit the buffers, are returned by Read, each as it was written, in order of arrival |
| ExactlyOnce.RepeatIsInert | internal/core/obfs.go:59-71 | a repeat is refused and leaves the window alone when at most 8192 packets have passed, or when it is less than 2^31 ticks old and not of a packet from before a slip |
| ExactlyOnce.NothingForgotten | internal/core/obfs.go:75-86 | until 8192 packets have passed the table holds every one under its time |
| ExactlyOnce.TameRun | internal/core/obfs.go:40-88 | with such repeats anywhere in traffic that loses nothing, one epoch up or not, exactly the first arrivals are accepted |
| ExactlyOnce.ReadReturnsAccepted | internal/core/session.go:85-104 | in every run Read returns exactly the authenticated arrivals that the window accepts, in order |
| ExactlyOnce.DeliveredExactlyOnce | internal/core/session.go:85-115 | in every run against a network that cannot forge, if what authenticates before the reader ends arrives in an order that loses nothing, such repeats included, Read returns exactly the payloads of the first arrivals, in order |
| Repeats.RepeatPasses | internal/core/obfs.go:59-86 | the failing input: after a late packet from before the first epoch and 8193 packets in all, one that came before it is accepted a second time |
| Repeats.AcceptsOnceExactly | internal/core/obfs.go:51-86 | for every first packet: in no gentle traffic with recent repeats is a packet accepted twice, if and only if its timestamp reaches back to the earliest packet that may follow, or fewer than 8193 counters are left |
| Dispatcher.WorkerSlot.CloseAndDrain | internal/core/dispatcher.go:187-192 | closing a queue returns exactly what was in it, in order |
| Dispatcher.Dispatcher.Register | internal/core/dispatcher.go:164-170 | the slot joins at the end |
| Dispatcher.Dispatcher.CutOut | internal/core/dispatcher.go:174-179 | exactly the slot is removed, the others keep their order |
| Dispatcher.Dispatcher.Unregister | internal/core/dispatcher.go:172-195 | the slot leaves, the pointer stays in range, the chunk starts over and the queue is closed and emptied |
| Dispatcher.Dispatcher.OfferPrio | internal/core/dispatcher.go:306-323 | the packet goes to the first worker in cyclic order whose PrioCh has room, or nowhere |
| Dispatcher.Dispatcher.OfferSend | internal/core/dispatcher.go:346-376 | the same for SendCh |
| Dispatcher.Dispatcher.SendData | internal/core/dispatcher.go:334-393 | the dwell rule, the data queue and the chunk bookkeeping |
| Dispatcher.Dispatcher.HandlePacket | internal/core/dispatcher.go:257-394 | state and fate of one packet are those of the step function of the runs below |
| DispatcherRuns.SearchVisitsOnce | internal/core/dispatcher.go:312-313 | the offsets modulo the number of workers visit every worker exactly once, for any number of workers |
| DispatcherRuns.SearchFinds | internal/core/dispatcher.go:307-323 | the search finds the first free worker in cyclic order, and none only if there is none |
| DispatcherRuns.LostExactlyWhenFull | internal/core/dispatcher.go:278-393 | a packet is lost if and only if there is no worker, or every SendCh is full and the packet is large or every PrioCh is full |
| DispatcherRuns.CompletionMovesPointer | internal/core/dispatcher.go:353-359 | a send that completes a chunk leaves the pointer just behind its worker |
| DispatcherRuns.NextChunkMovesOn | internal/core/dispatcher.go:346-376 | from there a data packet reaches that worker again only if all the others are full |
| DispatcherRuns.CompletedChunkMovesOn | internal/core/dispatcher.go:346-376 | a data packet that directly follows one that completed a chunk, with no pause or dwell switch, returns to the same worker only if all the others are full |
| DispatcherRuns.ChunkRuleInRuns | internal/core/dispatcher.go:291-376 | the same in every run, with small packets, the sessions and anything else in between that leaves the pointer and the worker list alone |
| DispatcherRuns.RunConserves | internal/core/dispatcher.go:252-394 | in every run of packets, registrations and sessions, each slot's share of the stream is, in order, what has left its queues followed by what is in them |
| DispatcherRuns.CountersAgree | internal/core/dispatcher.go:257-393 | in raw mode read equals sent plus dropped (modulo 2^64) after every packet |
| DispatcherChunks.ReadKeepsChunk | internal/core/dispatcher.go:291-392 | one packet keeps the chunk discipline |
| DispatcherChunks.RunKeepsChunk | internal/core/dispatcher.go:164-392 | in every run the pointer is in range, the counter is at most 63 and counts the last consecutive sends, all to the current worker and within the dwell limit |
| DispatcherChunks.DwellIsBounded | internal/core/dispatcher.go:336-344 | no data packet stays on the current worker 15 ms or more after the chunk began |
| DispatcherPacing.TurnPasses | internal/core/dispatcher.go:291-359 | for any state and one data packet: a pause of more than 10 ms or a turn of 15 ms moves the turn on by exactly one worker; if that worker has room the packet goes to it, and the turn moves on with the 64th, 24th, 8th, 3rd or 1st packet, by size |
| DispatcherPacing.SmallGoesFirst | internal/core/dispatcher.go:291-331 | a packet of at most 128 bytes goes to the first worker from the turn on whose PrioCh has fewer than 32, and takes nobody's turn |
| DispatcherPacing.FullTurnPasses | internal/core/dispatcher.go:360-388 | when the worker whose turn it is is full the packet goes to the next with room, as the first of its turn; when all are full it is lost and the next worker gets a whole turn |
| DispatcherPacing.JoinsAtTheEnd | internal/core/dispatcher.go:164-170 | in every run a new worker joins behind the others with empty queues, and the turn goes on |
| DispatcherPacing.LeavingEndsTurn | internal/core/dispatcher.go:172-186 | a worker that leaves ends the turn; next is whoever then stands at the pointer's place, or the first |
| DispatcherPacing.TurnsInRuns | internal/core/dispatcher.go:256-394 | in every run, from any point on, as long as packets are at most 10 ms apart, turns shorter than 15 ms and the worker has room: the j-th data packet of a size class goes to the worker (j + count)/chunk places on, for chunks of 64, 24, 8, 3 and 1 |
| Lifecycle.RunKeepsInvariant | internal/core/dispatcher.go:164-446 | in every interleaving the lock belongs to whoever is in a critical section, the picked slot is registered, listed slots are live, each buffer is in use in one place and none is unaccounted for |
| Lifecycle.NoPanic | internal/core/dispatcher.go:172-192 | in every interleaving no send hits a closed SendCh and no SendCh is closed twice |
| Lifecycle.MisusePanics | internal/core/dispatcher.go:346-371 | a send to a closed SendCh panics, and so does a second close |
| Lifecycle.PickedStaysOpen | internal/core/dispatcher.go:277-376 | from the pick to the send, which asks nothing, the slot stays registered and open, because readLoop holds the lock |
| Lifecycle.NoDoublePut | internal/core/dispatcher.go:27-32 | what a goroutine passes to putPktBuf, whatever its local variable refers to, is not in the pool, a channel or the hands of another goroutine |
| Lifecycle.NothingLostOrShared | internal/core/session.go:546-683 | every buffer ever made is in use in exactly one place, the pool and the queues of finished sessions included |
| Lifecycle.StrandedExactly | internal/core/session.go:582-600 | once a session is finished, the buffers still with it are exactly those sent to its PrioCh after the writer's last look, and none of them ever returns to the pool |
| Lifecycle.SomeAreStranded | internal/core/session.go:566-600 | a run in which the keepalive strands one |
| Lifecycle.PacketGoesIn | internal/core/dispatcher.go:256-394 | from any state with readLoop idle and the lock free, a packet goes into the SendCh of any open slot that holds fewer than 128, a small one into a PrioCh that holds fewer than 32, and the lock is free again |
| Lifecycle.PacketStaysOut | internal/core/dispatcher.go:306-376 | a full channel leaves packet and lock with readLoop |
| Lifecycle.WriterGoesOn | internal/core/session.go:578-636 | from either queue the writer takes the first packet, puts its buffer back and is where it was, waiting or emptying |
| Lifecycle.ReturnGoesIn | internal/core/session.go:672-681 | a reader's packet goes into the return channel as long as that holds fewer than 512 |
| Lifecycle.ReturnGoesOut | internal/core/dispatcher.go:410-447 | writeLoop takes the first returned packet and puts its buffer back |
| Lifecycle.KeepaliveGoesIn | internal/core/session.go:546-573 | a keepalive goes into a PrioCh that holds fewer than 32 |
| Lifecycle.ChannelsAreBounded | internal/core/dispatcher.go:33-37 | in every interleaving SendCh holds at most 128, PrioCh at most 32 and the return channel at most 512 |
| ConfigToken.RunKeepsInvariant | internal/core/group.go:195-226 | the protocol's invariant in every interleaving of all workers, the consumer and the close |
| ConfigToken.OneHolder | internal/core/group.go:203-210 | at most one worker holds the request, one of the first group |
| ConfigToken.TokenIsTakenExactly | internal/core/group.go:203-206 | in every interleaving a worker at the head of its loop holds the token two steps later if and only if it is one of the first nine, nobody holds it and no delivery is on record |
| ConfigToken.OneConfiguration | internal/core/session.go:456-497 | at most one configuration is sent, the "already delivered" branch is unreachable and nothing is sent after the close |
| ConfigToken.ArrivesExactly | internal/core/group.go:186-219 | in every interleaving a configuration can still be sent and received if and only if one has been sent or some worker of the first group has not ended |
| ConfigToken.TokenIsFreed | internal/core/group.go:220-226 | a holder that ends without delivering frees the token, one that delivered does not |
| ConfigToken.AnotherMayTry | internal/core/group.go:203-219 | when a holder fails any other worker of the first group at the head of its loop can win the token |
| ConfigToken.TokenIsNeverLeaked | internal/core/group.go:130-226 | the token is out exactly while somebody holds it or after delivery is recorded |
| ConfigToken.DeliveryIsFinal | internal/core/group.go:204-206 | after delivery the flag stays 1 for good, so the gap between load and compare-and-swap is harmless |
| Text.SpacesAre | internal/core/socks_router.go:42 | the characters that count as white space, by code point |
| Text.TrimSpaceExactly | internal/core/socks_router.go:42 | TrimSpace takes away the white space at both ends, all of it, and nothing else |
| Text.DecimalIsRead | subscription.go:307 | a number is written in decimal digits without leading zeros |
| SplitTunnel.Router.Update | internal/core/socks_router.go:39-54 | the lists become the cleaned names and the parsed networks |
| SplitTunnel.Router.Resolve | internal/core/socks_router.go:61-86 | for a name or an IPv4 literal: direct if and only if some network holds the address, or some listed name matches the non-empty name |
| SplitTunnel.ContainsExactly | internal/core/socks_router.go:102-115 | a block of length len holds exactly its address and the next 2^(32-len) - 1 |
| SplitTunnel.ListExactly | internal/core/socks_router.go:39-76 | after an update an address is direct if and only if some entry is that address, or a block whose address agrees with it in the first len bits |
| SplitTunnel.LookupIsLongest | wireguard_linux.go:531-533 | the kernel's lookup returns the hop of a longest prefix that holds the address, and none only if no prefix does |
| SplitTunnel.Routes.ApplyTurnIPsBypass | wireguard_linux.go:535-548 | the routes that were accepted, and only those, are set and noted |
| SplitTunnel.Routes.AddKernelBypassRoutes | wireguard_linux.go:593-602 | the same for bypass entries, added to what was noted before |
| SplitTunnel.Routes.Apply | wireguard_linux.go:384-402 | the whole table after connecting |
| SplitTunnel.Routes.Teardown | wireguard_linux.go:420-448 | all noted routes and the two half-space routes are deleted |
| SplitTunnel.HalvesCover | wireguard_linux.go:397-402 | 0.0.0.0/1 and 128.0.0.0/1 cover every IPv4 address, each exactly once |
| SplitTunnel.KernelDecision | wireguard_linux.go:384-402 | over any table of the machine's: the gateway gets an address if and only if a TURN or bypass entry holds it that no longer route of the machine, halves included, takes it from, or that table with the halves would send it there; else the tunnel gets it |
| SplitTunnel.GatewayExactly | wireguard_linux.go:384-402 | if none of the machine's routes leads into the tunnel: the gateway gets what an entry or a route of the machine, of length 1 or more, holds |
| SplitTunnel.DecisionsAgreeExactly | internal/core/socks_router.go:61-76 | on an address that no TURN route of length 1 or more holds, on a machine none of whose routes leads into the tunnel: router and kernel agree unless the machine has a route of its own to it, longer than a default route, that the list does not name, or has none and only a /0 entry holds it |
| SplitTunnel.DecisionsAgree | internal/core/socks_router.go:61-76 | with no /0 entry and every route of the machine but the default one in the list they agree on every address that is not a TURN address |
| SplitTunnel.TeardownRestores | wireguard_linux.go:420-448 | for every table, TURN and bypass list: the table after connecting and teardown is the one before if and only if neither half and no routed entry was in it |
| SplitTunnel.OwnRouteIsLost | wireguard_linux.go:435-443 | the failing input: a bypass entry for a network the machine has a route to takes that route away |
| SplitTunnel.MatchesIsLabelSuffix | internal/core/socks_router.go:81 | for all strings, the suffix test holds if and only if the labels of the listed name end the labels of the host |
| SplitTunnel.RouterMatchesLabels | internal/core/socks_router.go:78-85 | a host name is direct if and only if some listed name is, label by label, the host or an ancestor, ignoring case and one trailing dot |
| ShareLink.NonEmpty | url_parser.go:64-69 | the hashes are the non-empty trimmed pieces, in order |
| ShareLink.ParseWdttUrl | url_parser.go:37-88 | the parser is the function the theorems speak of, errors included |
| ShareLink.HashesReturn | url_parser.go:57-73 | password and hashes are recovered from the text after the fourth field, though the password may contain ':' |
| ShareLink.PasswordExactly | url_parser.go:59-73 | the password ends at the last colon; without one it is the whole text and there are no hashes |
| ShareLink.CleanExactly | url_parser.go:65-70 | hash items lose the white space around them, and blank items are left out |
| ShareLink.RefusedExactly | url_parser.go:38-77 | a link is refused if and only if it has fewer than five fields, or its host, port or password is empty |
| ShareLink.NameReturns | url_parser.go:48-57 | the name is what follows the last "#", trimmed; a blank one, or none, reads "Server" |
| ShareLink.ParsedIsPrintable | url_parser.go:37-88 | whatever the parser accepts is a link that survives printing |
| ShareLink.RoundTripExactly | commands.go:2492-2493 | parsing the printed link returns the same link if and only if it is printable; passwords are any non-empty strings |
| ShareLink.ParseIsStable | url_parser.go:37-88 | printing what was parsed and parsing again changes nothing |
| ShareLink.ShareableExactly | commands.go:2440-2493 | a profile survives sharing if and only if its peer splits into a host and a port at one colon, its password is non-empty, its hashes are clean list items and its shown name is trimmed, non-empty and free of '#' |
| ShareLink.SharedProfile | commands.go:2440-2493 | the reader gets the host before and the port behind the peer's colon, password, hashes, and the name without "ro-" |
| SliderTiles.AxisPartition | internal/core/captcha_v2_slider.go:383-386 | every pixel of an axis lies between exactly one pair of consecutive floor-division cuts |
| SliderTiles.TileOfPixel | internal/core/captcha_v2_slider.go:379-388 | in numbers: pixel x of n lies in tile k of g if and only if k*n < (x+1)*g <= (k+1)*n |
| SliderTiles.TilesPartition | internal/core/captcha_v2_slider.go:379-388 | the tiles are disjoint and cover the image, for every grid and image size |
| SliderTiles.TileIsInside | internal/core/captcha_v2_slider.go:379-388 | no tile leaves the image, and none is empty when the image is at least as large as the grid |
| SliderTiles.ScaledFits | internal/core/captcha_v2_slider.go:538-539 | the scaled offset of a destination pixel falls inside the source tile |
| SliderTiles.ScaledExactly | internal/core/captcha_v2_slider.go:529-541 | the offset is multiplied by the source width and divided by the destination width, rounded down |
| SliderTiles.ApplySliderSwaps | internal/core/captcha_v2_slider.go:356-377 | each error exactly when its condition holds; otherwise the array is the identity with the swaps applied in order |
| SliderTiles.RangeExactly | internal/core/captcha_v2_slider.go:368-373 | a list is in range if and only if each of its numbers is a tile |
| SliderTiles.AppliedPermutes | internal/core/captcha_v2_slider.go:356-377 | every in-range swap list gives a permutation of the tiles |
| SliderTiles.AppliedMoves | internal/core/captcha_v2_slider.go:364-376 | each place shows the tile that its swaps, followed backwards, started from |
| SliderTiles.BackwardsUndoes | internal/core/captcha_v2_slider.go:367-375 | the swaps read backwards undo it |
| SliderTiles.CandidatesFollowTheSlider | internal/core/captcha_v2_slider.go:345-354 | each candidate is the one before with one more swap |
| SliderSampling.PointFits | internal/core/captcha_v2_slider.go:529-541 | a destination pixel is read from inside the tile shown in its place |
| SliderSampling.BijectiveExactly | internal/core/captcha_v2_slider.go:529-541 | sampling is a bijection on the pixels for every arrangement if and only if the grid divides both sides |
| SliderSampling.AddSeam | internal/core/captcha_v2_slider.go:422-427 | one seam's sum |
| SliderSampling.SeamScore | internal/core/captcha_v2_slider.go:408-452 | the score is the sum of the gaps over all horizontal and vertical seams |
| SliderSampling.ScoreIsOfRearranged | internal/core/captcha_v2_slider.go:408-452 | the score of an arrangement is the score of the picture with its tiles really rearranged |
| SliderSampling.ScoreExactly | internal/core/captcha_v2_slider.go:408-452 | the score is the sum, over the inner grid lines from end to end, of how much the rearranged picture changes across each of their pixels |
| SliderSampling.ReadsInsideExactly | internal/core/captcha_v2_slider.go:408-452 | the score reads only points of the image, for every arrangement, if and only if the image has a pixel for every tile both ways (or the grid is 1, or the image is empty) |
| SliderRanking.OrderIsUnique | internal/core/captcha_v2_slider.go:219-225 | distinct candidates have one sorted order, so no schedule and no map order can show in it |
| SliderRanking.RankIsPosition | internal/core/captcha_v2_slider.go:226-229 | a candidate's position in the sorted order is the number of candidates before it |
| SliderRanking.RankMap | internal/core/captcha_v2_slider.go:226-229 | the map of ranks is the map of positions |
| SliderRanking.Ranks | internal/core/captcha_v2_slider.go:298-320 | sorting and numbering gives every member its rank |
| SliderRanking.Select | internal/core/captcha_v2_slider.go:291-296 | the second stage lists exactly the chosen candidates |
| SliderRanking.Collect | internal/core/captcha_v2_slider.go:282-289 | scores filed in any order of arrival end up with their candidates |
| SliderRanking.Combine | internal/core/captcha_v2_slider.go:322-331 | the consensus of every candidate |
| SliderRanking.RankGuesses | internal/core/captcha_v2_slider.go:219-342 | an error for no candidates; otherwise the ranking, whatever the order of arrival |
| SliderRanking.Arrange | internal/core/captcha_v2_slider.go:210-214 | each candidate's arrangement, or the error of its swap list |
| SliderRanking.ArrangementMoves | internal/core/captcha_v2_slider.go:210-214 | candidate k shows in each place the tile that the first k + 1 swaps bring there |
| SliderRanking.ScoresAre | internal/core/captcha_v2_slider.go:208-217 | each judge scores each candidate's own arrangement |
| SliderRanking.RankSliderGuesses | internal/core/captcha_v2_slider.go:202-343 | from the swap list to the ranking, with each error exactly when its condition holds |
| SliderRanking.RankingSorts | internal/core/captcha_v2_slider.go:333-342 | the ranking lists every candidate once, sorted by consensus, luma and position |
| SliderRanking.ScoresCount | internal/core/captcha_v2_slider.go:322-331 | RGB and text score each count by their rank among the finalists, once, and not at all for the others |
| SliderRanking.FirstAreFinalists | internal/core/captcha_v2_slider.go:231-238 | the first twelve by luma are those of rank below twelve |
| SliderRanking.FinalistBeatsOther | internal/core/captcha_v2_slider.go:322-341 | with 21 or more candidates a finalist precedes every other one; the tie at 33 is settled by luma and position |
| SliderRanking.SomeOvertakeFinalists | internal/core/captcha_v2_slider.go:322-341 | for each number from 13 to 20, scores for which a finalist is overtaken |
| SliderRanking.FinalistsFirstExactly | internal/core/captcha_v2_slider.go:231-341 | the twelve best by luma always lead if and only if there are at most 12 or at least 21 candidates |
| SliderRanking.BetterIsInFront | internal/core/captcha_v2_slider.go:322-341 | of two finalists the one better by all three scores stands in front |
| WgConfig.PatchLine | internal/core/wgconfig.go:17-43 | one turn of the loop, with the code's order of tests |
| WgConfig.PatchWgConfig | internal/core/wgconfig.go:8-45 | the loop computes the patched text |
| WgConfig.FlagIsSection | internal/core/wgconfig.go:16-22 | the flag holds if and only if the line belongs to a section opened by [Interface] |
| WgConfig.KindExactly | internal/core/wgconfig.go:17-40 | which lines open a section and which may be dropped: "[Interface]", other lines that begin with "[", with "DNS", with "MTU", after trimming |
| WgConfig.RewrittenExactly | internal/core/wgconfig.go:26-33 | a line is rewritten if and only if it begins with AllowedIPs and the text behind its first '=', trimmed, is one of the three spellings of "everything" |
| WgConfig.WrittenLines | internal/core/wgconfig.go:8-30 | the two lines the patch writes; the default MTU is 1380 |
| WgConfig.RewriteKeepsCoverage | internal/core/wgconfig.go:29-30 | the text that replaces 0.0.0.0/0 names two blocks that hold every IPv4 address, each in exactly one of them |
| WgConfig.PatchLines | internal/core/wgconfig.go:13-44 | splitting the output gives back the emitted lines |
| WgConfig.PatchIsIdempotent | internal/core/wgconfig.go:8-45 | patching twice is patching once, for every text and mtu |
| WgConfig.SectionsComeOutClean | internal/core/wgconfig.go:16-43 | each [Interface] line of the output is followed by the requested MTU line, and its section holds no other line that begins with MTU and none that begins with DNS |
| WgConfig.OrderIsKept | internal/core/wgconfig.go:16-43 | all lines that are not dropped come through in order, default AllowedIPs rewritten |
| WgConfig.PatchKeepsAndCleans | internal/core/wgconfig.go:8-45 | the two together, about the text before and after |
| WgMtu.ReadMtu | wireguard_linux.go:175-203 | the loop of parseWGConfig keeps the last assignment to mtu |
| WgMtu.AssignsExactly | wireguard_linux.go:181-203 | a line assigns the MTU if and only if, trimmed, it is neither a comment nor a section and the text before its first "=" is mtu in any case |
| WgMtu.MtuLineAssigns | internal/core/wgconfig.go:12 | the inserted line assigns the requested value when it is read back |
| WgMtu.RequestedMtuExactly | wireguard_linux.go:175-203 | the MTU read back is the requested one if and only if some [Interface] line, or surviving assignment of that value, is followed by no surviving assignment of another |
| WgMtu.SmallLetters | wireguard_linux.go:196-203 | `mtu=9000` is read as 9000, and the patch leaves it alone |
| WgMtu.SmallLettersWin | wireguard_linux.go:196-203 | an assignment in the section that the patch does not recognise wins |
| Subscription.ProfileStore.Save | profile.go:123-157 | refuses read-only names and fails when the file system does; else stores the profile with its subscription among its groups |
| Subscription.CompletedExactly | profile.go:123-157 | the subscription is appended to the groups if it is missing, and nothing else changes |
| Subscription.FewerUntried | subscription.go:304-312 | a taken candidate leaves fewer stored names to try: the search ends |
| Subscription.NamesAre | subscription.go:307 | made-up names are the own name, "_sub" and a number; read-only names begin with "ro-" |
| ImportName.NormalizeImportName | commands.go:2649-2664 | the loop and the trimming compute the normalised name |
| ImportName.NormalExactly | commands.go:2652-2663 | the names it returns are exactly those of small letters, digits, "-" and "_" without "_" at either end, and it leaves them alone |
| ImportName.LettersStay | commands.go:2654-2662 | every letter, digit and hyphen of the name stays, in small letters and in order |
| ImportName.BlanksAreMarked | commands.go:2657-2658 | a blank between two words becomes "_" |
| Subscription.FindFree | subscription.go:303-312 | the first free candidate from the counter on, and the counter behind it |
| Subscription.CreateProfiles | subscription.go:286-321 | store and list after the loop are those of the specification |
| Subscription.CreationIsSafe | subscription.go:286-321 | over any store: other owners' profiles that can be loaded survive, every listed name is stored as owned by the subscription and in its group, nothing else changes |
| Subscription.UnloadableIsLost | subscription.go:302-315 | the failing input: an entry called like a stored file that cannot be loaded overwrites it |
| Subscription.ForeignKeptExactly | subscription.go:286-321 | no list of entries can destroy a foreign file if and only if every foreign file within reach of the update can be loaded |
| Subscription.EntriesAreFiled | subscription.go:289-320 | every entry that converts and is not read-only is filed in order, under its own name or one made from it; the last one under a name stays |
| Subscription.RepeatsExactly | subscription.go:300-313 | a name repeats a listed one if and only if the entry's own name is already listed |
| Subscription.NameIsGiven | subscription.go:294-313 | each filed entry gets its own name if nobody else holds it, otherwise the first made-up one that neither the store nor an earlier entry has and that no entry whose saving failed has used up |
| Subscription.NamesRepeatExactly | subscription.go:300-313 | for every update: two filed entries get the same name if and only if the later one is called by the name that the earlier one got |
| Subscription.NamesIgnoreSettings | subscription.go:294-313 | what entries contain does not bear on the names they get |
| Subscription.AllStoredExactly | subscription.go:289-320 | for every update: all filed entries keep their profiles if and only if each one that is called by a name an earlier one gets, as known before the update, says the same as that |
| Subscription.SameNameCollapses | subscription.go:302-319 | two entries with the same free name: both listed, only the second stored |
| Subscription.MadeUpNameCollapses | subscription.go:302-319 | the other failing input: somebody else holds the first entry's name and the second is called by the name made up for it: both listed, only the second stored |

## Left out

- The cipher, HKDF, DTLS, TURN and WireGuard themselves: library code; the AEAD appears through the laws of `Ideal`.
- The computational strength of the AEAD: `Unforged` is a hypothesis on what the network delivers, not a consequence of a model of attack.
- Random draws (initial counters, SSRC, padding, delays): parameters within their ranges.
- ReplayRuns.ReplaySafety: speaks of runs whose 64-bit clock stays below 2^64 - 2^33; ReplayRuns.ClockBound shows that the first 2^32 packets cannot leave it.
- DirectChannel.NothingInvented: for at most 2^48 writes, the period of the nonce.
- DirectChannel.DirectConn.Read: timeouts and closing of the relay are one error; of TURN only the error for a packet longer than the buffer is modelled.
- SplitTunnel.TeardownRestores: routes are told apart by their prefixes alone; metrics, and routes noted before connecting, are not modelled.
- The AEAD cache, the mode names of `NewObfsConfig` and the `Close` and deadline methods of the connection: nothing to prove.
- Real time beyond the clock readings passed to each packet; logging, statistics and first-packet diagnostics.
- DispatcherRuns.RunConserves: a slot's two queues are followed separately; the order in which the session's writer alternates between them is not modelled. Packets that remain in PrioCh at `Unregister` are counted as having left.
- Lifecycle.RunKeepsInvariant: readLoop may try the slots in any order and give up at any time, and a goroutine may end at any time, so the model has more behaviours than the code. The writer's receive from a closed SendCh is not modelled, since the writer has ended before the close. The pool's refusal of buffers below 2048 bytes and the garbage collection of pooled buffers are not modelled.
- Cancellation and error classification of sessions, credentials, the relay race of groups, retry delays and worker numbering in group.go and core.go: none of it touches the token or the queues.
- ConfigToken.OneConfiguration: the consumer's exit on cancellation is covered as a consumer that never receives.
- Parsing of IP and CIDR text, DNS resolution, gateway discovery and netlink: entries arrive parsed, refusals as a set of prefixes. IPv6 destinations are not modelled, neither in the router nor in the kernel table; an IPv6 entry concerns no IPv4 address.
- String operations work on characters rather than UTF-8 bytes, and lower-casing covers ASCII only.
- `qwdtt://` links, the stored link file of `shareCmd` and the group and flag handling around the printer: user interface.
- The 64-bit seam score cannot overflow for any image that fits in memory; it is an unbounded integer here. The RGB and text scores visit the same seams and enter the ranking as given numbers; the floating-point text score is an integer, since only its order matters.
- SliderRanking.RankSliderGuesses: the RGB and text scores of all candidates are computed beforehand, those of the finalists alone are used; Go's stable sort is an insertion sort, which OrderIsUnique shows to make no difference.
- Cursor generation, captcha network sessions, fingerprints and WebView handling: network clients and randomness.
- ImportName.NormalizeImportName: Cyrillic letters are transliterated before; the table of letters is not modelled.
- The conversion of a subscription entry to a profile: an entry arrives with its normalised name, or as one that does not convert.
- Subscription.ProfileStore.Save: the device identifier and files left half written are not modelled; file names are taken to be distinct for distinct profile names.
- Cleaning of passwords when a profile is loaded.
- WgMtu.RequestedMtuExactly: about the string that is read; other errors of the configuration parser and lines beyond its scanner's limit are not modelled.
- The removal phase of `applySubscription`, which deletes every previously listed profile, and the saving of the subscription record.
- Command-line parsing, listing, colours, QR output, daemonising, shell completions and packaging.
