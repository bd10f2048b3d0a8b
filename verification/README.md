# A verified model of aprgo

aprgo is an APRS station: a digipeater and a gateway between the radio channel and APRS-IS. This
project models the parts of it whose behaviour unfolds over many packets, many stations or many
bytes, and proves what they guarantee over all inputs and all runs.

**The relay protocol.** `Gate` is one station's decision: which frames it repeats and under which
path, which it passes to APRS-IS, and which lines from APRS-IS it puts on the air. `GateRules` says
the same without the order of the checks. `RelayNetwork`, `Lineages` and `LoopFreedom` let any number
of differently configured stations hear each other, over the real wire formats, and follow one
transmission through the network: how far it can travel, how hops are counted, and that no station
repeats its own repeat. `FarthestLineage` is a run that goes all the way,
and `RelayRequests` bounds a run by what the path asks for. `HeardHops` is what hops of readable
frames look like, and `HeldAliases` which stations hold repeats of regional aliases.
`Tracker` and `Responder` are the courtesy positions gated after a message.

**The filters.** `Viscous`, `Dupe` and `RateLimit` are the classes behind the parse loop, each with
a timed specification; `Station` composes them with the decision and the wire formats in the loop's
order, and `StationRuns` proves what the composition guarantees for the bytes that are sent, over
every interleaving of arrivals, timers and shutdown. `SpacingLimits` and `CarelessSender` show how
far that reaches, and `StationRules` when exactly a packet adds a repeat, how many of one source
there can be, and that a held one is kept until it is due.

**The codecs.** `Kiss` and `Ax25` are the radio framing, `FrameLayouts` says which octets they are, and
`Link` joins them end to end; `Tnc2` is the
APRS-IS line; `Position`, `Message` and `ThirdParty` are printers with their parsers; `Utf8` is the
cleaning of free text.

**The counters.** `MsgId` is the crash-safe allocator of message IDs, `Feed` the ring behind the
dashboard's live feed.

`GoText` holds the parts of Go's string library that the code uses, `Packets` the shared records,
`Content` the key by which a packet's content is recognised.

## How it is modelled

- Objects that the program updates in place are classes with the same fields; every method is proved
  against a function of the old state, and the properties are lemmas about runs of those functions.
  Loops of the program are loops here.
- A Go string is a Dafny string whose characters stand for octets. Bytes are a type from 0 to 255.
- The clock is an argument of each call. Where a property needs a clock that never goes back, a
  predicate `Timely` says so; everything else holds for any clock.
- Positions are counted in hundredths of a minute, with real arithmetic for the coordinates.
- A turn of the parse loop is one step at one instant. The program takes several locks in a turn and
  reads the clock under each, and a timer's callback can run in between.
- The viscous queue's races are modelled at the granularity of its critical sections: a timer may
  expire, its callback may enter the lock, and the transmission may follow, with any other step between.

## Where the code and its description differ

The model follows the code in each case.

- The code holds back a repeat for every token of width 1, so also for a regional alias such as `AZ1-1`,
  while its comments describe holding as a courtesy of fill-in stations handling `WIDE1-1`. When
  exactly this can happen is `GateRules.HeldExact` and `HeldAliases.AliasesHeldExact`.
- The limiter's minute is a fixed window that opens with a packet, not a rolling one. Its real bound
  over any 60 seconds is twice the threshold less one, and that is attained (`RateLimit.RateBound`,
  `RateLimit.RateBoundTight`). Its clean-up runs once a minute only, not on every new source.
- A restart skips at most 99 message IDs, one less than a block (`MsgId.CounterStep`).
- The splitter's cap counts escaped bytes. A frame is delivered under every chunking exactly if its
  type byte and escaped payload fit 4096 bytes (`Kiss.DeliveryExact`).
- The decoder looks only at the part of a callsign before its first dash, so decoding, encoding and
  decoding again is the identity exactly for well-formed callsigns (`Ax25.ReencodeExact`).
- A repeat goes out under the canonical form of its sender and destination, and is marked in the
  duplicate table under that form, with the table's answer ignored; the packet itself was looked up as
  heard. The spacing of equal transmissions, and the cancellation of a held one by another station's
  copy, therefore hold exactly for packets whose source and destination were well-formed as heard. A
  frame from "AB-03" can be repeated a millisecond after the same frame from "AB-3", as the very same
  bytes (`SpacingLimits.SpacingExact`, `StationRuns.CancelledInHold`, `CarelessSender.CarelessPair`).
- A station whose configured callsign is not in the form the air carries, such as one with SSID 0,
  does not recognise its own repeat and repeats it (`LoopFreedom.RepeatsItselfExact`).

## Model

| member | source | states |
|---|---|---|
| Lineages.LineageBound | internal/gate/gate.go:122-533 | In any network of stations one transmission is repeated at most 16 times along any line of descent, crosses to APRS-IS at most once and back at most once: at most 18 moves, without any premise on configurations or callsigns |
| FarthestLineage.BoundAttained | internal/gate/gate.go:122-533 | The bound is exact: every packet with a position that may be gated and fits a line can make all 18 moves, 16 of them repeats, two by each of the same eight stations |
| FarthestLineage.TrailPlan | internal/gate/gate.go:275-291 | The k-th digipeater on that way repeats the frame and leaves its mark in the k-th place |
| FarthestLineage.Leg | internal/gate/gate.go:203-319 | From any point of an eight-hop path the frame, encoded and decoded at each station, is repeated to the path's end |
| FarthestLineage.GatedLine | internal/igate/igate.go:363-382 | The gated line passes the length limit and is read out of the server's stream unchanged |
| Lineages.StepSpends | internal/gate/gate.go:147-319 | Every step of any station uses up one move of its kind from what its signal has left, and gives back none of any kind, through encoding, sending, reading and parsing |
| Lineages.RepeatOnWire | internal/gate/gate.go:295-299 | What a repeat puts on the air decodes to the planned path in canonical form with the information bytes untouched |
| LoopFreedom.NeverTwice | internal/gate/gate.go:203-342 | In any lineage, between two repeats by one station the packet was put on the air anew from APRS-IS, if that station's callsign is well-formed but for letter case; no premise on the others |
| LoopFreedom.AtMostTwice | internal/gate/gate.go:203-342 | Hence no such station repeats one transmission more than twice, which BoundAttained shows to happen |
| LoopFreedom.RepeatsDiffer | internal/gate/gate.go:203-342 | Of stations repeating a frame one after the other, none is the first again |
| LoopFreedom.AfterGating | internal/gate/gate.go:122-182 | A line gated to APRS-IS is followed by nothing but its return to the air |
| LoopFreedom.RepeatsItselfExact | internal/gate/gate.go:203-299 | A station can repeat a descendant of a repeat under its callsign, with no return from APRS-IS between, if and only if it transmits, is a fill-in or a full digipeater, and its callsign can be sent but is not well-formed; a preempt-only station never does |
| LoopFreedom.SelfRepeatExists | internal/gate/gate.go:203-299 | For every such station there is a frame that it repeats twice in a row |
| RelayRequests.RepeatsAsked | internal/gate/gate.go:203-342 | Among stations with the same aliases, whatever their callsigns and roles, a transmission is repeated at most as often as its path asks for, plus what the paths ask for under which it is put on the air anew |
| RelayRequests.RowAsked | internal/gate/gate.go:203-342 | In particular the repeats in a row are no more than the path asks for |
| RelayRequests.PlanAsks | internal/gate/gate.go:258-342 | Every planned repeat, flood or preemptive, answers at least one request |
| RelayRequests.CanonAsks | internal/ax25/ax25.go:60-115 | Going over the air raises no hop's request |
| LoopFreedom.CanonIsUpper | internal/ax25/ax25.go:60-115 | What a callsign becomes on the air equals what stations compare exactly if it is well-formed but for case |
| RelayNetwork.FloodAccounting | internal/gate/gate.go:258-294 | A flood repeat leaves all other hops in place and order, puts the used callsign in the token's place, uses exactly one more hop and lowers the relays still asked for by exactly one |
| RelayNetwork.TokenRemaining | internal/gate/gate.go:281-291 | The rewritten token is read back, by the same rules and aliases, as a token of the same width asking for exactly one relay less |
| RelayNetwork.WidthKept | internal/gate/gate.go:275-291 | On the planned path: it grows exactly for a token of two relays, and what stays there has the same width and asks for one relay less |
| HeardHops.TokenFollowedUp | internal/gate/gate.go:281-291 | A token such as WIDE2-2 is followed up, behind our used mark, as WIDE2-1: name and width as written, for every alias that ends in a letter |
| RelayNetwork.PreemptAccounting | internal/gate/gate.go:326-342 | A preemptive repeat marks everything up to its own slot, keeps every name and everything behind the slot, and uses at least one more hop |
| RelayNetwork.PlanUsesHop | internal/gate/gate.go:203-299 | Every repeat strictly raises the number of used hops within the cap of eight and keeps used hops in front of unused ones |
| RelayNetwork.FloodKeepsOrder | internal/gate/gate.go:275-291 | Replacing the first unused hop by a used one keeps used hops in front |
| RelayNetwork.PlanStamps | internal/gate/gate.go:274-342 | After a repeat the first occurrence of the station's call in the path is marked used |
| RelayNetwork.PlanKeepsStamp | internal/gate/gate.go:203-342 | No repeat by any other station removes such a mark |
| RelayNetwork.StampRefused | internal/gate/gate.go:227-231 | A station refuses a frame that bears its mark |
| GateRules.PlannedExact | internal/gate/gate.go:203-294 | A repeat is planned exactly when the frame is somebody else's and some hop is the station's turn: its own unused call with opt-in, or, where it is not named, the first unused hop being a token of its role that still fits |
| GateRules.RepeatedExact | internal/gate/gate.go:122-299 | Bytes heard are repeated exactly when they can be read, the station transmits under a sendable callsign, the frame is somebody else's, its ends and other hops can be sent again, and some hop is the station's turn, with a token that can be sent again if it stays |
| GateRules.FloodEncodes | internal/gate/gate.go:275-298 | The path of a flood repeat encodes exactly if the callsign and the other hops do, and a token of two relays itself |
| HeardHops.RewrittenSendable | internal/gate/gate.go:281-291 | The rewritten token can be sent exactly if the token can |
| HeardHops.HeardHop | internal/ax25/ax25.go:134-147 | Every decoded hop has an accepted base, no small letters, and at most six seven-bit characters with an SSID |
| GateRules.HeldExact | internal/gate/gate.go:304-318 | A repeat is held if and only if holding is on, the station is not named in the path and the token has width 1, WIDE or alias |
| HeldAliases.AliasesHeldExact | internal/gate/gate.go:269-318 | Some readable frame's alias token is repeated and held if and only if the station transmits under a sendable callsign, holding and full digipeating are on, and some alias has 1 to 5 seven-bit characters, is neither WIDE nor WIDE0, and starts with letters and digits up to its first dash |
| HeldAliases.KeyOfHeld | internal/gate/gate.go:351-376 | A heard alias token of width 1 can only be of such an alias |
| HeldAliases.AliasHeld | internal/gate/gate.go:269-318 | For every such alias a frame is built whose token is repeated and held |
| GateRules.AliasIsHeld | internal/gate/gate.go:304-318 | The alias case occurs |
| GateRules.PathRefusalExact | internal/gate/gate.go:158-171 | A path bars gating exactly when some hop, bared and upper-cased, is an opt-out, an APRS-IS mark or a q-construct |
| GateRules.RefusalReason | internal/gate/gate.go:158-171 | The first such hop gives the reason: opt-out, already from APRS-IS, or already gated |
| GateRules.ActionsExact | internal/gate/gate.go:122-145 | The actions for a frame heard are its repeat, its gating if configured, and a drop if there is neither |
| GateRules.GatedToISExact | internal/gate/gate.go:147-182 | When exactly a frame from the air goes to APRS-IS, and the line it goes as: header, path, qAR or qAO by what the station can bring back, callsign and information |
| GateRules.NotGated | internal/gate/gate.go:147-182 | Why a frame is not gated, each reason with its exact condition |
| GoText.EqualFoldExact | internal/gate/gate.go:148 | Callsigns are equal but for case exactly if they are as long and differ only in letters of the other case |
| GateRules.PutOnAirExact | internal/gate/gate.go:400-505 | When exactly a packet from APRS-IS goes on the air, and as what: our frame to APRGO with the third-party form, TCPIP* and our mark included, under the configured path for a position and none for a message |
| GateRules.NotPutOnAir | internal/gate/gate.go:400-484 | Why a packet is not put on the air, each reason with its exact condition |
| GateRules.PathSetting | internal/gate/gate.go:30-46 | A path setting separated by commas is the path, element by element, each trimmed |
| GateRules.PathElements | internal/gate/gate.go:36-41 | Blank elements of it are left out and no other |
| GateRules.FirstAlias | internal/gate/gate.go:351-376 | Of several aliases that a hop is a token of, the first configured one counts |
| GateRules.AliasRead | internal/gate/gate.go:357 | Aliases are read in any case and with blanks around them |
| Gate.ScanPath | internal/gate/gate.go:209-223 | One scan finds both the first unused hop and the first hop naming the station |
| Gate.BuildPreemptPath | internal/gate/gate.go:326-342 | The loop builds the marked path that PreemptAccounting is about |
| Gate.ParseFloodAlias | internal/gate/gate.go:351-376 | The loop finds the first configured alias of which the hop is a token |
| Gate.FloodAction | internal/gate/gate.go:243-307 | The statement-by-statement flood case agrees with the specification the accounting lemmas are about |
| Gate.DigipeatAction | internal/gate/gate.go:203-319 | The digipeat decision with its early exits agrees with the specification the network lemmas are about |
| Gate.RfToISAction | internal/gate/gate.go:147-182 | The gating decision with its loop over the path agrees with the specification of GatedToISExact |
| Gate.BuildGatedTNC2 | internal/gate/gate.go:514-533 | The built line is the header with every hop, the q-construct and the callsign, then the information, as ReadBackExact reads it |
| Gate.DecideFromRF | internal/gate/gate.go:122-145 | The actions for a frame from the air: a repeat, then a gating or a reasoned drop, or one drop if nothing is configured |
| Tnc2.ReadBackExact | internal/igate/igate.go:328-357 | A gated line parses back to the same source, destination, path and information, with q-construct and gateway appended, if and only if its header holds no stray separator |
| Tnc2.ParseHeaderExact | internal/igate/igate.go:335-346 | The header part of that, exact as well |
| Tnc2.SentExact | internal/igate/igate.go:363-382 | A packet is queued with one line end if both have at most 512 bytes, and otherwise refused |
| Tnc2.LineRead | internal/igate/igate.go:293-318 | A line is read up to its line feed; blank lines and comments are skipped |
| Tracker.MessagedRecipientTracker.Record | internal/gate/tracker.go:31-52 | The table is the swept table with the new entry, never above 4096 entries, and the cap drops only entries that expire no later than any that stay |
| Tracker.MessagedRecipientTracker.Oldest | internal/gate/tracker.go:43-49 | The eviction loop finds an entry of minimal expiry |
| Tracker.MessagedRecipientTracker.Consume | internal/gate/tracker.go:54-67 | Granted exactly to an unexpired entry, which is removed whether granted or not |
| Tracker.MessagedRecipientTracker.Gc | internal/gate/tracker.go:70-77 | The sweep leaves exactly the unexpired entries |
| Responder.DecideFromIS | internal/gate/gate.go:400-505 | The decision with the tracker in hand: the action and the exact effect on the table, branch by branch |
| Responder.Decide | internal/gate/gate.go:102-120 | Which decision is taken for which origin, and that only packets from APRS-IS touch the tracker |
| Responder.GatedMeans | internal/gate/gate.go:423-505 | Positions on the air are exactly those the tracker grants, messages exactly those that pass the message rules |
| Responder.PositionBudget | internal/gate/gate.go:423-436 | Over every run a station has at most as many positions gated as messages before them |
| Responder.MessageBetweenPositions | internal/gate/gate.go:417-490 | Between two gated positions of a station one of its messages was gated |
| Responder.SweepUnobservable | internal/gate/tracker.go:31-77 | Every run with a clock that does not go back is, answer for answer, one of a tracker with the same cap that never sweeps: when that overflows, the cap takes an expired entry |
| Responder.SweepHarmless | internal/gate/tracker.go:31-77 | Conversely every run of the tracker without sweeps is, answer for answer, one with them |
| Responder.GrantedExact | internal/gate/tracker.go:31-67 | Over every run a station is granted a position only while one is owed: from a gated message of it for the time to live, until the tracker is asked; unless the cap evicted, exactly then |
| Viscous.ViscousQueue.Enqueue | internal/server/viscous.go:67-98 | Accepted exactly if open and the content is not already held; the map gains exactly the new entry |
| Viscous.ViscousQueue.TimerCallback | internal/server/viscous.go:80-95 | Commits to fire exactly if its own entry is still stored and the queue is open; removes only its own entry |
| Viscous.ViscousQueue.CancelIfQueued | internal/server/viscous.go:103-113 | True exactly if the content was held, and it is then gone |
| Viscous.ViscousQueue.Stop | internal/server/viscous.go:54-62 | Closed and empty afterwards |
| Viscous.ResolvedOnce | internal/server/viscous.go:54-113 | In every interleaving of enqueue, expiry, callback, cancel, stop and fire, each accepted entry is resolved exactly once or still pending |
| Viscous.AcceptedExact | internal/server/viscous.go:67-98 | In every interleaving an entry is accepted if and only if the queue was never stopped and every earlier accepted entry of its content has been resolved |
| Viscous.FiresExact | internal/server/viscous.go:80-95 | A callback commits to transmit if and only if its entry has not been resolved before |
| Viscous.CancelledNeverFires | internal/server/viscous.go:103-113 | An entry that a cancellation hit is transmitted neither before nor after |
| Viscous.FiresAtMostOnce | internal/server/viscous.go:80-95 | Every entry is transmitted at most once |
| Viscous.CallbackTouchesOwn | internal/server/viscous.go:80-95 | A stale callback neither removes nor fires a newer entry under the same key |
| Viscous.NothingAfterStop | internal/server/viscous.go:54-72 | After Stop nothing is accepted and no callback commits |
| Viscous.CommittedMayOutliveStop | internal/server/viscous.go:80-95 | A callback committed before Stop may transmit after it |
| Dupe.DupeTable.CheckAndMark | internal/server/dupe.go:25-51 | Answer and new table, including when the sweep runs and what it leaves |
| Dupe.DupeTable.Sweep | internal/server/dupe.go:42-49 | The deleting loop leaves exactly the entries not older than the window |
| Dupe.SweepUnobservable | internal/server/dupe.go:25-51 | Over every run the answers are those of a table that never sweeps |
| Dupe.FreshSpacing | internal/server/dupe.go:30-33 | Two fresh answers for one content are at least the window apart |
| Dupe.DupeWitness | internal/server/dupe.go:30-33 | A duplicate answer has a fresh one for the same content less than the window before it |
| Dupe.FreshExact | internal/server/dupe.go:30-33 | A mark is answered fresh if and only if every earlier fresh one of its content is at least the window older |
| Dupe.SizeBound | internal/server/dupe.go:38-49 | The size never exceeds 512 or twice the size after the last sweep |
| Dupe.SweepsAmortized | internal/server/dupe.go:34-49 | All sweeps together walk at most two entries for each key ever inserted |
| RateLimit.SourceRateLimiter.Allow | internal/server/ratelimit_source.go:46-91 | Verdict and new buckets in every case, with the periodic clean-up |
| RateLimit.SourceRateLimiter.MaybeCleanup | internal/server/ratelimit_source.go:97-103 | The deleting loop leaves exactly the buckets that are not idle |
| RateLimit.SourceRateLimiter.IsBlocked | internal/server/ratelimit_source.go:107-118 | True exactly while a block is running |
| RateLimit.CleanupUnobservable | internal/server/ratelimit_source.go:58-103 | Every Allow and IsBlocked is answered as by a limiter that never cleans up |
| RateLimit.RateBound | internal/server/ratelimit_source.go:68-90 | In any half-open minute of any run at most twice the threshold less one of a source's packets are allowed, for threshold at least 1 and timeout at least a minute |
| RateLimit.RateBoundTight | internal/server/ratelimit_source.go:68-90 | That bound is attained for every threshold and timeout |
| RateLimit.BlockSilences | internal/server/ratelimit_source.go:67-89 | From the packet that trips the limit to the end of the timeout nothing is allowed and nothing is announced again |
| RateLimit.RefusedMeans | internal/server/ratelimit_source.go:67-90 | A packet is refused only because it, or an earlier one within the timeout, came in a minute with more packets than the threshold: a source that keeps to it is never refused |
| RateLimit.AllowedAgain | internal/server/ratelimit_source.go:68-77 | The first packet at or after the end of a block is allowed |
| RateLimit.BlockedExact | internal/server/ratelimit_source.go:107-118 | The stations page shows a source as blocked exactly from the packet that trips the limit to the end of the timeout |
| RateLimit.WindowFactsHold | internal/server/ratelimit_source.go:62-90 | The invariant tying the stored count and window to the packets actually allowed in the run |
| RateLimit.BeforeWindow | internal/server/ratelimit_source.go:78-83 | In the minute before a window opened fewer than the threshold got through |
| Station.Filters.HearRF | internal/server/server.go:519-590 | One turn of the loop on bytes heard: cancel first, then duplicate, distance, rate limit, decision; exact outcome, bytes sent and the new state of all three filters |
| Station.Filters.CarryOut | internal/server/server.go:834-863 | The loop over the decided actions sends or holds exactly the repeat among them |
| Station.Filters.Dispatch | internal/server/server.go:1055-1061 | A transmission marks the content of the bytes it sends |
| Station.RepeatInFront | internal/gate/gate.go:122-145 | The decided actions hold at most one repeat, in front |
| StationRuns.InvAt | internal/server/server.go:519-590 | Over every run, held, committed and sent repeats stem from distinct fresh marks of the content heard, and are what some configuration repeats it as |
| StationRuns.TableFollows | internal/server/server.go:519-590 | The history of marks gives the very table that one turn of the loop leaves |
| StationRules.HearAddsExact | internal/server/server.go:519-590 | Over every run a packet adds a transmission or a held repeat if and only if no fresh mark of its content lies within 30 seconds, it is not too far away and its source is within 30 a minute, with the decision and the open queue; exactly which |
| StationRules.RepeatRate | internal/server/server.go:568-590 | Of the packets heard from one source in any minute at most 59 are repeated |
| StationRules.HeldCommits | internal/server/viscous.go:80-95 | A held repeat whose content is not heard again, at a station that is not shut down, commits when it expires |
| StationRules.EchoDropped | internal/server/server.go:1055-1061 | For every transmission there is a mark less than 30 seconds old from which on, for 30 seconds, no packet of the transmitted content is repeated or held |
| StationRuns.Spacing | internal/server/server.go:1019-1071 | Two transmissions of packets heard with one content are a duplicate window apart, up to the difference of their holds |
| StationRuns.HeardContentSpaced | internal/server/server.go:1019-1071 | They are at least 25 seconds apart, and at least 30 if the earlier was not held |
| StationRuns.SameContentSpaced | internal/server/server.go:1019-1071 | The same for two transmissions whose bytes carry one source, destination and information, if sources and destinations were well-formed as heard |
| SpacingLimits.SpacingExact | internal/server/server.go:1044-1071 | Of two packets repeated as one content, the second never follows too soon if and only if both were heard with the same content |
| SpacingLimits.SpacedIffWellFormed | internal/server/server.go:1044-1071 | Against a packet heard well-formed that is if and only if the other was too, in either order |
| SpacingLimits.LeastSpacing | internal/server/viscous.go:76-78 | The 25 seconds are attained by every packet whose repeat is held |
| CarelessSender.CarelessPair | internal/ax25/ax25.go:164-214 | A readable frame from "AB-03" and one from "AB-3" are repeated as the same bytes and can follow each other at once |
| StationRuns.CancelledInHold | internal/server/server.go:519-533 | Another copy of what a held repeat would transmit gives it up for good, whatever follows, if and only if its source and destination were well-formed as heard |
| Content.RepeatKeepsKey | internal/server/server.go:1055-1061 | A repeat is marked under the key its packet was heard under if and only if source and destination were well-formed as heard |
| Content.CanonKeyExact | internal/ax25/ax25.go:60-115 | The canonical ends give the same key exactly if they are the ends |
| Content.KeyExact | internal/server/server.go:520-521 | Packets have the same key exactly if source, destination and information agree, as long as no separator occurs in the callsigns |
| Kiss.EncodeKiss | internal/ax25/kiss.go:39-54 | The loop produces the framed, escaped payload that EscapeRoundTrip inverts |
| Kiss.DecodeKiss | internal/ax25/kiss.go:58-92 | The loop with its error cases agrees with the specification of unescaping |
| Kiss.EscapeRoundTrip | internal/ax25/kiss.go:39-92 | Unescaping inverts escaping at any offset of a segment |
| Kiss.EscapeShape | internal/ax25/kiss.go:42-51 | Escaped bytes hold no FEND and at most twice the length |
| Kiss.EscapeCodes | internal/ax25/kiss.go:39-54 | C0 is written DB DC, DB is written DB DD, everything else as it is, between C0 00 and C0 |
| Kiss.BadEscape | internal/ax25/kiss.go:68-87 | An escape before anything but these codes is dropped with what follows it; at the end it is dropped alone |
| Kiss.DataExact | internal/ax25/kiss.go:59-64 | A segment is data exactly if the low half of its type octet is zero and something follows |
| Kiss.IndexByte | internal/ax25/kiss.go:148-155 | The first occurrence or -1 |
| Kiss.KissFrameSplitter.Push | internal/ax25/kiss.go:110-138 | Over a real array window: what comes out are the complete segments of buffer plus input, what stays is their tail, or nothing if over the cap |
| Kiss.KissFrameSplitter.Drain | internal/ax25/kiss.go:113-137 | The loop that cuts segments off and reclaims space |
| Kiss.KissFrameSplitter.Slide | internal/ax25/kiss.go:127-136 | Sliding and compaction change the array but not the contents |
| Kiss.KissFrameSplitter.Compact | internal/ax25/kiss.go:132-136 | The copy has the same contents and half the capacity to spare |
| Kiss.KissFrameSplitter.Append | internal/ax25/kiss.go:111 | Appending in place or into a larger array adds exactly the input |
| Kiss.KissFrameSplitter.Reset | internal/ax25/kiss.go:142-144 | Empty afterwards, on the same array |
| Kiss.SplitResumes | internal/ax25/kiss.go:110-138 | Splitting may stop after any byte and resume with only the tail remembered |
| Kiss.ChunkingInvisible | internal/ax25/kiss.go:110-138 | While no tail of the stream exceeds the cap, output and buffer do not depend on the chunking and the reset never fires |
| Kiss.StreamDelivered | internal/ax25/kiss.go:39-138 | Any sequence of fitting frames, cut up in any way, comes out exactly and in order, with nothing left behind |
| Kiss.ShortFramesFit | internal/ax25/kiss.go:105 | Every frame of 1 to 2047 bytes fits |
| Kiss.FitsExact | internal/ax25/kiss.go:105-119 | Fitting means not empty and at most 4095 bytes once escaped |
| Kiss.DeliveryExact | internal/ax25/kiss.go:107-138 | A frame survives every chunking if and only if it fits |
| Kiss.LateFendLosesFrame | internal/ax25/kiss.go:116-119 | The chunking that loses a frame that does not fit |
| Link.LinkDelivers | internal/ax25/kiss.go:38-138 | Packets whose frames fit the splitter, encoded, framed, cut up, split, unescaped and decoded, arrive exactly, in order, in canonical form |
| Ax25.EncodeUIFrame | internal/ax25/ax25.go:23-54 | The encoder with its early errors agrees with the specification that FrameRoundTrip inverts |
| Ax25.EncodeDigis | internal/ax25/ax25.go:40-49 | The loop collects all address fields or stops at the first error |
| Ax25.DecodeUIFrame | internal/ax25/ax25.go:119-162 | The decoder with all its errors agrees with the specification |
| Ax25.DecodeDigis | internal/ax25/ax25.go:134-147 | The loop over the path stops where the specification says, with the same hops |
| Ax25.AddressRoundTrip | internal/ax25/ax25.go:60-185 | An address field gives back the callsign in canonical form, the end bit and the used bit |
| Ax25.FrameRoundTrip | internal/ax25/ax25.go:23-162 | Whatever is encoded decodes to the canonical callsigns, every used mark and the identical information bytes |
| Ax25.EncodeSucceeds | internal/ax25/ax25.go:23-115 | Encoding fails only on too long a path or a callsign that cannot be sent |
| Ax25.DecodedPathLimit | internal/ax25/ax25.go:135 | No decoded path is longer than eight |
| FrameLayouts.ReadableExact | internal/ax25/ax25.go:119-162 | Exactly which bytes can be read: end bits, bases, limit of eight, control with or without the poll bit, no layer 3 |
| FrameLayouts.ReadableFields | internal/ax25/ax25.go:119-162 | What is read from them, field by field |
| FrameLayouts.PollBit | internal/ax25/ax25.go:156-159 | The poll bit changes nothing that is read |
| FrameLayouts.AddressOctets | internal/ax25/ax25.go:60-84 | The octets of an address field: shifted capitals, shifted blanks, and 60 with SSID, end bit and used bit |
| FrameLayouts.FrameOctets | internal/ax25/ax25.go:23-54 | The octets of a frame in order, with the end bit in the last address and the used bit in marked hops |
| FrameLayouts.SendableCallExact | internal/ax25/ax25.go:86-115 | Which callsigns can be sent: blanks around the base apart, one to six letters and digits and a number up to 15 |
| GoText.AtoiExact | internal/ax25/ax25.go:108 | Numbers as they are read: an optional sign, then decimal digits |
| FrameLayouts.TooManyExact | internal/ax25/ax25.go:24-26 | A path is refused as too long exactly if it has more than eight hops |
| Ax25.CanonFixpoints | internal/ax25/ax25.go:86-115 | The callsigns carried unchanged are exactly the well-formed ones |
| Ax25.ReencodeExact | internal/ax25/ax25.go:119-214 | Decode, encode, decode is the identity exactly when all decoded callsigns are well-formed |
| Ax25.ReencodeCanDiffer | internal/ax25/ax25.go:192-214 | A frame for which it is not |
| Position.ApplyAmbiguity | internal/state/state.go:632-653 | The loops blank exactly the digits of the clamped level, leaving anything of another length alone |
| Position.FieldScans | internal/aprs/info.go:573-646 | The decoder reads every composed field back digit by digit, with blanks filled in and the level recovered |
| Position.FilledError | internal/aprs/info.go:599-622 | How far filled-in minutes are from the blanked ones, per level |
| Position.ComposedField | internal/state/state.go:571-613 | What the composer prints for every position and symbol, with symbol octets above 127 as two |
| Position.ComposeDecode | internal/aprs/info.go:573-661 | For every position on earth but 0,0: symbol, level, comment and hemispheres come back, and each axis within 0.01 minute plus 0, 0.05, 0.55, 5.55 or 35.55 minutes |
| Position.ReencodeExact | internal/state/state.go:571-613 | A field that decodes prints the same nineteen characters again exactly when it has no blanks, is not 0,0 and writes its hemispheres canonically |
| Position.AcceptedExact | internal/aprs/info.go:624-646 | A field is accepted if and only if, its blanks filled in, it is a printed form of a position on earth, in either case of the hemispheres |
| Position.AcceptedFix | internal/aprs/info.go:647-656 | The coordinates are those of the form |
| Position.DataType | internal/state/state.go:579-582 | The first character is '=' if messages are on and '!' if not |
| Position.CommentExact | internal/state/state.go:614-627 | A comment is printed unchanged exactly if it has at most 43 characters, none a control or reserved |
| Position.RoundedExact | internal/state/state.go:586-606 | Minutes are printed to the nearest hundredth, and held at 59.99 just under a full degree |
| Position.SymbolPrinted | internal/state/state.go:575-578 | A symbol that is not two characters is replaced, and an octet above 127 printed as two |
| Message.SanitizeMsgID | internal/aprs/info.go:1223-1232 | The loop keeps exactly the printable characters before the line end |
| Message.PlainIDExact | internal/aprs/info.go:1238-1244 | An ID comes back alone exactly if it is printable and has no closing brace |
| Message.AddresseeForm | internal/aprs/message.go:9-12 | A long addressee is cut after nine characters, a short one filled up with blanks behind |
| Message.TextExact | internal/aprs/info.go:1170-1184 | Body and ID come back exactly when the body has no brace, the ID is plain, and a body without ID has no trailing line end |
| Message.MessageExact | internal/aprs/message.go:8-23 | The parser inverts the message printer if and only if addressee, body and ID are safe |
| Message.AckExact | internal/aprs/message.go:25-31 | An acknowledgement is read back as one, and not as a rejection, if and only if addressee and ID are plain and there is an ID |
| Message.RejExact | internal/aprs/info.go:1165-1169 | The same for a rejection |
| Message.ReplyAckExact | internal/aprs/info.go:1238-1244 | An ID with the ID it acknowledges on the way comes back as these two if and only if the first is plain and the second printable |
| Message.TelemetryExact | internal/aprs/telemconfig.go:52-140 | Which bodies declare telemetry |
| Message.BulletinExact | internal/aprs/info.go:1155-1159 | The group of a bulletin is what follows the fourth character of its addressee |
| ThirdParty.UnwrapExact | internal/aprs/info.go:127-144 | The wrapper yields source, destination and information if and only if its header holds no stray separator and the information is not empty |
| ThirdParty.WrapperPath | internal/gate/gate.go:492-496 | Behind its brace the wrapper is the header of a frame with the path TCPIP*, our used mark, if and only if no separator is stray; and that path keeps gateways from taking it back |
| ThirdParty.PlainHeaders | internal/aprs/info.go:131-143 | A header without a sender names nobody and keeps the destination; one without a comma is all destination |
| ThirdParty.NestedExact | internal/aprs/info.go:117-153 | Up to four wrappers are taken off, naming the innermost sender; a fifth is not looked into |
| ThirdParty.UnwrappedDecode | internal/aprs/info.go:119-153 | The wrapper decodes as the inner packet with its sender as originator, whatever the other decoders do |
| ThirdParty.GatedDecode | internal/gate/gate.go:423-505 | What a receiver decodes from any gated packet with information in it is what the gateway decoded, with the sender as originator |
| ThirdParty.EmptyNotGated | internal/gate/gate.go:438-442 | A packet without information decodes as nothing and is not gated |
| ThirdParty.ParsedClean | internal/igate/igate.go:328-357 | A parsed source or destination holds no separator |
| ThirdParty.MessageArrives | internal/gate/gate.go:438-505 | A safe message gated to the air arrives with addressee, ID, cleaned text and sender |
| Utf8.SanitizeText | internal/aprs/info.go:1287-1319 | The loop computes the step-by-step cleaning that the lemmas below are about |
| Utf8.DecodeExact | internal/aprs/info.go:1299-1303 | The rune decoder accepts exactly the characters of section 4 of RFC 3629, with their scalar values |
| Utf8.SanitizedIsText | internal/aprs/info.go:1287-1319 | For every input the output is well-formed UTF-8 without control characters |
| Utf8.SanitizedIsClean | internal/aprs/info.go:1287-1319 | The output is always clean |
| Utf8.SanitizeExact | internal/aprs/info.go:1287-1319 | Sanitizing changes nothing if and only if the text is clean |
| Utf8.CharacterKept | internal/aprs/info.go:1291-1308 | A well-formed character is kept unless it is a control, whatever follows |
| Utf8.StrayOctet | internal/aprs/info.go:1310-1316 | An octet that starts none is written as its Latin-1 character, or dropped if that is a control |
| Utf8.SanitizeIdempotent | internal/aprs/info.go:1287-1319 | Sanitizing twice is sanitizing once |
| Utf8.CleanIsText | internal/aprs/info.go:1299-1309 | Clean text is a row of well-formed characters, none a control or the replacement character |
| Utf8.TextIsClean | internal/aprs/info.go:1299-1309 | Conversely every row of such characters is clean |
| Utf8.Latin1Scalar | internal/aprs/info.go:1310-1314 | A stray high byte becomes the character it stands for in Latin-1 |
| MsgId.Store.NextOutboundMsgID | internal/state/state.go:481-496 | The ID handed out and the new state, with reservation and wrap |
| MsgId.Store.ReserveMsgIDBlock | internal/state/state.go:500-530 | The block and the saved watermark |
| MsgId.IdIsCounter | internal/state/state.go:481-530 | Over every run of allocations and restarts each ID is an unbounded counter modulo 99999, plus one |
| MsgId.CounterStep | internal/state/state.go:481-530 | An allocation moves the counter by one, a restart by at most 99 |
| MsgId.CounterAdvance | internal/state/state.go:481-530 | The counter strictly increases over allocations and no faster than allocations and restarts allow |
| MsgId.NoReuse | internal/state/state.go:481-530 | No ID is handed out twice until allocations and skips together used up the name space |
| MsgId.Successor | internal/state/state.go:481-496 | Without a restart one ID follows the other cyclically |
| MsgId.ReservedExact | internal/state/state.go:500-521 | A reservation takes a hundred IDs from the watermark, or what is left up to 99999, and saves the next |
| MsgId.SkipAttained | internal/state/state.go:481-530 | A restart right after the first ID of a block does skip 99 |
| Feed.LiveFeed.Append | internal/server/server.go:613-624 | The ring refines an append-only log |
| Feed.LiveFeed.RecentSince | internal/server/server.go:1096-1132 | For any 64-bit cursor, wrap-around included, the loop returns the visible part of the log |
| Feed.VisibleExact | internal/server/server.go:1103-1131 | An entry is returned exactly if it is in range, young enough and under its own ID |
| Feed.VisibleIncreasing | internal/server/server.go:1124-1131 | IDs come in increasing order within range |
| Feed.HonestCursor | internal/server/server.go:1103-1112 | For cursors up to the head, reading starts at the cursor or at the oldest kept entry |
| Feed.ForeignCursor | internal/server/server.go:1103-1115 | A cursor beyond the log gets nothing, or all that is kept if it is so far beyond that it reads as negative |
| Feed.NeverTwice | internal/server/server.go:1096-1132 | Over every run a polling client gets no packet twice, and in order |
| Feed.SeesEverything | internal/server/server.go:1096-1132 | A client that keeps up gets every packet exactly once |
| Feed.PolledExact | internal/server/server.go:1096-1132 | A poll gives exactly the packets after the cursor among the last 200 and at most half an hour old |

## Left out

- Sockets, serial lines, Bluetooth, TLS, the database, HTTP, templates and scripts: plumbing around the logic modelled here.
- Mic-E, compressed positions, weather, telemetry values, NMEA and comment post-processing: the other decoders are an arbitrary function given to the third-party decoder, so its results hold for all of them.
- The telemetry configuration in a message is recorded only as present or absent.
- Letters outside ASCII: case folding, upper-casing and trimming are those of ASCII text.
- Overflow in reading numerals: every caller also refuses large values, so the refusal is the same.
- SHA-1 in the duplicate table: contents stand for their own digests.
- Floating-point and printf rounding of coordinates: reals and rounding half up to a hundredth of a minute.
- The scanner's lenient corner cases in position fields, such as signs or spaces inside digit groups.
- Growth policy of Go slices: a full buffer moves to a larger array of some size; only contents and the reclaiming of space matter.
- Map iteration order: every sweep and search is proved for any order, and the tracker may evict any of several oldest entries.
- A failed save of the message-ID watermark: the code logs and goes on, and then no claim about reuse holds.
- Feed.LiveFeed.Append: requires that fewer than 2^64 packets were ever shown, so overflow of the feed's own counter is not modelled.
- StationRuns.SameContentSpaced: is about repeats; the station's own injected packets take part only by marking their content in the duplicate table at any time.
- Station.Filters.HearRF: the distance filter's verdict is an input, as it rests on floating-point geometry; bytes that do not decode never reach the loop.
- FarthestLineage.BoundAttained: the settings form accepts at most two hops for the path of frames from APRS-IS, while the gate takes any configured path; the bounds are about the gate.
- APRS-IS servers pass lines on unchanged; a server that drops or delays lines only makes lineages shorter.
- Decision reasons are an enumeration instead of text.
- The retry queue, beacons, statistics, logging and the sorted list of blocked sources: they would add simple members only.
