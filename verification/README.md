# SnapPipe: a verified model of its gates, pumps and formats

SnapPipe moves bytes between authenticated peers. This project models the parts that decide who may
move how many bytes, and the text and wire formats they depend on, and proves what those parts promise
over whole runs: every sequence of calls, every interleaving of connections and threads, every way a
stream can be cut into pieces.

Objects that the program updates in place (`TokenBucket`, `RateLimiter`, `TrustStore`, `NonceStore`,
`Relay`, byte streams) are classes, and its loops are methods with loops; each is proved against a
specification function, and the main results are lemmas about those functions. Concurrent code is
modelled as a state machine in which a schedule, a list of steps, picks who moves next: what holds after
every schedule holds in every interleaving.

| file | models |
|---|---|
| `TokenBucket.dfy`, `BucketWindow.dfy`, `TunedWindow.dfy`, `RateLimiter.dfy`, `LimiterWindow.dfy`, `ResyncExact.dfy` | the token bucket, the sliding-window test it refines, also while its limit changes, the per-node limiter, re-applied limits |
| `Streams.dfy`, `Relay.dfy`, `RelayLaws.dfy`, `RelayBudget.dfy` | byte streams, one relayed connection, how it ends and what it is granted, the byte budget of a peer over interleaved connections |
| `NonceStore.dfy`, `NonceText.dfy`, `NonceGrammar.dfy` | the replay store against the full history, its hex and text form, what its loader accepts and refuses |
| `Ledgers.dfy` | concurrent calls and their traffic counters, against calls one after the other |
| `TrustStore.dfy`, `TrustText.dfy`, `TrustGrammar.dfy` | the trust registry, its text form, what its parser accepts and refuses |
| `Tickets.dfy`, `Frames.dfy`, `Handshake.dfy`, `HandshakeWitness.dfy` | tickets, length-prefixed frames, the two-party handshake, a codec and a ticket that meet its assumptions |
| `Tunnel.dfy`, `Bridges.dfy`, `TunnelGate.dfy` | the two copy loops of one direction, the bridges that couple both directions, the server's gate in front of them |
| `Diff.dfy`, `Walk.dfy`, `WalkTrees.dfy` | the difference of two listings, the directory walk, the paths of a tree |
| `Text.dfy`, `Sorting.dfy`, `Counting.dfy`, `Pieces.dfy`, `Nodes.dfy`, `Numbers.dfy`, `Wrappers.dfy` | string functions and sorting of the standard library, small shared vocabulary |

Conventions. `f64` is `real`; machine integers are bounded types with saturation and overflow written
out; counters are unbounded. Clocks, random nonces and I/O results are parameters or steps. The
signature scheme and the JSON codec are records of functions. The scheme is assumed only to verify its own
signatures. The codec is assumed only to undo its own encoding, and the two bodies of the handshake at
hand to be shorter than 2^64 bytes; `HandshakeWitness.HandshakeIsPossible` gives a codec, a scheme and a
ticket of which all this is true. Which strings are node ids is a predicate, assumed only to stay within the
alphabet of section 5 of RFC 4648. QUIC streams are ordered and reliable until they end or fail, section 2.2
of RFC 9000.

Where the code and its comments disagree, the model follows the code:

- The bridge's comment says it returns when either side sees the end; the code joins both loops. So no
  bridge returns while one of its loops can still carry bytes, and its return cuts nothing off
  (`Bridges.ReturnedBridgesAreDone`, `Bridges.DirectionsAreIndependent`). A bridge that did as the comment says
  would truncate a direction in which nothing failed (`Bridges.EitherWouldTruncate`).
- `WalkPredicate` promises that rejecting a directory excludes its descendants; the code filters entry by
  entry. The two agree on every tree exactly for descendant-closed predicates, of which the default is one
  (`Walk.FilterIsPruneIffClosed`, `Walk.DefaultIsDescendantClosed`).
- `server_handshake` is said to report failures to the client; the error replies are futures that are
  never polled, so a failing server writes nothing (`Handshake.HandshakeCompletes`).

Five properties one might expect do not hold on every input. Each has a lemma with an input on which it
fails, next to the exact condition under which it holds:

- Re-applying an unchanged limit can show when it is stamped later than an attempt that follows
  (`LateResyncShows`). It never shows when no re-sync is (`ResyncIsInvisible`), and a single one at any time
  shows to no later attempts if and only if it completes no token (`ResyncInvisibleIff`).
- A listing's difference misses a change of the executable flag alone (`ExecutableFlagIsMissed`); it rebuilds
  the target if and only if there is no such change (`PatchRebuildsTargetIff`).
- After a failed copy loop the receiver sees a proper end of stream in the middle of the data
  (`FailureLooksLikeTheEnd`). At the end of the stream everything has arrived if and only if no loop failed
  with bytes in hand, no channel holds any, and none were sent behind a failed loop (`EndMeansAllIff`).
- A cleanup stamped later than a check that follows it can make the store accept a nonce again too early
  (`EarlyCleanupReadmits`). The store answers as the full history does, and as it would without cleanups, if and
  only if no check is stamped less than the window after an acceptance that a cleanup has removed
  (`StoreIsFullHistoryIff`, `CleanupIsInvisibleIff`); so it does whenever no check is stamped earlier than a
  cleanup before it (`StoreIsFullHistory`).
- Cleanup does not keep the split between the two acceptance counters (`CleanupMovesTheSplit`). It keeps their
  sum (`CleanupKeepsAcceptedTotal`), and the split if and only if no cleanup removes a nonce that is checked
  again later (`CleanupKeepsSplitIff`).

## Model

| member | source | states |
|---|---|---|
| `TokenBuckets.TokenBucket.constructor` | src/rate_limit.rs:42-50 | a bucket starts full at its per-minute capacity, with a sixtieth of it per second |
| `TokenBuckets.TokenBucket.RefillAt` | src/rate_limit.rs:54-62 | refill adds rate times elapsed time up to capacity, and ignores times that are not later than its clock |
| `TokenBuckets.TokenBucket.TryConsume` | src/rate_limit.rs:65-73 | refills, then takes one token if there is one; the answer and the whole new bucket |
| `TokenBuckets.TokenBucket.RetuneTo` | src/rate_limit.rs:78-83 | refills at the old rate, then changes capacity and rate, keeping the tokens up to the new capacity |
| `TokenBuckets.SoundKept` | src/rate_limit.rs:42-83 | no operation makes the level negative or over capacity, or unties the rate from the capacity |
| `TokenBuckets.RetuneExact` | src/rate_limit.rs:78-83 | a new limit takes effect at once: its capacity, a sixtieth of it as the rate, and the level earned so far cut to the old and the new capacity |
| `TokenBuckets.RefillPathIndependent` | src/rate_limit.rs:54-62 | refilling at any list of times, in any order, is one refill at their maximum |
| `BucketWindow.BucketIsAccount` | src/rate_limit.rs:54-73 | over any timestamps the lazy bucket keeps a clamped account of rate times its clock, the running maximum |
| `BucketWindow.LazyBucketIsWindowTest` | src/rate_limit.rs:42-73 | attempt k is allowed if and only if every window of attempts ending at k stays within burst + rate * length |
| `BucketWindow.BucketKeepsEveryWindow` | src/rate_limit.rs:42-73 | what the bucket admits stays within burst + rate * length on every window of every run |
| `BucketWindow.BucketIsOptimal` | src/rate_limit.rs:42-73 | on every prefix, no choice of attempts that keeps every window admits more than the bucket does |
| `RateLimiters.RateLimiter.constructor` | src/rate_limit.rs:116-130 | no buckets, zero counters, a default of zero replaced by 100 |
| `RateLimiters.RateLimiter.TryConsume` | src/rate_limit.rs:144-157 | seeds a missing bucket at the default, consumes from that node's bucket only, counts the call and its outcome |
| `RateLimiters.RateLimiter.SetLimit` | src/rate_limit.rs:163-180 | seeds a missing bucket at the effective override, retunes that node's bucket only; zero means 100 |
| `RateLimiters.SetLimitApplies` | src/rate_limit.rs:163-180 | the node's bucket is tuned to the limit, 100 for zero, seeded full if new, and no other bucket changes |
| `RateLimiters.NodesDoNotInterfere` | src/rate_limit.rs:144-180 | in any mixed run, a node's answers and bucket are those of a lone bucket fed that node's operations |
| `RateLimiters.ResyncIsInvisible` | src/rate_limit.rs:78-83 | re-applying the limit a node already has, not stamped later than attempts that follow, changes no answer to any node |
| `RateLimiters.LateResyncShows` | src/rate_limit.rs:78-83 | a re-sync stamped later than the next attempt lets through an attempt that would have been refused |
| `ResyncExact.ResyncInvisibleIff` | src/rate_limit.rs:78-83 | a re-sync stamped at any time is invisible to all later attempts if and only if it is not past the clock, or completes no whole token in a bucket that is not full |
| `TunedWindow.TunedBucketIsAccount` | src/rate_limit.rs:54-83 | through attempts and limit changes with any stamps the bucket keeps a clamped account: rate in force * clock advance, cut to the capacity in force |
| `TunedWindow.TunedBucketIsWindowTest` | src/rate_limit.rs:54-83 | through any limit changes, an attempt passes if and only if every window of operations ending at it stays within the burst where it starts + the sum of a sixtieth of the limit in force * clock advance; limits and clock are read off the operations |
| `TunedWindow.TunedBucketKeepsEveryGrant` | src/rate_limit.rs:54-83 | what the bucket admits stays within that on every window of every run |
| `TunedWindow.TunedBucketIsOptimal` | src/rate_limit.rs:54-83 | on every prefix, no choice of attempts that keeps every such window admits more than the bucket does |
| `LimiterWindow.LimiterIsWindowTest` | src/rate_limit.rs:144-180 | in any mixed run, with any limits set and any stamps, every node is answered by that window test on its own operations |
| `LimiterWindow.SteadyLimitIsWindowTest` | src/rate_limit.rs:144-180 | for a new node that keeps one limit, through re-syncs not stamped later than attempts that follow, windows of its attempts alone with burst + rate * length decide |
| `TrustStores.TrustStore.AddAt` | src/trust.rs:176-181 | adds or replaces the entry of one node |
| `TrustStores.TrustStore.Remove` | src/trust.rs:184-190 | deletes the entry of one node and says whether there was one |
| `TrustStores.TrustStore.Get` | src/trust.rs:211-217 | the node's entry, if and only if it is registered |
| `TrustStores.TrustStore.IsTrusted` | src/trust.rs:203-208 | true exactly for registered nodes |
| `Streams.ByteStream.Memory` | src/relay/mod.rs:252-258 | a memory stream delivers its payload, and its writes do not fail |
| `Streams.ByteStream.Read` | src/relay/mod.rs:266-275 | fills the buffer with the next bytes, as many as fit and are there; nothing means the end |
| `Streams.ByteStream.WriteAll` | src/relay/mod.rs:277-280 | appends the bytes, or some start of them when the write fails |
| `Streams.ChunksArePayload` | src/relay/mod.rs:186-191 | reading in buffers of 8192 bytes gives back the whole payload, however it arrives |
| `Streams.ChunksAreDelivered` | src/relay/mod.rs:186-191 | the successive reads are the arriving pieces cut into buffers of 8192 bytes |
| `Streams.ReadTakesTheFirst` | src/relay/mod.rs:186-195 | a read takes the first buffer to come, finds nothing only at the end and an error only at a break, with its message |
| `Relays.SyncApplies` | src/relay/mod.rs:107-116 | after the sync a trusted peer's bucket has the entry's rate as capacity and a sixtieth of it per second, with its earned level cut to it, or full if new; nothing else changes |
| `Relays.Relay.SyncLimit` | src/relay/mod.rs:107-116 | the same of the limiter object, from the trust entry; without an entry nothing changes |
| `Relays.Relay.TakeTurn` | src/relay/mod.rs:186-208 | one turn of the loop reads, asks the limiter, writes, in that order, with every way it can end |
| `Relays.Relay.PumpStreams` | src/relay/mod.rs:180-209 | the loop computes the specified figures and leaves limiter and streams as specified |
| `Relays.Relay.HandleConnection` | src/relay/mod.rs:140-223 | trust check, limit sync, entry token and loop: the whole log with its duration, the bytes put out, the writes offered, the limiter |
| `Relays.Milliseconds` | src/relay/mod.rs:212 | the whole milliseconds between two clock readings, zero if the second is not later, the 64-bit maximum only from there on |
| `Relays.PumpForwards` | src/relay/mod.rs:185-209 | whole chunks go out in order: all that were read or all but the last; Closed means all; a refusal loses exactly the last |
| `Relays.AdmitForwardsAPrefix` | src/relay/mod.rs:153-222 | what is written is a prefix of what arrived, all of it on Closed; bytes in exceed bytes out by at most one buffer |
| `Relays.PumpTokens` | src/relay/mod.rs:199-202 | one yes per chunk offered for writing, and a no only as the last answer, exactly when rate limited |
| `RelayLaws.PumpStops` | src/relay/mod.rs:185-209 | the loop stops at the first chunk that gets no token or whose write fails, or after the last; every figure it reports follows from that place |
| `RelayLaws.OutcomeIff` | src/relay/mod.rs:166-209 | Closed, RateLimited and each Error, exactly when: by the answers, the failing writes with their messages, and the input's end or break with its message |
| `RelayLaws.HandleOutcome` | src/relay/mod.rs:153-223 | TrustRejected if and only if the peer is not registered, and then no trace in the limiter; all others as above |
| `RelayLaws.ConnectionIsWindowTest` | src/relay/mod.rs:165-202 | a connection's question is answered yes if and only if every window of its questions ending there has room, at the rate of its trust entry |
| `RelayLaws.NewPeerWithinLimit` | src/relay/mod.rs:107-202 | a connection of a peer new to the limiter gets at most r + r/60 * clock advance yes answers, r the rate of its trust entry |
| `RelayLaws.DurationCoversTheRun` | src/relay/mod.rs:211-212 | the logged duration is zero for a refusal at the door, else it spans from the start to the last clock reading |
| `Relays.HandleTokens` | src/relay/mod.rs:165-202 | a connection's questions are a run of the limiter: yes for the entry and each chunk offered, no only at the end |
| `RelayBudget.BytesWithinBudget` | src/relay/mod.rs:107-223 | over any interleaving, with limits and trust changing, bytes put out for a peer, by whole and by failed writes, <= 8192 * (start or seed + sum of rate in force * clock advance - entries), and logged bytes are no more |
| `RelayBudget.ConnectionRuns` | src/relay/mod.rs:140-223 | a connection served alone by the interleaving machine puts out and logs as many bytes as `HandleSpec` says and leaves its limiter |
| `NonceStores.Ttl` | src/nonce_store.rs:78-79 | the effective window is what was asked for if that is positive, and 60 otherwise |
| `NonceStores.NonceStore.constructor` | src/nonce_store.rs:78-88 | the given entries, an effective window, zero counters |
| `NonceStores.NonceStore.CheckAndRecord` | src/nonce_store.rs:119-139 | answer, new map and each counter; accepted minus size is kept |
| `NonceStores.NonceStore.CleanupExpired` | src/nonce_store.rs:154-160 | keeps exactly the entries not older than the cutoff and returns how many went |
| `NonceStores.CleanupExact` | src/nonce_store.rs:154-160 | cleanup keeps an entry, unchanged, if and only if it is not older than the window |
| `NonceStores.SaturationIsInvisible` | src/nonce_store.rs:119-160 | on all 64-bit values the saturating tests decide as unbounded integers would |
| `NonceStores.StoreIsFullHistoryIff` | src/nonce_store.rs:119-160 | for every stamping of the calls: a check is accepted if and only if no accepted or loaded check of the nonce is less than ttl old, throughout the run, if and only if no check comes less than ttl after an acceptance that a cleanup removed |
| `NonceStores.BuiltStoreKeepsItsWindow` | src/nonce_store.rs:78-139 | the same of a store as it is built for a number of seconds: that number is the age below which a nonce is refused, or 60 if it is not positive |
| `NonceStores.StoreIsFullHistory` | src/nonce_store.rs:119-160 | so it is when no check is stamped earlier than a cleanup before it, checks among themselves in any order |
| `NonceStores.EarlyCleanupReadmits` | src/nonce_store.rs:154-160 | a cleanup stamped later than the next check lets a nonce in again within ttl |
| `NonceStores.AcceptancesAreApart` | src/nonce_store.rs:119-139 | in a run that lets nothing in again so, two acceptances of one nonce are at least ttl apart |
| `NonceStores.CleanupIsInvisibleIff` | src/nonce_store.rs:154-160 | leaving the cleanups out of a run changes no answer, if and only if they let nothing in again so |
| `NonceStores.CleanupIsInvisible` | src/nonce_store.rs:154-160 | leaving them out changes no answer when no check is stamped earlier than a cleanup before it |
| `NonceStores.CleanupKeepsAcceptedTotal` | src/nonce_store.rs:128-136 | in a run that lets nothing in again so, leaving them out keeps the sum of the two acceptance counters |
| `NonceStores.CleanupMovesTheSplit` | src/nonce_store.rs:128-136 | a run in which a cleanup moves an acceptance from one counter to the other |
| `NonceStores.CleanupKeepsSplitIff` | src/nonce_store.rs:119-160 | for every stamping, leaving the cleanups out keeps both acceptance counters if and only if no cleanup removes a nonce that is checked again later |
| `LimiterLedger.LimiterLedgerBalances` | src/rate_limit.rs:144-180 | at every point of every schedule of threads: calls = allowed + denied + in flight, limit changes = made + in flight, and only the lock's holder is inside |
| `NonceLedger.NonceLedgerBalances` | src/nonce_store.rs:119-160 | at every point: calls = accepted + after ttl + replays + in flight; with the lock free: loaded + accepted = size + removed |
| `LimiterLedger.LimiterIsSequential` | src/rate_limit.rs:144-180 | concurrent calls act as if one came after the other in the order they took the lock: buckets and both outcome counters |
| `NonceLedger.StoreIsSequential` | src/nonce_store.rs:119-160 | the same of the replay store: its map and its three outcome counters |
| `Hex.EncodeHex` | src/nonce_store.rs:229-235 | two lowercase digits per byte, high nibble first |
| `Hex.DecodeHex` | src/nonce_store.rs:237-258 | 32 hex bytes or nothing, counted on the UTF-8 bytes of the string |
| `Hex.HexDecodeExact` | src/nonce_store.rs:229-258 | decoding accepts a string for a nonce if and only if it spells it: two digits per byte, high nibble first, in either case |
| `NonceText.PersistBody` | src/nonce_store.rs:170-176 | one line `hex:timestamp` per entry, in the order given |
| `NonceText.LoadFrom` | src/nonce_store.rs:189-217 | the map of all lines, the last for a nonce winning, or the first malformed line with its number and reason |
| `NonceText.PersistenceRoundTrip` | src/nonce_store.rs:165-226 | for every map and every order of writing it, loading gives back exactly the map, and later runs get the same answers |
| `NonceGrammar.LineAnswerIff` | src/nonce_store.rs:190-209 | which lines are skipped, accepted with which entry, or refused for which reason, each if and only if, from the text alone |
| `NonceGrammar.LoadRefusedIff` | src/nonce_store.rs:189-217 | a file is refused with (n, reason) if and only if line n is its first refused line and that is the reason |
| `NonceGrammar.LoadedExact` | src/nonce_store.rs:189-217 | an accepted file is the map of its lines, the last line for a nonce standing |
| `Text.LinesExact` | src/nonce_store.rs:190-191 | lines end at newlines, with a return before it taken off, and what is left at the end is a line |
| `Text.TrimExact` | src/nonce_store.rs:191-192 | trimming takes off white space at both ends and nothing else |
| `Text.ParseI64Exact` | src/nonce_store.rs:201-207 | a timestamp is an optional sign and a decimal numeral within 64 bits, and nothing else |
| `TrustText.SaveBody` | src/trust.rs:144-159 | header, then the entries sorted by id, one line each |
| `TrustText.ParseText` | src/trust.rs:229-276 | the registry of all lines, a later line for an id replacing an earlier one, or the first malformed line with its number and reason |
| `TrustText.HeaderIsHeader` | src/trust.rs:145-149 | the two header lines are comments the parser skips |
| `TrustText.LineRoundTrip` | src/trust.rs:152-158 | a written line reads back as its entry, without the date |
| `TrustText.ParsedLineIsWritable` | src/trust.rs:233-273 | whatever a line parses to could be written: valid id, trimmed name without colon or newline |
| `TrustText.StoreRoundTripsIffWritable` | src/trust.rs:144-159 | a registry of valid ids survives writing and reading, up to dates, if and only if every name is trimmed and has no colon or newline |
| `TrustText.PrintIsFixpoint` | src/trust.rs:229-276 | for every text the parser accepts, printing its registry and parsing again gives the same registry |
| `TrustText.PrintIsCanonical` | src/trust.rs:150-159 | the text does not depend on the hash map's order |
| `Text.ParseU32Exact` | src/trust.rs:259-265 | a rate is an optional plus and a decimal numeral within 32 bits, and nothing else |
| `TrustGrammar.LineAnswerIff` | src/trust.rs:230-274 | which lines are skipped, accepted with which entry, or refused for which reason, each if and only if, from the text alone |
| `TrustGrammar.TextRefusedIff` | src/trust.rs:229-276 | a text is refused with (n, reason) if and only if line n is its first refused line and that is the reason |
| `TrustGrammar.AcceptedTextExact` | src/trust.rs:229-276 | an accepted text is the registry of its lines, the last line for an id standing |
| `TrustGrammar.WrittenLine` | src/trust.rs:152-158 | a line as it is written, character by character |
| `Tickets.VerifyTicket` | src/lib.rs:202-220 | a ticket verifies if and only if its version is 1, it is not expired and its signature is well encoded and verifies on its own claims; each error exactly for the first thing wrong |
| `Tickets.IssuedTicketVerifies` | src/lib.rs:165-220 | an issued ticket has the issuer, subject and times asked for, and verifies under its issuer's key if and only if it is not past its time to live |
| `Frames.PrefixTellsLength` | src/session.rs:155-157 | the eight bytes, weighed by their places with the most significant first, are the payload's length, for every 64-bit length |
| `Frames.FramesSplitUniquely` | src/session.rs:155-157 | two lists of payloads with the same stream of frames are the same list |
| `Handshake.ReadKeeps` | src/session.rs:177-181 | however a frame is cut up, it is read as the body that was sent, and an honest end never comes early |
| `Handshake.Verdict` | src/session.rs:217-249 | the server's checks pass if and only if the body is a ticket that is genuine, from a trusted issuer and for the expected subject; each refusal exactly for the first failing check |
| `Handshake.ClientResult` | src/session.rs:182-194 | the client returns Ok if and only if the response is an acceptance, with the summary of its claims |
| `Handshake.HandshakeAgrees` | src/session.rs:165-261 | in every run, a client that returned Ok presented a ticket of version 1, not expired, rightly signed, from a trusted issuer and for the expected subject, and both sides hold the same summary of its claims |
| `Handshake.HandshakeCompletes` | src/session.rs:165-261 | when nobody breaks off, moves run out, and then the client has returned Ok if and only if its ticket meets all of these conditions |
| `HandshakeWitness.HandshakeIsPossible` | src/session.rs:165-261 | a codec that is a round trip on every ticket and response, a correct scheme and a ticket that meets all conditions: the assumptions of the two rows above can be met |
| `Tunnel.BytesAreConserved` | src/transport/tunnel.rs:295-335 | at every point of every run, failures included: out, in the channels, held or lost by the loops are in this order what was sent |
| `Tunnel.EndMeansAllIff` | src/transport/tunnel.rs:307-314 | when the receiver sees the end it has everything if and only if nothing was lost by a failed loop or left or sent behind one; so after a clean end it has everything |
| `Tunnel.DirectionIsFifo` | src/transport/tunnel.rs:295-335 | what comes out of two copy loops in series is always a prefix of what was sent, and all of it after a clean end |
| `Tunnel.DirectionDelivers` | src/transport/tunnel.rs:295-335 | carrying steps run out, and then a closed direction has ended, and has delivered everything if no loop failed |
| `Tunnel.FailureLooksLikeTheEnd` | src/transport/tunnel.rs:307-314 | after a failed read the loop still shuts the socket down, so the receiver sees an end in mid-stream |
| `Bridges.ReturnedBridgesAreDone` | src/transport/tunnel.rs:337-338 | no bridge has returned while one of its two loops could still move |
| `Bridges.DirectionsAreIndependent` | src/transport/tunnel.rs:293-338 | with both directions coupled by bridges that return and drop their halves, a direction without failures of its own goes as if it ran alone, whatever the opposite one suffers |
| `Bridges.TunnelIsFifo` | src/transport/tunnel.rs:288-339 | end to end on the coupled machine, over many connections: prefix always, all at the end if and only if nothing stayed behind, and no truncation or stall of a direction without failures of its own |
| `Bridges.BridgesCanReturn` | src/transport/tunnel.rs:337-338 | once both senders closed and no carrying step is left, both bridges can return, failures or not |
| `Bridges.EitherWouldTruncate` | src/transport/tunnel.rs:286-338 | returning when either loop is done, as the comment has it, would lose bytes of a direction in a run without failures in either; the join does not return there |
| `TunnelGate.DialsAreGated` | src/transport/tunnel.rs:217-284 | over any interleaving, a connection that dials has completed its own handshake on a ticket, sent on its first stream, that is of version 1, not expired, rightly signed, from a trusted issuer and for the expected subject |
| `TunnelGate.ServedIffAdmissible` | src/transport/tunnel.rs:217-284 | without transport errors, once its handshake has no move left a connection is served if and only if what its peer sent begins with such a ticket; a stream accepted then is dialed |
| `TunnelGate.ClosedForGood` | src/transport/tunnel.rs:243-247 | a connection whose handshake failed stays closed and never dials |
| `Diffs.DiffEntries` | src/sync.rs:251-284 | strictly sorted lists of exactly the new, missing and changed records, the last duplicate of a path counting |
| `Diffs.ListingIsLast` | src/sync.rs:252-260 | a path is listed if and only if some record has it, and then with the last such record |
| `Diffs.DiffIsUnique` | src/sync.rs:263-282 | the result is determined by the listings, whatever the hash maps' order |
| `Diffs.PatchRebuildsTargetIff` | src/sync.rs:251-288 | applying the difference gives exactly the target if and only if records with equal size, time and mode have equal executable flags |
| `Diffs.DiffIsAPatch` | src/sync.rs:208-288 | for records as the walker builds them, applying the difference gives exactly the target |
| `Diffs.ExecutableFlagIsMissed` | src/sync.rs:286-288 | listings that differ in an executable flag alone have an empty difference |
| `Diffs.DiffSwaps` | src/sync.rs:251-284 | swapping the listings swaps added and removed and flips each change |
| `Walk.WalkDirWith` | src/sync.rs:128-206 | from either branch, the records of the kept files in ascending order of path, exactly the sequential result when paths are distinct or entries at most 100; an unreadable one fails the walk |
| `Walk.WalkExact` | src/sync.rs:128-223 | the walk fails if and only if a wanted file cannot be read, and otherwise has exactly the records with path, size, time, mode and execute bits of the wanted files, in ascending order |
| `Walk.PushOrderIsInvisible` | src/sync.rs:154-204 | with distinct paths, every push order of the parallel branch gives the sequential result |
| `WalkTrees.PlainTreesWalkAlike` | src/sync.rs:136-204 | in a tree whose siblings have different names without backslashes all kept files have distinct paths, so every push order gives the sequential result |
| `Walk.FilterIsPruneIffClosed` | src/sync.rs:85-90 | the flat filter keeps on every tree what pruning rejected directories keeps, if and only if the predicate is descendant-closed |
| `Walk.DefaultKeepsUnhidden` | src/sync.rs:102-106 | the default predicate keeps exactly the paths with no component that starts with a dot |
| `Walk.DefaultIsDescendantClosed` | src/sync.rs:102-106 | the default predicate rejects everything under a directory it rejects |

## Left out

- Walk.WalkDirWith: starts from the enumeration of a tree; I/O errors during the enumeration itself and the text of errors are not modelled; above 100 kept entries the order of records with equal normalized paths is left open, as the program leaves it to its workers.
- Bridges.TunnelIsFifo: a host that resets a TCP connection closed with unread data (section 4.2.2.13 of RFC 1122) may take back bytes already written to that socket; sockets here keep what was written. It can matter only after a failure in the opposite direction.
- Tickets.IssueTicket: an expiry that overflows 64 bits is no ticket, where the program panics or wraps depending on the build.
- Handshake.HandshakeAgrees: a length prefix that asks for more memory than there is does not arise from an honest peer and is not modelled.
- Rounding of `f64`, wrap-around of the 64-bit counters, relaxed memory ordering.
- Ed25519, base64 and JSON: abstract, as described above.
- Delivery of error replies and the table of `HandshakeErrorKind` labels: the replies are never written.
- The relay listener and the QUIC endpoint setup: configuration and adapters around the code modelled here.
- Files, permissions, modification times applied to disk, the command line, `RelayStats`: only the text bodies and in-memory collections are modelled.
