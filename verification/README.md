# noisysockets in Dafny

noisysockets is a userspace WireGuard implementation in Go. This project models its protocol core and proves what that
core keeps over whole runs: the handshake and the index table, the anti-replay ring, nonce allocation, UDP offload, the
staged queue and the worker pipelines, the rate limiter, cookies, timestamps, timers and the reference counts of its queues.

`dafny verify dfyconfig.toml` checks everything.

## How it is modelled

* Pure code is functions. Code that works by changing things is classes, arrays and loops, and every such method is proved
  equal to a specification function (`Transport` against `Device`, `Replay.Filter` against a set of counters,
  `Staged.Queue` against `Staged.Send`, and so on). Theorems about runs are stated about those functions.
* What goroutines do concurrently is a state machine: a step is what one goroutine does under one lock or with one atomic
  instruction, and a theorem holds for every list of steps.
* Cryptography is a term algebra: constructors are injective, a shared secret is a term over an unordered pair of private
  keys, and a box opens only with the key, nonce and associated data it was sealed with. HKDF (section 2 of RFC 5869) is built from
  an abstract HMAC.
* Clocks, random draws, latencies, what the kernel reports and what the network delivers are parameters.
* 64-bit arithmetic is written out where it can wrap around (`Nonce`, `Tai64n`); other numbers are unbounded.

| file | about |
|---|---|
| `Noise`, `Device`, `Transport` | key derivation; handshake, table and rotation as steps on values; the same as mutable objects |
| `DeviceInvariant`, `DeviceRuns` | the invariant of every reachable state, and what follows for runs |
| `KeyFreshness` | no two sessions share a key, over runs of atomic steps |
| `SplitHandshake`, `SharedKeys`, `Duplicates` | messages tested and written under separate locks: when that is an atomic step, exactly when sessions share a key, and that they can |
| `Initiations`, `InitiationRace` | the replay test for initiations, in order and under concurrent workers |
| `Agreement`, `NoisePattern` | both ends of a handshake hold the same secrets; the handshake against the Noise Protocol Framework |
| `Replay`, `Tai64n`, `Nonce`, `Datapath`, `Sink` | replay window, timestamps, nonce counter, one packet from sender to sink, order at the sink |
| `Staged`, `Pipeline`, `RefCount` | staged queue, ordered pipeline with parallel workers, queue lifetime |
| `Segments`, `Coalesce`, `Split`, `Offload` | cutting and merging datagrams for UDP offload |
| `RateLimiter`, `LimiterRace` | the token bucket, and its table under concurrent callers |
| `Cookie`, `CookieExchange`, `Retransmit`, `TimerSync` | the smaller protocols |

## Findings

Places where a plausible property is false of the code. Each has a lemma with the failing case and one with the condition.

* Nonces. `OneMoreSenderWraps`, `TwoMoreSendersReuse`: 8192 concurrent senders is the sharp bound against wrap-around of the
  nonce counter, 8193 the sharp bound against reuse of a nonce.
* Responses. `ConsumeMessageResponse` lets go of the handshake lock between checking and writing and does not look again.
  Two workers that check one duplicated response derive two sessions with the same keys (`DuplicateResponse`), even with the
  table exact throughout (`DuplicateResponseAfterInitiation`); both are reached from two fresh devices (`TwinsReachable`,
  `ExactTwinsReachable`), and then a packet is delivered under both keypairs (`SharedKeyDeliversTwice`). Over every run, two
  sessions share a key exactly if both follow writes of one response to one initiation (`SharedExactly`). The write is what an
  atomic step would be exactly if the handshake still waits with the ephemeral that was checked (`WriteIsAtomic`); if every
  write of a response finds that, the table is exact and all keys are distinct (`WaitingKeysDistinct`). The write itself never
  harms the table; the session begun after it does, exactly if the handshake has lost its index (`SessionAfterCommit`,
  `InterruptedResponse`).
* Initiations. `ConsumeMessageInitiation` lets go of the lock as well. This harms neither the table nor the keys, however late
  the write comes (`WaitingRunIsSafe` asks nothing of initiations). The recorded timestamp never goes back, but two workers may
  accept one initiation (`SameInitiationTwice`); accepted stamps increase strictly exactly if every write still finds its stamp
  newer than the recorded one (`IncreasingIfNewer`), and the write is what an atomic step would be exactly if the initiation
  would still be accepted (`TakeIsAtomic`).
* Spacing of initiations. Starting a peer and expiring its keypairs set the time of the last handshake back, so two initiations
  can be begun at once (`StoppedAndStarted`); otherwise they are 5 s apart (`Retransmit.EveryRun`). Two that fall into one tick of
  2^24 ns carry one stamp, and the second is turned down as a replay (`SameTickIsReplay`).
* Cookies. `PendingRefreshBreaksCookie`: a cookie can be invalidated while its secret is fresh exactly if a second caller of `CreateReply`
  had already found the previous secret stale, because the age is not looked at again under the write lock.
* Rate limiter. `Allow` looks up, inserts and updates under separate locks. Workers that miss a new address together are all
  allowed (`MissingTogether`), and workers that hold an entry the collector has dropped spend its tokens besides those of the
  new one (`OrphansSpend`). Bound and unobservability hold if no insert is overtaken by another of its address since its own
  lookup and no update's entry was dropped (`UndisturbedGuarantees`). That an insert finds no entry is not enough: another may have been
  put in and dropped again after the lookup (`LateInsert`).
* Offload. Coalescing, sending and splitting gives the datagrams back exactly if none is empty (`RoundTrip`): one that is
  appended to others is not found again (`CutCarries`), and at one that has a message to itself the split stops (`EmptyFirst`).
  A segment size larger than its message makes the split write bytes behind the message (`PlanIsJoined`). No caller of
  `coalesceMessages` passes an empty buffer, and the kernel reports no segment size above the length of what it delivers, so
  neither happens as the functions are used.

Three more that are not failures but are easy to miss: `ExpireReArms` (a retransmission that comes too soon after a response was
sent neither sends nor re-arms), `MayExpireEarly` (a held-up goroutine of an earlier firing takes a later `Mod`'s pending flag)
and `StampWraps` (byte order of timestamps is time order except across the wrap-around of the seconds field, which no clock reaches).

## Model

| member | source | states |
|---|---|---|
| `Noise.SharedSecret` | internal/transport/noise-helpers.go:101-110 | fails exactly for points that give the all-zero secret |
| `Noise.SharedSecretAgrees` | internal/transport/noise-helpers.go:101-110 | both sides compute the same secret, and no other pair of keys does |
| `Noise.KdfIsHkdf` | internal/transport/noise-helpers.go:44-64 | the three key derivation functions are the first one, two and three blocks of HKDF as section 2 of RFC 5869 defines it for any number of blocks |
| `Noise.BlocksDiffer` | internal/transport/noise-helpers.go:44-64 | two blocks are the same if and only if they are the same block of the same derivation |
| `Noise.RunKdf1` | internal/transport/noise-helpers.go:44-47 | writes HKDF's first output block, also over the chain key it is derived from, which is how handshakes call it |
| `Noise.RunKdf2` | internal/transport/noise-helpers.go:49-55 | writes the first two HKDF output blocks through possibly aliased pointers |
| `Noise.RunKdf3` | internal/transport/noise-helpers.go:57-64 | writes the first three HKDF output blocks through possibly aliased pointers |
| `NoisePattern.InitiateIsNoise` | internal/transport/noise-protocol.go:179-234 | creating an initiation is writing the first message of the pattern IKpsk2, as the Noise Protocol Framework processes it token by token: same success, same boxes, same hash and chain key |
| `NoisePattern.AcceptIsNoise` | internal/transport/noise-protocol.go:249-350 | an initiation is accepted if and only if the framework reads it, its payload is a stamp, and that is newer and no flood; hash and chain key are those of the framework |
| `NoisePattern.NobodyIsNoise` | internal/transport/noise-protocol.go:249-290 | an initiation that names nobody is not read by the framework either |
| `NoisePattern.RespondIsNoise` | internal/transport/noise-protocol.go:353-418 | creating a response is writing the second message of the pattern |
| `NoisePattern.CheckIsNoise` | internal/transport/noise-protocol.go:441-499 | checking a response is reading the second message of the pattern and finding an empty payload |
| `NoisePattern.ResponseAcceptedIf` | internal/transport/noise-protocol.go:421-522 | in every reachable state a response is consumed for a peer if and only if its handshake waits under that index and the framework reads it |
| `NoisePattern.DeriveIsNoise` | internal/transport/noise-protocol.go:527-579 | the session keys are those of the split, first key for what the initiator sends |
| `Transport.PeerObject.SealInitiation` | internal/transport/noise-protocol.go:179-234 | for every index drawn later, the transcript, the sealed static key and the sealed stamp are those of `Device.Initiate`, failures included |
| `Transport.PeerObject.AcceptInitiation` | internal/transport/noise-protocol.go:296-350 | takes over the transcript and stamp exactly if the stamp opens, is newer and is no flood; otherwise the handshake does not change |
| `Transport.PeerObject.SealResponse` | internal/transport/noise-protocol.go:371-418 | fields and message are those of `Device.Respond`, including what a failure leaves behind |
| `Transport.PeerObject.DeriveKeypair` | internal/transport/noise-protocol.go:527-579 | initiator and responder take the two derived keys crosswise; the handshake's secrets are zeroed |
| `Transport.TransportObject.NewPeer` | internal/transport/peer.go:61-113 | adds a zeroed peer unless it exists or there are 2^16 |
| `Transport.TransportObject.NewIndexForHandshake` | internal/transport/indextable.go:59-93 | takes the first drawn index not in use and enters the handshake there |
| `Transport.TransportObject.CreateMessageInitiation` | internal/transport/noise-protocol.go:179-247 | the objects take exactly the step `Device.CreateInitiation` with the first free index, old index dropped |
| `Transport.TransportObject.ConsumeMessageInitiation` | internal/transport/noise-protocol.go:249-351 | the objects take exactly the step `Device.ConsumeInitiation` |
| `Transport.TransportObject.CreateMessageResponse` | internal/transport/noise-protocol.go:353-419 | the objects take exactly the step `Device.CreateResponse` |
| `Transport.TransportObject.ConsumeMessageResponse` | internal/transport/noise-protocol.go:421-522 | the objects take exactly the step `Device.ConsumeResponse` |
| `Transport.TransportObject.BeginSymmetricSession` | internal/transport/noise-protocol.go:527-614 | the objects take exactly the step `Device.BeginSession` |
| `Transport.TransportObject.RotateKeypairs` | internal/transport/noise-protocol.go:581-611 | slots and table after rotation in each of the three cases |
| `Transport.TransportObject.ReceivedWithKeypair` | internal/transport/noise-protocol.go:616-633 | the objects take exactly the step `Device.ReceivedWithKeypair`: next becomes current only under its own keypair |
| `Transport.TransportObject.ZeroAndFlushAll` | internal/transport/peer.go:189-213 | the objects take exactly the step `Device.ZeroAndFlushAll` |
| `Transport.TransportObject.ExpireCurrentKeypairs` | internal/transport/peer.go:215-232 | the objects drop the handshake's index and clear it; the keypairs stay |
| `DeviceInvariant.DropKeypair` | internal/transport/keypair.go:49-53 | deleting a live keypair takes exactly its entry out of what the peer accounts for and nothing from others |
| `DeviceInvariant.SwapHandshake` | internal/transport/indextable.go:45-57 | turning the handshake's entry into a keypair's keeps the table exact |
| `DeviceInvariant.RotatedSlots` | internal/transport/noise-protocol.go:581-611 | the slots after rotation are the old ones with the new keypair and without the one or two deleted |
| `DeviceInvariant.CreateInitiationFine` | internal/transport/noise-protocol.go:179-247 | an initiation is created exactly for a peer with a proper key, and its transcript is the agreed one |
| `DeviceInvariant.CommitResponseKeeps` | internal/transport/noise-protocol.go:507-516 | the write of a checked response leaves the table exact in every state; what the invariant says of the handshake's own index survives if and only if it has one |
| `DeviceInvariant.SessionAfterCommit` | internal/transport/noise-protocol.go:507-604 | the session begun after the write leaves the table exact, and can be looked up, if and only if the handshake had an index when the result was written |
| `DeviceInvariant.StepKeeps` | internal/transport/noise-protocol.go:179-633 | every step on any peer keeps the invariant |
| `DeviceInvariant.EveryRun` | internal/transport/noise-protocol.go:581-611 | in every reachable state the table is exactly the disjoint union, per peer, of its live keypairs' indices and its pending handshake's; every handshake holds the transcript its state promises |
| `DeviceRuns.NoSharedIndex` | internal/transport/indextable.go:59-93 | no index belongs to two keypairs, two handshakes or one of each, over all peers |
| `DeviceRuns.SwapFindsItsEntry` | internal/transport/indextable.go:45-57 | beginning a session finds the handshake's entry and leaves the new keypair's there |
| `DeviceRuns.ZeroLeavesNothing` | internal/transport/peer.go:189-213 | zeroing removes exactly the peer's own entries, and leaves no keypair and no secret of the handshake |
| `DeviceRuns.StopLeavesNothing` | internal/transport/peer.go:234-252 | a peer that is stopped runs no more and nothing of it is left; other peers are as they were |
| `DeviceRuns.PresharedKeyStays` | internal/transport/peer.go:61-113 | over every run a peer has the preshared key it was first added with |
| `DeviceRuns.TableBound` | internal/transport/indextable.go:39-93 | the table has at most four entries a peer |
| `DeviceRuns.CurrentChanges` | internal/transport/noise-protocol.go:592-633 | a step changes `current` only by an initiator's derivation or a valid packet under that keypair |
| `DeviceRuns.NoUnconfirmedResponderKey` | internal/transport/receive.go:461-472 | in every run a responder's keypair is current only after a valid packet under it; next is a responder's; the slots share no keypair |
| `DeviceRuns.PacketPromotes` | internal/transport/noise-protocol.go:616-633 | in every reachable state an accepted packet that opens under `next` makes it current and clears next; the old current can still be looked up and only the entry of the old previous leaves the table; every other packet changes nothing, and the answer is true exactly then |
| `DeviceRuns.SessionSlots` | internal/transport/noise-protocol.go:581-611 | in every reachable state, a session begun as initiator is current at once and the keypair the other side may still use is previous; one begun as responder is next and current stays; all that is kept can be looked up |
| `DeviceRuns.ExpiryForgets` | internal/transport/peer.go:215-232 | after expiry no response to the handshake is accepted and no session comes of it; the keypairs stay and can be looked up |
| `DeviceRuns.TimestampForward` | internal/transport/noise-protocol.go:314-350 | no step turns a peer's timestamp back |
| `DeviceRuns.AcceptedStampsIncrease` | internal/transport/noise-protocol.go:314-350 | over a whole run of atomic steps, initiations accepted from one peer carry strictly increasing stamps |
| `DeviceRuns.InterruptedResponse` | internal/transport/noise-protocol.go:501-520 | zeroing between check and write of a response leaves a current keypair with no table entry |
| `KeyFreshness.EveryRunIsFresh` | internal/transport/noise-protocol.go:527-579 | in every run that draws each ephemeral once, a device's own ephemeral lies in every live chain key, no two handshakes hold the same, and no session came from one that is still held |
| `KeyFreshness.DerivedKeysDistinct` | internal/transport/noise-protocol.go:527-579 | over every such run all derived keypairs have pairwise distinct send keys and pairwise distinct receive keys |
| `KeyFreshness.SlotsHoldDerived` | internal/transport/noise-protocol.go:581-611 | in every run the slots of every peer hold only keypairs derived in it, numbered in order |
| `SplitHandshake.WriteIsAtomic` | internal/transport/noise-protocol.go:441-516 | the write of a response does what consuming it at that moment would do, if and only if the handshake still waits with the ephemeral that was checked |
| `SplitHandshake.TakeIsAtomic` | internal/transport/noise-protocol.go:314-345 | the write of an initiation does what consuming it at that moment would do, if and only if its peer still runs, its stamp is still newer and it is no flood |
| `SplitHandshake.TakeKeeps` | internal/transport/noise-protocol.go:328-345 | whatever the handshake has become meanwhile, writing an initiation that was once tested keeps the invariant |
| `SplitHandshake.WaitingRunIsSafe` | internal/transport/noise-protocol.go:314-516 | over every interleaving of tests and writes of any number of workers with all other steps, the invariant holds and no ephemeral is in two live handshakes or sessions, if every response written finds its handshake waiting; nothing is asked of initiations |
| `SplitHandshake.WaitingKeysDistinct` | internal/transport/noise-protocol.go:314-579 | in such a run the table is exact and all session keys are pairwise distinct |
| `SplitHandshake.FittingRunIsAtomic` | internal/transport/noise-protocol.go:314-516 | if every write of either kind meets its condition, the run is a run of atomic steps |
| `SplitHandshake.WriteDecidesKeys` | internal/transport/noise-protocol.go:507-579 | whatever the handshake is by then, the session begun after a write has the keys of the response that was checked |
| `SplitHandshake.DuplicateResponse` | internal/transport/noise-protocol.go:507-579 | from every state with a valid response, two workers on it lead to two keypairs with the same keys |
| `SplitHandshake.DuplicateResponseAfterInitiation` | internal/transport/noise-protocol.go:507-579 | so they do with a new initiation in between, and then the invariant holds in every state on the way |
| `SharedKeys.EveryRunTraced` | internal/transport/noise-protocol.go:353-579 | over every run with no condition on any write, every session has the keys of the response last written for its peer, or of an ephemeral the device drew to answer with, and no two of the latter are the same |
| `SharedKeys.SharedExactly` | internal/transport/noise-protocol.go:441-579 | over every such run two sessions share a send key, and a receive key, if and only if both follow writes of a response with the same ephemeral to an initiation with the same ephemeral; then tag and peer are the same too |
| `Duplicates.ResponseReachable` | internal/transport/noise-protocol.go:179-499 | for any two devices that get to know each other, the initiator reaches a state in which the other's answer is found right |
| `Duplicates.TwinsReachable` | internal/transport/noise-protocol.go:421-579 | a run from a fresh device to two sessions with the same keys |
| `Duplicates.ExactTwinsReachable` | internal/transport/noise-protocol.go:421-579 | another one on which the invariant holds in every state after the first session |
| `Initiations.AcceptedIf` | internal/transport/noise-protocol.go:249-330 | an initiation is accepted if and only if its peer runs, its stamp opens under the two static keys, is newer than the recorded one, and it is no flood |
| `Initiations.TimestampStep` | internal/transport/noise-protocol.go:314-350 | a step leaves a peer's timestamp alone or sets it to that of a genuine initiation just delivered |
| `Initiations.InOrderIsNoReplay` | internal/transport/noise-protocol.go:314-330 | over every run, whatever forged, doubled or late messages came before: a genuine initiation stamped at least a tick after each genuine one delivered before is no replay, and is accepted if and only if its peer runs and it is no flood |
| `Initiations.SameTickIsReplay` | internal/transport/noise-protocol.go:314-322 | an initiation stamped after the recorded one is a replay if and only if both fall into one tick, and then nothing changes |
| `InitiationRace.RecordNeverGoesBack` | internal/transport/noise-protocol.go:314-345 | with any number of workers between test and write, the recorded stamp is the newest accepted one and never goes back |
| `InitiationRace.IncreasingIfNewer` | internal/transport/noise-protocol.go:314-345 | accepted stamps increase strictly if and only if every write finds its stamp newer than the recorded one; each is newer than all accepted before its test |
| `InitiationRace.SameInitiationTwice` | internal/transport/noise-protocol.go:314-345 | a run in which two workers accept the same initiation |
| `Agreement.InitiationAgrees` | internal/transport/noise-protocol.go:179-351 | a delivered initiation is accepted and leaves both sides with equal hash and chain key |
| `Agreement.ResponseAgrees` | internal/transport/noise-protocol.go:353-522 | a delivered response is accepted and leaves both sides with equal hash and chain key, indices crossed |
| `Agreement.SessionsCross` | internal/transport/noise-protocol.go:527-579 | each side's send key is the other's receive key, they differ, and indices cross |
| `Agreement.HonestHandshake` | internal/transport/noise-protocol.go:179-611 | all four steps and both derivations succeed between any two devices that meet the code's own conditions, with all of the above |
| `Agreement.ConfirmedHandshake` | internal/transport/noise-protocol.go:179-633 | and after the initiator's first packet both ends send under keypairs that cross, each found under the index the other one uses |
| `Agreement.TagImpliesAgreement` | internal/transport/noise-protocol.go:402-499 | for any two reachable states: if the accepted tag is one a responder sealed, both name each other, with the same preshared key, ephemerals, hash, chain key and session keys |
| `Replay.AcceptedOnce` | internal/replay/replay.go:38-63 | over a sequence of calls no counter is accepted twice or at the limit |
| `Replay.NoAlias` | internal/replay/replay.go:10-29 | two counters visible at once share a ring bit only if they are equal |
| `Replay.MoveWindow` | internal/replay/replay.go:43-52 | clearing the skipped blocks, at most all 128, is all that moving the window takes |
| `Replay.MarkCounter` | internal/replay/replay.go:57-62 | setting one bit adds exactly that counter, and changes the word exactly if it was new |
| `Replay.Filter.constructor` | internal/replay/replay.go:25-29 | a new filter represents the empty set |
| `Replay.Filter.Reset` | internal/replay/replay.go:31-34 | clearing block 0 alone makes any ring represent the empty set |
| `Replay.Filter.ValidateCounter` | internal/replay/replay.go:38-63 | accepts if and only if the counter is below the limit, at most 8128 behind the highest accepted, and new; the ring then represents the set with it |
| `Replay.Replay` | internal/replay/replay.go:38-63 | a filter answers a whole sequence of calls as the set does |
| `Replay.ResetIsLikeNew` | internal/replay/replay.go:31-34 | a reset filter and a new one answer every later sequence alike |
| `Tai64n.BigEndianOrder` | internal/tai64n/tai64n.go:23-30 | big-endian bytes compare like the numbers |
| `Tai64n.StampOrder` | internal/tai64n/tai64n.go:23-38 | stamps compare like 64-bit seconds, then whole ticks of 2^24 ns |
| `Tai64n.StampMonotone` | internal/tai64n/tai64n.go:23-38 | never backwards in time, and strictly later once a tick apart |
| `Tai64n.StampReads` | internal/tai64n/tai64n.go:23-30 | the first eight bytes read as 2^62 + 10 + the Unix seconds, the last four as the nanoseconds down to a tick |
| `Tai64n.StampWraps` | internal/tai64n/tai64n.go:23-38 | for any two times a tick apart the later one has the later stamp if and only if the wrap of the seconds is not between them |
| `Tai64n.StampWrapsExample` | internal/tai64n/tai64n.go:23-38 | a pair of times with the wrap between them |
| `Nonce.AddKeeps` | internal/transport/send.go:353-360 | an add keeps the invariant, and with up to 8192 senders does not wrap |
| `Nonce.NonceSafety` | internal/transport/send.go:353-360 | over every interleaving of up to 8193 senders and any expiries no nonce is issued twice or at the limit; up to 8192 never wrap the counter |
| `Nonce.OneMoreSenderWraps` | internal/transport/constants.go:17 | with 8193 senders some interleaving wraps the counter |
| `Nonce.TwoMoreSendersReuse` | internal/transport/constants.go:17 | with 8194 senders some interleaving issues nonce 0 twice |
| `Datapath.PaddingReachesBoundary` | internal/transport/send.go:416-429 | for every size and MTU padding is 0 to 15 bytes and ends at the first multiple of 16 or at the MTU |
| `Datapath.PaddedPacket` | internal/transport/send.go:416-429 | a packet of at most MTU bytes is padded to the first multiple of 16 or to the MTU, never past it; a longer one like what is left of it after whole MTUs |
| `Datapath.EndsAreProper` | internal/transport/send.go:353-366 | two devices after runs that draw each ephemeral once, with up to 8193 senders on each nonce counter, have distinct keys and issue distinct nonces |
| `Datapath.OpensOnlyWhatWasSent` | internal/transport/receive.go:246-268 | what opens under a key of the sender was sent under that key with that counter |
| `Datapath.EveryState` | internal/transport/receive.go:461-489 | the channel invariant holds in every state of every run |
| `Datapath.DeliveredOnce` | internal/transport/receive.go:461-489 | between any two such devices, under drops, duplicates, reordering and foreign boxes, each delivery under a key of the sender is of exactly one packet it sent and no other delivery is of that packet; content is the packet and 0 to 15 zeroes; both sides agree on keepalives |
| `Datapath.DeliveredIfAdmitted` | internal/transport/receive.go:461-489 | an arriving genuine message is delivered exactly if the keypair has its key and the filter of that keypair admits its counter |
| `Datapath.SharedKeyDeliversTwice` | internal/transport/receive.go:461-489 | if two keypairs of the receiver share a key, one packet is delivered under both |
| `Datapath.Decrypt` | internal/transport/receive.go:246-268 | opens with the counter as nonce, and the outcome is what the channel model says for any filter state |
| `Datapath.ReceiveOne` | internal/transport/receive.go:461-476 | one element changes only its own keypair's filter, as the channel model says |
| `Datapath.ReceiveContainer` | internal/transport/receive.go:453-490 | the sink gets the contents of exactly those elements that open, are admitted after those before them and are not empty, each once and in the order of the elements; the filters have seen exactly what passed |
| `Datapath.ReceivesInOrder` | internal/transport/receive.go:461-489 | the same for every prefix of a container |
| `Sink.EachIsAll` | internal/transport/receive.go:453-490 | receiving container by container is receiving all their elements in a row |
| `Sink.SinkInOrder` | internal/transport/receive.go:453-490 | under every interleaving of the workers the sink has got exactly the packets that pass of a prefix of what was queued, in the order it was queued |
| `Segments.ChopConcat` | internal/conn/bind_std.go:438-485 | cutting undoes concatenating segments of one size with a possibly shorter last one |
| `Segments.ConcatChop` | internal/conn/bind_std.go:489-531 | concatenating undoes cutting, and the cut is uniform |
| `Segments.EmptyIsLost` | internal/conn/bind_std.go:438-485 | cutting does not find an empty last segment again |
| `Coalesce.CutCarries` | internal/conn/bind_std.go:438-485 | cutting a message gives its group back if no empty datagram was appended to others, and fewer otherwise |
| `Coalesce.PartitionStream` | internal/conn/bind_std.go:438-485 | messages that hold consecutive groups give back the whole stream, if and only if no empty datagram was appended |
| `Coalesce.CarriesJoins` | internal/conn/bind_std.go:454-459 | within a message every datagram met the conditions for joining those before it |
| `Coalesce.GroupsDetermined` | internal/conn/bind_std.go:438-485 | there is one way to divide the datagrams into groups that end only where the next one cannot join: number, limits and contents of the messages are determined |
| `Coalesce.MergeInto` | internal/conn/bind_std.go:450-470 | appending a datagram that fits keeps the loop invariant, with the segment size set after the last one |
| `Coalesce.StartMessage` | internal/conn/bind_std.go:472-482 | closing a message and starting the next keeps the loop invariant |
| `Coalesce.CoalesceMessages` | internal/conn/bind_std.go:438-485 | for all lists of buffers: each message holds a consecutive group of at most 64 datagrams that ends only where the next one cannot join, fits payload limit and capacity, is even but for its last, and has its segment size set once, a single one never; cutting gives the inputs back in order if and only if no empty one was appended, so whenever none is empty; no other message is touched |
| `Coalesce.CoalescedDetermined` | internal/conn/bind_std.go:438-485 | that contract admits one result: any two arrays of messages that meet it are the same |
| `Split.SplitMessage` | internal/conn/bind_std.go:505-527 | one message is cut into the next slots despite overlap, or an overflow is reported exactly when a slot would pass the message |
| `Split.SplitCoalescedMessages` | internal/conn/bind_std.go:489-531 | without error the first slots hold exactly the segments of the unread messages in order, cut off where a buffer is shorter; bad control data and overflow are reported exactly when they occur |
| `Split.FilledWhole` | internal/conn/bind_std.go:513-519 | the slots hold their segments whole if and only if each buffer is long enough for its own |
| `Split.CutIsJoined` | internal/conn/bind_std.go:505-519 | a message is cut into the datagrams that were joined if and only if the segment size is at most its length |
| `Split.PlanIsJoined` | internal/conn/bind_std.go:489-531 | all that is written is what was joined, if and only if that holds of every message read |
| `Split.NeverOverflows` | internal/conn/bind_std.go:489-531 | k unread messages of at most m segments never overflow if k*m is at most the number of slots |
| `Split.ReceivePositionNeverOverflows` | internal/conn/bind_std.go:233 | reading at 126 of 128 with 64-segment messages never overflows |
| `Offload.RoundTrip` | internal/conn/bind_std.go:438-531 | splitting what coalescing sent gives the datagrams back in order if and only if none of them is empty, and in the last two of 128 slots the split succeeds |
| `Offload.EmptyFirst` | internal/conn/bind_std.go:438-531 | two datagrams, the first empty, that coalescing sends as they are and of which the split gives back none |
| `Pipeline.EveryRun` | internal/transport/send.go:368-383 | under every interleaving a container is locked from before it is queued until its worker is done, and queues are in order |
| `Pipeline.PipelineSafety` | internal/transport/send.go:474-515 | a sender takes containers in exactly the order they entered its queue, each once, with every element encrypted |
| `Pipeline.WorkersStayClear` | internal/transport/send.go:443-471 | a worker only touches a container no sender has taken, and unlocks a locked mutex |
| `Pipeline.SenderNotStuck` | internal/transport/receive.go:453-457 | a container whose mutex is locked is with a worker or on its way to one |
| `Staged.SendingIsRight` | internal/transport/send.go:335-399 | what is sent is the longest prefix there are nonces for, numbered consecutively; what stays is staged in order within the room there was, a container that was begun behind the others, and a handshake is asked for exactly then |
| `Staged.SendDoes` | internal/transport/send.go:335-399 | one call: nothing if the device is down or nothing is staged; without a usable keypair exactly one handshake is asked for; with one the longest prefix goes to encryption if the peer runs and to the pool otherwise, and a handshake is asked for exactly if something stays |
| `Staged.SendConserves` | internal/transport/send.go:335-399 | every element ends in exactly one of queued with a nonce, staged again or given back |
| `Staged.Queue.StagePackets` | internal/transport/send.go:316-333 | appends, dropping the oldest container only if the queue is full |
| `Staged.Queue.FlushStagedPackets` | internal/transport/send.go:401-414 | empties the queue and gives back every element in order |
| `Staged.Queue.NumberElems` | internal/transport/send.go:350-367 | a prefix gets consecutive nonces up to the limit; the rest is set apart in order |
| `Staged.Queue.SendContainer` | internal/transport/send.go:350-394 | one round leaves the outcome of the whole call as it was |
| `Staged.Queue.SendStagedPackets` | internal/transport/send.go:335-399 | terminates, and the peer's state is that of `Staged.Send`, which `Staged.SendDoes` says case by case |
| `RateLimiter.RateBound` | internal/ratelimiter/ratelimiter.go:102-140 | in any stretch of requests of one address the allowed ones cost less than a full purse and the time elapsed |
| `RateLimiter.SlowEnoughIsAllowed` | internal/ratelimiter/ratelimiter.go:102-140 | a request at least one packet's cost after the previous one is allowed |
| `RateLimiter.AllowedExactly` | internal/ratelimiter/ratelimiter.go:102-140 | a request is allowed if and only if, with it, the packets allowed in every stretch that ends there cost less than a full purse and the time elapsed |
| `RateLimiter.RequestUnaffected` | internal/ratelimiter/ratelimiter.go:87-100 | a dropped entry and the kept one lead to the same answer and entry |
| `RateLimiter.SweepingIsUnobservable` | internal/ratelimiter/ratelimiter.go:87-140 | any history of requests and looks of the collector, in which time does not go back for any one address, gets the answers of a table never cleaned |
| `RateLimiter.AddressAlone` | internal/ratelimiter/ratelimiter.go:87-140 | an address is answered as if it were alone |
| `RateLimiter.LimiterGuarantees` | internal/ratelimiter/ratelimiter.go:15-21 | bound and guarantee for every address over every such history, and a request is allowed if and only if it keeps every stretch of its address within the bound |
| `RateLimiter.EntryObject.Spend` | internal/ratelimiter/ratelimiter.go:124-139 | the entry and the answer are those of the per-address rule |
| `RateLimiter.Ratelimiter.Allow` | internal/ratelimiter/ratelimiter.go:102-140 | called alone, answers and changes one entry as the per-address rule says and no other |
| `RateLimiter.Ratelimiter.Cleanup` | internal/ratelimiter/ratelimiter.go:87-100 | looks at every entry once, each with its own reading of the clock, whatever the order; drops exactly those not used for more than a second by that reading; reports whether the table is empty |
| `LimiterRace.UndisturbedRun` | internal/ratelimiter/ratelimiter.go:102-140 | any interleaving of lookups, readings, inserts, updates and collections refines the table, if no insert was overtaken since its lookup and no update's entry was dropped |
| `LimiterRace.UndisturbedGuarantees` | internal/ratelimiter/ratelimiter.go:102-140 | then the answers are those of a table never cleaned, and bound and guarantee hold for every address |
| `LimiterRace.InsertIsRequest` | internal/ratelimiter/ratelimiter.go:109-121 | an insert that meets an entry does what a request would have done if and only if that entry is full by its reading |
| `LimiterRace.UpdateIsRequest` | internal/ratelimiter/ratelimiter.go:123-139 | an update does what a request on the table would have done if and only if its entry is still there, or both are turned down and the table's entry would not change |
| `LimiterRace.OrphanUpdate` | internal/ratelimiter/ratelimiter.go:123-139 | an update of a dropped entry leaves the table as it is, whatever it answers |
| `LimiterRace.MissingTogether` | internal/ratelimiter/ratelimiter.go:104-121 | however many workers miss a new address together, all are allowed at one instant; five break the bound |
| `LimiterRace.OrphansSpend` | internal/ratelimiter/ratelimiter.go:87-139 | five requests at one instant are allowed over a dropped entry and its successor, of which a table never cleaned turns one down |
| `LimiterRace.OrphansReachable` | internal/ratelimiter/ratelimiter.go:87-139 | a run that gets there |
| `LimiterRace.LateInsert` | internal/ratelimiter/ratelimiter.go:104-121 | a run in which an insert finds no entry and five are still allowed with one reading of the clock |
| `RefCount.EveryState` | internal/transport/transport.go:437-473 | under every interleaving of Up, Down, UpdatePort, receiver exits and Close the counts are exactly the references held |
| `RefCount.QueuesOutliveReceivers` | internal/transport/channels.go:45-73 | each count is the live receive routines plus one until Close releases it; no queue is closed while a routine may write or an update is under way |
| `RefCount.CountsNeverReused` | internal/transport/transport.go:362-394 | no count is raised from zero or falls below it, and a closed queue stays closed with a zero count |
| `RefCount.CloseReleasesQueues` | internal/transport/transport.go:362-394 | when Close is through, every routine is gone and both counts are zero |
| `RefCount.OperationsEnd` | internal/transport/transport.go:143-214 | in every reachable state every step that begins nothing new lowers a rank, and one is possible while an operation is under way: Up, Down, Close and UpdatePort come to an end |
| `RefCount.UpStarts` | internal/transport/transport.go:437-473 | going up starts the receive routines, each with a reference to both queues |
| `Cookie.ReplyInstallsCookie` | internal/transport/cookie.go:195-214 | a reply is accepted exactly while its message is the latest, and then installs the checker's cookie for that source |
| `Cookie.CookieLasts` | internal/transport/cookie.go:118-145 | while the secret is fresh and no refresh was pending, no run of the two changes the secret or the cookie |
| `Cookie.StampedPasses` | internal/transport/cookie.go:70-116 | a message stamped anywhere in such a run passes the first check, and the second for exactly that source if and only if the cookie was fresh |
| `Cookie.PendingRefreshBreaksCookie` | internal/transport/cookie.go:127-141 | in every state with a pending refresh, one step makes a fresh cookie fail under a fresh secret |
| `Cookie.OtherReplyBreaksCookie` | internal/transport/cookie.go:195-214 | an accepted reply with another cookie makes a freshly stamped message fail the second check, so the condition on replies is needed |
| `Cookie.OverlappingCallers` | internal/transport/cookie.go:127-141 | two callers that find the secret stale lead to such a state |
| `Cookie.CookieChecker.CheckMAC2` | internal/transport/cookie.go:87-116 | true exactly for a fresh secret and the MAC under the source's cookie |
| `Cookie.CookieChecker.CreateReply` | internal/transport/cookie.go:118-172 | refreshes a stale secret only, and seals the source's cookie for the message's first MAC |
| `Cookie.CookieGenerator.ConsumeReply` | internal/transport/cookie.go:195-214 | true exactly if a message was stamped and the reply opens with its MAC; the cookie changes exactly then |
| `Cookie.CookieGenerator.AddMacs` | internal/transport/cookie.go:216-249 | writes the first MAC, and the second exactly if the cookie is fresh; remembers the first |
| `Cookie.Exchange` | internal/transport/cookie.go:45-249 | on the objects, after one reply a later message passes the second check for exactly 120 seconds |
| `CookieExchange.SendHandshakeCookie` | internal/transport/send.go:189-208 | the reply is addressed to the index in the message it answers |
| `CookieExchange.MessageNamesIndex` | internal/transport/noise-protocol.go:236-247 | a message names the index under which its handshake is entered |
| `CookieExchange.ReplyFindsHandshake` | internal/transport/receive.go:285-314 | in every reachable state, while the peer holds that index, a reply reaches the generator that stamped the message and no other, and installs the cookie exactly if the message is its latest |
| `Retransmit.ExpireWaits` | internal/transport/timers.go:78-108 | a retry is never turned down as too soon, leaves when the timer and the latencies let it, and arms the timer again |
| `Retransmit.UnansweredHandshake` | internal/transport/timers.go:78-108 | for all latencies and jitter an unanswered handshake sends exactly 20 initiations at least 5 s apart, each when 5 s, jitter and latencies have passed since the one before, then empties the staged queue and stays unarmed; not before |
| `Retransmit.EveryRun` | internal/transport/send.go:98-116 | whatever triggers them, any two initiations are begun at least 5 s apart unless the peer was started or its keypairs were expired in between; attempts stay at most 19 |
| `Retransmit.ResetLetsBegin` | internal/transport/peer.go:169-171 | after either, the next initiation is begun as soon as it is asked for, in every state |
| `Retransmit.StoppedAndStarted` | internal/transport/peer.go:148-252 | a run in which a peer is stopped and started again and begins two initiations at the same time |
| `Retransmit.ExpireReArms` | internal/transport/timers.go:78-108 | an expiration arms the timer again if and only if attempts are left and it is not too soon; the queue is emptied only when none are left |
| `Retransmit.QuietAfterComplete` | internal/transport/timers.go:188-196 | after any run, once a handshake is completed no initiation is begun or sent until something other than the retransmission timer asks for one |
| `Retransmit.RespondHoldsBack` | internal/transport/send.go:148-186 | a response that was sent keeps initiations from being begun for 5 s |
| `Retransmit.StopSilences` | internal/transport/peer.go:234-252 | after any run a stopped peer has nothing staged and sends no retry |
| `Retransmit.Peer.SendHandshakeInitiation` | internal/transport/send.go:98-146 | the whole new state, as the specification gives it |
| `Retransmit.Peer.ExpiredRetransmitHandshake` | internal/transport/timers.go:78-108 | the whole new state, as the specification gives it |
| `TimerSync.EveryState` | internal/transport/timers.go:27-66 | the timer invariant holds under every interleaving |
| `TimerSync.ExpiresAtMostOncePerMod` | internal/transport/timers.go:27-52 | there are never more expirations than calls of Mod |
| `TimerSync.ExpiresExactly` | internal/transport/timers.go:27-66 | the expiration function runs exactly if, when a firing gets to look, there was a Mod since the last Del, DelSync or other such look |
| `TimerSync.DelSyncIsFinal` | internal/transport/timers.go:61-66 | from the second Del on, and so after DelSync returns, no expiration runs or starts until a Mod, though the callback may re-arm |
| `TimerSync.MayExpireEarly` | internal/transport/timers.go:27-52 | a run in which a re-armed timer expires while still armed |

## Left out

- Device steps are atomic: the locks inside `CreateMessageInitiation`, `CreateMessageResponse` and `BeginSymmetricSession` are not modelled, nor are the two that `ZeroAndFlushAll` and `ExpireCurrentKeypairs` take one after the other; where `ConsumeMessageInitiation` and `ConsumeMessageResponse` let go of theirs, see `SplitHandshake`, which takes looking up the index and checking the response as one step, as it does finding the peer and testing the initiation.
- Failure of the random source, and drawing index 0, are assumed away; an index drawn for a handshake is not 0.
- That an ephemeral key is drawn once is a condition on runs in `KeyFreshness` and `Datapath`, and on steps in `SplitHandshake`.
- Transport.TransportObject.NewIndexForHandshake: the index draws contain a free index; the loop of the source runs until it finds one.
- Transport.TransportObject.ZeroAndFlushAll: does not model emptying the staged queue; `Staged` models that by itself.
- Transport.TransportObject.ExpireCurrentKeypairs: does not model setting back the time of the last handshake and storing the nonce limit; `Retransmit` and `Nonce` model those by themselves.
- Removing peers, changing keys at run time (`RemovePeer`, `SetPrivateKey`, `SetPresharedKey`) and endpoints.
- Ages of keypairs: `Staged` takes as a parameter whether the current keypair is usable; rekeying by age and message count is not modelled.
- Curve25519, ChaCha20-Poly1305 and BLAKE2s themselves; a box is a term and its length is that of its content and tag.
- Encoding of messages as bytes; a message is a record of its fields, and a length that does not fit is not modelled.
- Replay.Filter.ValidateCounter: the 64-bit words are lists of 64 bits; counters are unbounded, so the wrap of `last` past 2^64 is not modelled (the limit excludes it).
- Datapath.ReceiveContainer: the loop goes on where the source skips an element because sending staged packets failed, and hands over at once what the source holds over to the next container when keeping the key fresh failed; endpoints, timers and counters of bytes are not modelled.
- Datapath.DeliveredOnce: only the sender seals under its send keys; the two devices' steps are atomic, as in `KeyFreshness`.
- Coalesce.CoalesceMessages: buffers do not share a backing array, so appending to one does not overwrite another; the retry without offload is not modelled.
- Split.SplitCoalescedMessages: a segment size is at most the length of the buffer, past which the source panics, and buffers are distinct.
- Staged.Queue.SendStagedPackets: one call at a time; concurrent callers are modelled in `Nonce` for the counter only.
- Pipeline: closing of the queues and the early return of buffers of a stopped peer; a container is never reused under the same number.
- RefCount: the encryption queue, removing of peers during `Close` and the workers' own wait group.
- RateLimiter.Ratelimiter.Allow: one caller at a time, see `LimiterRace` for more; the overflow of 64-bit nanoseconds after 292 years of silence, and starting and stopping of the collector.
- LimiterRace: the table lock that the collector holds from its first look to its last; lookups may come in between.
- Retransmit.UnansweredHandshake: the keepalive timer that giving up also deletes; the peer is not stopped, started or expired meanwhile.
- TimerSync: deadlines; the runtime may fire an armed timer at any time.
- Sockets, control messages and offload detection of internal/conn; the segment size is a number set or read per message.
- WaitPool of pools.go, whose limit is 0 on every platform.
- net.go, source_sink.go, noisysocket.go, dns.go and config: lookups, name resolution and configuration, which take no part in the protocols modelled here.
