/**
 One packet's way: padded and sealed by RoutineEncryption (internal/transport/send.go), carried by a network that drops,
 duplicates, reorders and adds boxes of its own, opened by RoutineDecryption and passed on by RoutineSequentialReceiver
 (internal/transport/receive.go). The two ends are any two devices after any run.
 */
module Datapath {
  import opened Common
  import opened Noise
  import Device
  import KeyFreshness
  import Nonce
  import Replay

  const DEFAULT_MTU := 1420
  const HEADER_SIZE := 16
  const TAG_SIZE := 16
  const KEEPALIVE_SIZE := HEADER_SIZE + TAG_SIZE

  type Bytes = seq<nat>

  // ---- Sender ----------------------------------------------------------------------------------

  function RoundUp(n: nat): (r: nat)
    ensures n <= r < n + 16 && r % 16 == 0
  {
    (n + 15) / 16 * 16
  }

  /** Where a unit may end: after a multiple of 16 bytes, or at the MTU. */
  predicate Boundary(n: nat, mtu: nat) {
    n % 16 == 0 || n == mtu
  }

  function LastUnit(packetSize: nat, mtu: nat): (r: nat)
    ensures mtu > 0 ==> r <= mtu
  {
    if mtu > 0 && packetSize > mtu then packetSize % mtu else packetSize
  }

  function PaddingSize(packetSize: nat, mtu: nat): int {
    var lastUnit := LastUnit(packetSize, mtu);
    if mtu > 0 && RoundUp(lastUnit) > mtu then mtu - lastUnit else RoundUp(lastUnit) - lastUnit
  }

  lemma NoMultipleBetween(n: nat, k: nat)
    requires n <= k < RoundUp(n)
    ensures k % 16 != 0
  {}

  /** Padding reaches to the first boundary: it is never negative and never 16 or more, for every size and every MTU. */
  lemma PaddingReachesBoundary(packetSize: nat, mtu: nat)
    ensures var (u, r) := (LastUnit(packetSize, mtu), PaddingSize(packetSize, mtu));
            && 0 <= r < 16
            && (mtu > 0 ==> u + r <= mtu)
            && Boundary(u + r, mtu)
            && (forall n: nat | u <= n < u + r :: !Boundary(n, mtu))
  {
    var u, r := LastUnit(packetSize, mtu), PaddingSize(packetSize, mtu);
    forall n: nat | u <= n < u + r ensures !Boundary(n, mtu) {
      NoMultipleBetween(u, n);
    }
  }

  /**
   Of the packet itself: one of at most MTU bytes is padded to a multiple of 16 or to the MTU, whichever comes first. A
   longer one is padded like the part of it that is left over after whole MTUs.
   */
  lemma PaddedPacket(packetSize: nat, mtu: nat)
    ensures var r := PaddingSize(packetSize, mtu);
            && 0 <= r < 16
            && (mtu == 0 || packetSize <= mtu ==>
                  && (mtu > 0 ==> packetSize + r <= mtu) && Boundary(packetSize + r, mtu)
                  && forall n: nat | packetSize <= n < packetSize + r :: !Boundary(n, mtu))
            && (0 < mtu < packetSize ==> r == PaddingSize(packetSize % mtu, mtu))
  {
    PaddingReachesBoundary(packetSize, mtu);
  }

  function Zeroes(n: nat): Bytes {
    seq(n, _ => 0)
  }

  function Content(packet: Bytes): Bytes {
    PaddingReachesBoundary(|packet|, DEFAULT_MTU);
    packet + Zeroes(PaddingSize(|packet|, DEFAULT_MTU))
  }

  function Box(key: Term, nonce: nat, packet: Bytes): Term {
    Sealed(key, Octets([nonce]), Octets(Content(packet)), Octets([]))
  }

  /** The sender takes a message for a keepalive by its length, the receiver by that of what it opened. */
  predicate SenderSeesKeepalive(packet: Bytes) {
    HEADER_SIZE + |Content(packet)| + TAG_SIZE == KEEPALIVE_SIZE
  }

  predicate ReceiverSeesKeepalive(content: Bytes) {
    |content| == 0
  }

  // ---- The two ends ----------------------------------------------------------------------------

  /** The keypairs the sender and the receiver have derived, and the nonces issued for each of the sender's. */
  datatype Ends = Ends(sending: seq<Device.Keypair>, receiving: seq<Device.Keypair>, issued: seq<seq<nat>>)

  ghost predicate Proper(ends: Ends) {
    && KeyFreshness.DistinctKeys(ends.sending) && KeyFreshness.DistinctKeys(ends.receiving)
    && |ends.issued| == |ends.sending| && forall n | 0 <= n < |ends.issued| :: Nonce.Usable(ends.issued[n])
  }

  /**
   The ends of two devices after runs that draw each ephemeral once; `adds` are the steps of the senders on each nonce
   counter.
   */
  ghost predicate EndsOf(ends: Ends, a: nat, run: seq<Device.Action>, b: nat, run': seq<Device.Action>, senders: nat,
                         adds: seq<seq<Nonce.Step>>) {
    && Device.Run(a, run).Some? && KeyFreshness.DrawnOnce(run) && ends.sending == KeyFreshness.Derived(a, run)
    && Device.Run(b, run').Some? && KeyFreshness.DrawnOnce(run') && ends.receiving == KeyFreshness.Derived(b, run')
    && senders <= Nonce.MAX_SENDERS + 1 && |adds| == |ends.issued| == |ends.sending|
    && forall n | 0 <= n < |adds| ::
         Nonce.Run(senders, adds[n]).Some? && ends.issued[n] == Nonce.Run(senders, adds[n]).value.issued
  }

  lemma EndsAreProper(ends: Ends, a: nat, run: seq<Device.Action>, b: nat, run': seq<Device.Action>, senders: nat,
                      adds: seq<seq<Nonce.Step>>)
    requires EndsOf(ends, a, run, b, run', senders, adds)
    ensures Proper(ends)
  {
    KeyFreshness.DerivedKeysDistinct(a, run);
    KeyFreshness.DerivedKeysDistinct(b, run');
    forall n | 0 <= n < |ends.issued| ensures Nonce.Usable(ends.issued[n]) {
      Nonce.NonceSafety(senders, adds[n]);
    }
  }

  // ---- The channel -----------------------------------------------------------------------------

  /** A packet sealed under a keypair of the sender with the nonce issued at `position`. */
  datatype Sent = Sent(keypair: nat, position: nat, packet: Bytes)

  /** What passed the replay filter of a keypair of the receiver. */
  datatype Delivery = Delivery(keypair: nat, counter: nat, content: Bytes)

  datatype State = State(sent: seq<Sent>, accepted: seq<set<nat>>, delivered: seq<Delivery>)

  datatype Step =
    | Send(keypair: nat, position: nat, packet: Bytes)
    | Arrive(keypair: nat, counter: nat, box: Term)

  predicate IsIssued(ends: Ends, x: Sent) {
    x.keypair < |ends.sending| && x.keypair < |ends.issued| && x.position < |ends.issued[x.keypair]|
  }

  function BoxOf(ends: Ends, x: Sent): Term
    requires IsIssued(ends, x)
  {
    Box(ends.sending[x.keypair].sendKey, ends.issued[x.keypair][x.position], x.packet)
  }

  ghost predicate SenderHolds(ends: Ends, key: Term) {
    exists m :: 0 <= m < |ends.sending| && ends.sending[m].sendKey == key
  }

  ghost predicate WasSent(ends: Ends, sent: seq<Sent>, box: Term) {
    exists i :: 0 <= i < |sent| && IsIssued(ends, sent[i]) && box == BoxOf(ends, sent[i])
  }

  /**
   A nonce that was issued is used for one packet. What arrives may be anything, in any order and any number of times,
   under any keypair, except a box under a key of the sender that the sender did not seal.
   */
  ghost predicate Enabled(ends: Ends, s: State, a: Step) {
    match a
    case Send(n, position, packet) =>
      && IsIssued(ends, Sent(n, position, packet))
      && forall i | 0 <= i < |s.sent| :: s.sent[i].keypair != n || s.sent[i].position != position
    case Arrive(n, _, box) =>
      n < |ends.receiving| && (box.Sealed? && SenderHolds(ends, box.sealKey) ==> WasSent(ends, s.sent, box))
  }

  /** What the receiver makes of one message under a key, given the counters accepted before. */
  ghost function Receive(key: Term, accepted: set<nat>, counter: nat, box: Term): (r: (set<nat>, bool, Bytes))
    ensures r.1 ==> r.0 == accepted + {counter} && counter !in accepted
    ensures !r.1 ==> r.0 == accepted
  {
    var plain := Open(key, Octets([counter]), box, Octets([]));
    if plain.None? || !plain.value.Octets? || !Replay.Admits(accepted, counter, REJECT_AFTER) then (accepted, false, [])
    else (accepted + {counter}, true, plain.value.b)
  }

  ghost function Next(ends: Ends, s: State, a: Step): State
    requires Enabled(ends, s, a) && |s.accepted| == |ends.receiving|
  {
    match a
    case Send(n, position, packet) => s.(sent := s.sent + [Sent(n, position, packet)])
    case Arrive(n, counter, box) =>
      var (accepted, ok, content) := Receive(ends.receiving[n].recvKey, s.accepted[n], counter, box);
      if !ok then s
      else s.(accepted := s.accepted[n := accepted], delivered := s.delivered + [Delivery(n, counter, content)])
  }

  ghost predicate Moves(ends: Ends, s: State, a: Step, s': State) {
    |s.accepted| == |ends.receiving| && Enabled(ends, s, a) && s' == Next(ends, s, a)
  }

  ghost predicate Behaviour(ends: Ends, states: seq<State>, trace: seq<Step>) {
    && |states| == |trace| + 1
    && states[0] == State([], seq(|ends.receiving|, _ => {}), [])
    && forall i {:trigger trace[i]} | 0 <= i < |trace| :: Moves(ends, states[i], trace[i], states[i + 1])
  }

  // ---- Invariant -------------------------------------------------------------------------------

  /** The delivery is of this packet: the keys fit, the counter is the nonce, and the content is the padded packet. */
  predicate Matches(ends: Ends, d: Delivery, x: Sent) {
    && d.keypair < |ends.receiving| && IsIssued(ends, x)
    && ends.receiving[d.keypair].recvKey == ends.sending[x.keypair].sendKey
    && d.counter == ends.issued[x.keypair][x.position] && d.content == Content(x.packet)
  }

  ghost predicate Genuine(ends: Ends, sent: seq<Sent>, d: Delivery) {
    exists i :: 0 <= i < |sent| && Matches(ends, d, sent[i])
  }

  /** Every nonce is used once. */
  ghost predicate SentOnce(ends: Ends, sent: seq<Sent>) {
    && (forall i | 0 <= i < |sent| :: IsIssued(ends, sent[i]))
    && (forall i, j | 0 <= i < j < |sent| :: sent[i].keypair != sent[j].keypair || sent[i].position != sent[j].position)
  }

  /** What was delivered is remembered by its filter, and was delivered once under its keypair. */
  ghost predicate AcceptedOnce(accepted: seq<set<nat>>, delivered: seq<Delivery>) {
    && (forall i | 0 <= i < |delivered| ::
          delivered[i].keypair < |accepted| && delivered[i].counter in accepted[delivered[i].keypair])
    && (forall i, j | 0 <= i < j < |delivered| ::
          delivered[i].keypair != delivered[j].keypair || delivered[i].counter != delivered[j].counter)
  }

  /** What was delivered under a key of the sender was sent. */
  ghost predicate AllGenuine(ends: Ends, sent: seq<Sent>, delivered: seq<Delivery>) {
    forall i | 0 <= i < |delivered| ::
      && delivered[i].keypair < |ends.receiving|
      && (SenderHolds(ends, ends.receiving[delivered[i].keypair].recvKey) ==> Genuine(ends, sent, delivered[i]))
  }

  ghost predicate Inv(ends: Ends, s: State) {
    |s.accepted| == |ends.receiving| && SentOnce(ends, s.sent) && AcceptedOnce(s.accepted, s.delivered)
    && AllGenuine(ends, s.sent, s.delivered)
  }

  lemma SendKeeps(ends: Ends, s: State, a: Step)
    requires Inv(ends, s) && a.Send? && Enabled(ends, s, a)
    ensures Inv(ends, Next(ends, s, a))
  {
    var s' := Next(ends, s, a);
    forall i | 0 <= i < |s'.delivered| && SenderHolds(ends, ends.receiving[s'.delivered[i].keypair].recvKey)
      ensures Genuine(ends, s'.sent, s'.delivered[i])
    {
      assert Genuine(ends, s.sent, s.delivered[i]);
      var k :| 0 <= k < |s.sent| && Matches(ends, s.delivered[i], s.sent[k]);
      assert s'.sent[k] == s.sent[k];
    }
  }

  /** What opens under a key of the sender was sent under that key with that counter. */
  lemma OpensOnlyWhatWasSent(ends: Ends, s: State, a: Step)
    requires a.Arrive? && Enabled(ends, s, a) && |s.accepted| == |ends.receiving|
    requires Receive(ends.receiving[a.keypair].recvKey, s.accepted[a.keypair], a.counter, a.box).1
    requires SenderHolds(ends, ends.receiving[a.keypair].recvKey)
    ensures Genuine(ends, s.sent,
                    Delivery(a.keypair, a.counter,
                             Receive(ends.receiving[a.keypair].recvKey, s.accepted[a.keypair], a.counter, a.box).2))
  {
    var i :| 0 <= i < |s.sent| && IsIssued(ends, s.sent[i]) && a.box == BoxOf(ends, s.sent[i]);
    assert Octets([a.counter]).b[0] == Octets([ends.issued[s.sent[i].keypair][s.sent[i].position]]).b[0];
    assert Matches(ends, Delivery(a.keypair, a.counter, a.box.plain.b), s.sent[i]);
  }

  lemma ArriveKeeps(ends: Ends, s: State, a: Step)
    requires Inv(ends, s) && a.Arrive? && Enabled(ends, s, a)
    ensures Inv(ends, Next(ends, s, a))
  {
    var s' := Next(ends, s, a);
    if s' != s {
      if SenderHolds(ends, ends.receiving[a.keypair].recvKey) {
        OpensOnlyWhatWasSent(ends, s, a);
      }
      assert s'.sent == s.sent;
      assert forall i | 0 <= i < |s.delivered| :: s'.delivered[i] == s.delivered[i];
    }
  }

  lemma {:induction false} EveryState(ends: Ends, states: seq<State>, trace: seq<Step>, i: nat)
    requires Behaviour(ends, states, trace) && i <= |trace|
    ensures Inv(ends, states[i])
  {
    if i > 0 {
      EveryState(ends, states, trace, i - 1);
      var s, a := states[i - 1], trace[i - 1];
      assert Moves(ends, s, a, states[i - 1 + 1]);
      if a.Send? {
        SendKeeps(ends, s, a);
      } else {
        ArriveKeeps(ends, s, a);
      }
    }
  }

  // ---- What it is for --------------------------------------------------------------------------

  /** Distinct keys and nonces: a delivery is of one packet at most. */
  lemma OnePacketEach(ends: Ends, s: State, d: Delivery, j: nat, k: nat)
    requires Proper(ends) && Inv(ends, s) && j < |s.sent| && k < |s.sent| && Matches(ends, d, s.sent[j])
             && Matches(ends, d, s.sent[k])
    ensures j == k
  {
    var x, y := s.sent[j], s.sent[k];
    assert x.keypair == y.keypair;
    assert Nonce.Usable(ends.issued[x.keypair]);
    assert x.position == y.position;
  }

  /** Distinct keys and the replay filter: a packet is delivered at most once, under whatever keypair. */
  lemma OneDeliveryEach(ends: Ends, s: State, x: Sent, d: nat, e: nat)
    requires Proper(ends) && Inv(ends, s) && d < |s.delivered| && e < |s.delivered|
    requires Matches(ends, s.delivered[d], x) && Matches(ends, s.delivered[e], x)
    ensures d == e
  {
    assert s.delivered[d].keypair == s.delivered[e].keypair;
  }

  /**
   Two devices after any runs that draw each ephemeral once, any interleaving of up to 8193 senders on each nonce
   counter, and whatever the network does: each delivery under a key of the sender is of exactly one packet it sent, no
   other delivery is of that packet, and the content is the packet followed by 0 to 15 zeroes.
   */
  lemma DeliveredOnce(ends: Ends, a: nat, run: seq<Device.Action>, b: nat, run': seq<Device.Action>, senders: nat,
                      adds: seq<seq<Nonce.Step>>,
                      states: seq<State>, trace: seq<Step>, n: nat, d: nat) returns (k: nat)
    requires EndsOf(ends, a, run, b, run', senders, adds) && Behaviour(ends, states, trace) && n <= |trace|
    requires d < |states[n].delivered| && states[n].delivered[d].keypair < |ends.receiving|
    requires SenderHolds(ends, ends.receiving[states[n].delivered[d].keypair].recvKey)
    ensures var (s, it) := (states[n], states[n].delivered[d]);
            && k < |s.sent| && Matches(ends, it, s.sent[k])
            && (forall j | 0 <= j < |s.sent| && Matches(ends, it, s.sent[j]) :: j == k)
            && (forall e | 0 <= e < |s.delivered| && Matches(ends, s.delivered[e], s.sent[k]) :: e == d)
            && PaddedTo(s.sent[k].packet, it.content)
            && (ReceiverSeesKeepalive(it.content) <==> SenderSeesKeepalive(s.sent[k].packet))
            && (ReceiverSeesKeepalive(it.content) <==> s.sent[k].packet == [])
  {
    EndsAreProper(ends, a, run, b, run', senders, adds);
    EveryState(ends, states, trace, n);
    var s, it := states[n], states[n].delivered[d];
    assert Genuine(ends, s.sent, it);
    k :| 0 <= k < |s.sent| && Matches(ends, it, s.sent[k]);
    forall j | 0 <= j < |s.sent| && Matches(ends, it, s.sent[j]) ensures j == k {
      OnePacketEach(ends, s, it, j, k);
    }
    forall e | 0 <= e < |s.delivered| && Matches(ends, s.delivered[e], s.sent[k]) ensures e == d {
      OneDeliveryEach(ends, s, s.sent[k], d, e);
    }
  }

  /** The packet and 0 to 15 zeroes behind it. */
  ghost predicate PaddedTo(packet: Bytes, content: Bytes) {
    && |packet| <= |content| < |packet| + 16 && content[..|packet|] == packet
    && forall i | |packet| <= i < |content| :: content[i] == 0
  }

  /**
   A message that was sent is delivered when it arrives under a keypair of the receiver, exactly if that keypair has
   its key and the filter of that keypair has not seen the counter and is not too far ahead.
   */
  lemma DeliveredIfAdmitted(ends: Ends, s: State, i: nat, n: nat)
    requires Inv(ends, s) && i < |s.sent| && n < |ends.receiving|
    ensures var x := s.sent[i];
            var nonce := ends.issued[x.keypair][x.position];
            var a := Arrive(n, nonce, BoxOf(ends, x));
            && Enabled(ends, s, a)
            && Next(ends, s, a).delivered ==
               if ends.receiving[n].recvKey == ends.sending[x.keypair].sendKey
                  && Replay.Admits(s.accepted[n], nonce, REJECT_AFTER)
               then s.delivered + [Delivery(n, nonce, Content(x.packet))] else s.delivered
  {
    var x := s.sent[i];
    assert WasSent(ends, s.sent, BoxOf(ends, x));
  }

  /**
   Distinct receive keys are needed: if two keypairs of the receiver share one, a packet that neither filter has seen is
   delivered under both.
   */
  lemma SharedKeyDeliversTwice(ends: Ends, s: State, i: nat, n: nat, n': nat)
    requires Inv(ends, s) && i < |s.sent| && n < |ends.receiving| && n' < |ends.receiving| && n != n'
    requires ends.receiving[n].recvKey == ends.receiving[n'].recvKey == ends.sending[s.sent[i].keypair].sendKey
    requires var nonce := ends.issued[s.sent[i].keypair][s.sent[i].position];
             Replay.Admits(s.accepted[n], nonce, REJECT_AFTER) && Replay.Admits(s.accepted[n'], nonce, REJECT_AFTER)
    ensures var x := s.sent[i];
            var nonce := ends.issued[x.keypair][x.position];
            var s1 := Next(ends, s, Arrive(n, nonce, BoxOf(ends, x)));
            && Enabled(ends, s1, Arrive(n', nonce, BoxOf(ends, x)))
            && Next(ends, s1, Arrive(n', nonce, BoxOf(ends, x))).delivered ==
               s.delivered + [Delivery(n, nonce, Content(x.packet)), Delivery(n', nonce, Content(x.packet))]
  {
    var x := s.sent[i];
    var nonce := ends.issued[x.keypair][x.position];
    var a := Arrive(n, nonce, BoxOf(ends, x));
    DeliveredIfAdmitted(ends, s, i, n);
    ArriveKeeps(ends, s, a);
    DeliveredIfAdmitted(ends, Next(ends, s, a), i, n');
  }

  // ---- The loop of the sequential receiver -----------------------------------------------------

  /** An element of an inbound container: the keypair it was looked up for, its counter, and its box. */
  datatype Inbound = Inbound(keypair: nat, counter: nat, box: Term)

  ghost function ReceiveNext(keys: seq<Term>, before: (seq<set<nat>>, seq<Bytes>), e: Inbound)
    : (r: (seq<set<nat>>, seq<Bytes>))
    requires |before.0| == |keys| && e.keypair < |keys|
    ensures |r.0| == |keys|
  {
    var (accepted, ok, content) := Receive(keys[e.keypair], before.0[e.keypair], e.counter, e.box);
    (before.0[e.keypair := accepted],
     if ok && !ReceiverSeesKeepalive(content) then before.1 + [content] else before.1)
  }

  /** The counters accepted, and what goes to the sink, after a container. */
  ghost function ReceiveAll(keys: seq<Term>, accepted: seq<set<nat>>,
                            elems: seq<Inbound>): (r: (seq<set<nat>>, seq<Bytes>))
    requires |accepted| == |keys| && forall i | 0 <= i < |elems| :: elems[i].keypair < |keys|
    ensures |r.0| == |keys|
  {
    if elems == [] then (accepted, [])
    else
      ReceiveNext(keys, ReceiveAll(keys, accepted, elems[..|elems| - 1]), elems[|elems| - 1])
  }

  /** What is in a box that opens. */
  function Opened(key: Term, e: Inbound): Option<Bytes> {
    var plain := Open(key, Octets([e.counter]), e.box, Octets([]));
    if plain.Some? && plain.value.Octets? then Some(plain.value.b) else None
  }

  predicate Known(keys: seq<Term>, elems: seq<Inbound>) {
    forall i | 0 <= i < |elems| :: elems[i].keypair < |keys|
  }

  /** The counters of keypair `n` that were accepted before the container or with its first `i` elements. */
  ghost function Seen(keys: seq<Term>, accepted: seq<set<nat>>, elems: seq<Inbound>, i: nat, n: nat): set<nat>
    requires |accepted| == |keys| && Known(keys, elems) && i <= |elems| && n < |keys|
    decreases i, 0
  {
    accepted[n] + set j: nat | j < i && elems[j].keypair == n && Passes(keys, accepted, elems, j) :: elems[j].counter
  }

  /** Element `i` opens, and the filter of its keypair admits its counter after those before it. */
  ghost predicate Passes(keys: seq<Term>, accepted: seq<set<nat>>, elems: seq<Inbound>, i: nat)
    requires |accepted| == |keys| && Known(keys, elems) && i < |elems|
    decreases i, 1
  {
    var e := elems[i];
    Opened(keys[e.keypair], e).Some?
    && Replay.Admits(Seen(keys, accepted, elems, i, e.keypair), e.counter, REJECT_AFTER)
  }

  /** Element `i` is one for the sink. */
  ghost predicate HasPacket(keys: seq<Term>, accepted: seq<set<nat>>, elems: seq<Inbound>, i: nat)
    requires |accepted| == |keys| && Known(keys, elems)
  {
    i < |elems| && Passes(keys, accepted, elems, i) && Opened(keys[elems[i].keypair], elems[i]).value != []
  }

  /** `positions` are in order, and are those of the elements for the sink among the first `m`. */
  ghost predicate PositionsOf(keys: seq<Term>, accepted: seq<set<nat>>, elems: seq<Inbound>, m: nat,
                              positions: seq<nat>)
    requires |accepted| == |keys| && Known(keys, elems)
  {
    && (forall a, b | 0 <= a < b < |positions| :: positions[a] < positions[b])
    && (forall i: nat :: i in positions <==> i < m && HasPacket(keys, accepted, elems, i))
  }

  /** The buffers are what is in those elements, in that order. */
  ghost predicate BuffersAt(keys: seq<Term>, elems: seq<Inbound>, positions: seq<nat>, bufs: seq<Bytes>)
    requires Known(keys, elems)
  {
    && |bufs| == |positions|
    && forall j | 0 <= j < |bufs| ::
         && positions[j] < |elems|
         && Opened(keys[elems[positions[j]].keypair], elems[positions[j]]) == Some(bufs[j])
  }

  lemma ReceiveIsOpened(key: Term, accepted: set<nat>, e: Inbound)
    ensures var (r, plain) := (Receive(key, accepted, e.counter, e.box), Opened(key, e));
            r == if plain.Some? && Replay.Admits(accepted, e.counter, REJECT_AFTER)
            then (accepted + {e.counter}, true, plain.value) else (accepted, false, [])
  {}

  lemma SeenStep(keys: seq<Term>, accepted: seq<set<nat>>, elems: seq<Inbound>, i: nat, n: nat)
    requires |accepted| == |keys| && Known(keys, elems) && i < |elems| && n < |keys|
    ensures Seen(keys, accepted, elems, i + 1, n) ==
            Seen(keys, accepted, elems, i, n)
            + if elems[i].keypair == n && Passes(keys, accepted, elems, i) then {elems[i].counter} else {}
  {}

  /**
   What a container comes to, element by element: the filters have seen exactly what passed, and the sink gets the
   packets that passed, each once, in the order of the elements.
   */
  lemma {:induction false} ReceivesInOrder(keys: seq<Term>, accepted: seq<set<nat>>, elems: seq<Inbound>, m: nat)
    returns (positions: seq<nat>)
    requires |accepted| == |keys| && Known(keys, elems) && m <= |elems|
    ensures var (seen, bufs) := ReceiveAll(keys, accepted, elems[..m]);
            && (forall n | 0 <= n < |keys| :: seen[n] == Seen(keys, accepted, elems, m, n))
            && PositionsOf(keys, accepted, elems, m, positions) && BuffersAt(keys, elems, positions, bufs)
  {
    if m == 0 {
      positions := [];
    } else {
      var before := ReceivesInOrder(keys, accepted, elems, m - 1);
      var (seen, bufs) := ReceiveAll(keys, accepted, elems[..m - 1]);
      positions := if HasPacket(keys, accepted, elems, m - 1) then before + [m - 1] else before;
      ReceiveStep(keys, accepted, elems, m - 1, seen, bufs);
      NextPosition(keys, accepted, elems, m - 1, before);
      NextBuffer(keys, accepted, elems, m - 1, before, bufs);
    }
  }

  lemma ReceiveStep(keys: seq<Term>, accepted: seq<set<nat>>, elems: seq<Inbound>, m: nat, seen: seq<set<nat>>,
                    bufs: seq<Bytes>)
    requires |accepted| == |keys| && Known(keys, elems) && m < |elems|
    requires ReceiveAll(keys, accepted, elems[..m]) == (seen, bufs)
    requires forall n | 0 <= n < |keys| :: seen[n] == Seen(keys, accepted, elems, m, n)
    ensures var (seen', bufs') := ReceiveAll(keys, accepted, elems[..m + 1]);
            && (forall n | 0 <= n < |keys| :: seen'[n] == Seen(keys, accepted, elems, m + 1, n))
            && bufs' == if HasPacket(keys, accepted, elems, m)
                        then bufs + [Opened(keys[elems[m].keypair], elems[m]).value] else bufs
  {
    var e := elems[m];
    assert elems[..m + 1][..m] == elems[..m] && elems[..m + 1][m] == e;
    ReceiveIsOpened(keys[e.keypair], seen[e.keypair], e);
    var seen' := ReceiveAll(keys, accepted, elems[..m + 1]).0;
    forall n | 0 <= n < |keys| ensures seen'[n] == Seen(keys, accepted, elems, m + 1, n) {
      SeenStep(keys, accepted, elems, m, n);
    }
  }

  lemma NextBuffer(keys: seq<Term>, accepted: seq<set<nat>>, elems: seq<Inbound>, m: nat, before: seq<nat>,
                   bufs: seq<Bytes>)
    requires |accepted| == |keys| && Known(keys, elems) && BuffersAt(keys, elems, before, bufs)
    ensures HasPacket(keys, accepted, elems, m) ==>
              BuffersAt(keys, elems, before + [m], bufs + [Opened(keys[elems[m].keypair], elems[m]).value])
  {}

  lemma NextPosition(keys: seq<Term>, accepted: seq<set<nat>>, elems: seq<Inbound>, m: nat, before: seq<nat>)
    requires |accepted| == |keys| && Known(keys, elems) && PositionsOf(keys, accepted, elems, m, before)
    ensures PositionsOf(keys, accepted, elems, m + 1,
                        if HasPacket(keys, accepted, elems, m) then before + [m] else before)
  {
    forall a | 0 <= a < |before| ensures before[a] < m {
      assert before[a] in before;
    }
  }

  ghost predicate Separate(filters: seq<Replay.Filter>)
    reads filters, set f | f in filters :: f.ring
  {
    && (forall i | 0 <= i < |filters| :: filters[i].Valid())
    && (forall i, j | 0 <= i < j < |filters| :: filters[i] != filters[j] && filters[i].ring != filters[j].ring)
  }

  ghost function Accepted(filters: seq<Replay.Filter>): (r: seq<set<nat>>)
    reads filters
    ensures |r| == |filters| && forall i | 0 <= i < |filters| :: r[i] == filters[i].accepted
  {
    if filters == [] then [] else Accepted(filters[..|filters| - 1]) + [filters[|filters| - 1].accepted]
  }

  method Decrypt(key: Term, e: Inbound) returns (ok: bool, content: Bytes)
    ensures forall accepted :: Receive(key, accepted, e.counter, e.box) ==
                               if ok && Replay.Admits(accepted, e.counter, REJECT_AFTER)
                               then (accepted + {e.counter}, true, content) else (accepted, false, [])
  {
    var plain := Open(key, Octets([e.counter]), e.box, Octets([]));
    ok := plain.Some? && plain.value.Octets?;
    content := if ok then plain.value.b else [];
  }

  method ReceiveOne(keys: seq<Term>, filters: seq<Replay.Filter>, e: Inbound) returns (ok: bool, content: Bytes)
    requires |filters| == |keys| && Separate(filters) && e.keypair < |keys|
    modifies filters, set f | f in filters :: f.ring
    ensures Separate(filters)
    ensures var r := Receive(keys[e.keypair], old(filters[e.keypair].accepted), e.counter, e.box);
            Accepted(filters) == old(Accepted(filters))[e.keypair := r.0] && ok == r.1 && (ok ==> content == r.2)
  {
    ok, content := Decrypt(keys[e.keypair], e);
    if ok {
      var f := filters[e.keypair];
      ghost var before := Accepted(filters);
      ok := f.ValidateCounter(e.counter, REJECT_AFTER);
      forall i | 0 <= i < |filters| && i != e.keypair ensures filters[i].Valid() && filters[i].accepted == before[i] {
        assert filters[i] != f && filters[i].ring != f.ring;
      }
      assert Accepted(filters) == before[e.keypair := f.accepted];
    }
  }

  method ReceiveContainer(keys: seq<Term>, filters: seq<Replay.Filter>, elems: seq<Inbound>)
    returns (bufs: seq<Bytes>, ghost positions: seq<nat>)
    requires |filters| == |keys| && Separate(filters) && forall i | 0 <= i < |elems| :: elems[i].keypair < |keys|
    modifies filters, set f | f in filters :: f.ring
    ensures Separate(filters)
    ensures (Accepted(filters), bufs) == ReceiveAll(keys, old(Accepted(filters)), elems)
    ensures PositionsOf(keys, old(Accepted(filters)), elems, |elems|, positions)
    ensures BuffersAt(keys, elems, positions, bufs)
  {
    bufs := [];
    for i := 0 to |elems|
      invariant Separate(filters)
      invariant (Accepted(filters), bufs) == ReceiveAll(keys, old(Accepted(filters)), elems[..i])
    {
      assert elems[..i + 1][..i] == elems[..i];
      var ok, content := ReceiveOne(keys, filters, elems[i]);
      if ok && |content| != 0 {
        bufs := bufs + [content];
      }
    }
    assert elems[..|elems|] == elems;
    positions := ReceivesInOrder(keys, old(Accepted(filters)), elems, |elems|);
  }
}
