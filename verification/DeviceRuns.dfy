/** What follows from the invariant for whole runs of a device. */
module DeviceRuns {
  import opened Common
  import opened Noise
  import opened Device
  import opened DeviceInvariant
  import Tai64n

  // ---- The table -------------------------------------------------------------------------------

  /** No index is shared: it belongs to one keypair of one peer or to one pending handshake. */
  lemma NoSharedIndex(identity: nat, trace: seq<Action>, pk: PublicKey, pk': PublicKey)
    requires Run(identity, trace).Some?
    requires pk in Run(identity, trace).value.peers && pk' in Run(identity, trace).value.peers
    ensures var p, p' := Run(identity, trace).value.peers[pk], Run(identity, trace).value.peers[pk'];
            && (p.handshake.localIndex == p'.handshake.localIndex != 0 ==> pk == pk')
            && (forall k :: k in Slots(p) ==> k.localIndex != p'.handshake.localIndex)
            && (forall k, k' ::
                  k in Slots(p) && k' in Slots(p') && k.localIndex == k'.localIndex ==> pk == pk' && k == k')
  {
    EveryRun(identity, trace);
    var s := Run(identity, trace).value;
    assert PeerHolds(s, pk) && PeerHolds(s, pk');
  }

  /** Beginning a session always finds the handshake's own entry to turn into the keypair's. */
  lemma SwapFindsItsEntry(identity: nat, trace: seq<Action>, pk: PublicKey)
    requires Run(identity, trace).Some? && pk in Run(identity, trace).value.peers
    requires Run(identity, trace).value.peers[pk].handshake.state in {ResponseCreated, ResponseConsumed}
    ensures var s := Run(identity, trace).value;
            var i := s.peers[pk].handshake.localIndex;
            && i in s.table && s.table[i] == HandshakeEntry(pk)
            && (var s' := BeginSession(s, pk).0;
                i in s'.table && s'.table[i].keypair.Some? && s'.table[i].keypair.value.id == s.nextKeypair)
  {
    EveryRun(identity, trace);
    var s := Run(identity, trace).value;
    assert PeerHolds(s, pk);
    var s' := BeginSession(s, pk).0;
    BeginSessionKeeps(s, pk);
    assert PeerHolds(s', pk);
    var kps := s'.peers[pk].keypairs;
    var k := if s.peers[pk].handshake.state == ResponseConsumed then kps.current.value else kps.next.value;
    assert k in Slots(s'.peers[pk]);
  }

  /** Nothing is left of a handshake but who the peer is and what was recorded of its initiations. */
  predicate Forgotten(h: Handshake, h': Handshake) {
    && h'.state == Zeroed && h'.hash == Zeros && h'.chainKey == Zeros && h'.localEphemeral == 0 && h'.localIndex == 0
    && h'.presharedKey == h.presharedKey && h'.remoteStatic == h.remoteStatic && h'.staticStatic == h.staticStatic
    && h'.lastTimestamp == h.lastTimestamp && h'.lastConsumption == h.lastConsumption
  }

  lemma ZeroForgets(s: State, pk: PublicKey)
    requires pk in s.peers
    ensures var s' := ZeroAndFlushAll(s, pk);
            && pk in s'.peers && Slots(s'.peers[pk]) == {}
            && Forgotten(s.peers[pk].handshake, s'.peers[pk].handshake)
            && s'.peers[pk].handshake.remoteEphemeral == NO_KEY
  {}

  ghost predicate OthersOf(t: Table, t': Table, pk: PublicKey) {
    t' == map i | i in t && t[i].peer != pk :: t[i]
  }

  lemma ZeroDrops(s: State, pk: PublicKey)
    requires Inv(s) && pk in s.peers
    ensures OthersOf(s.table, ZeroAndFlushAll(s, pk).table, pk)
  {
    ZeroAndFlushAllExact(s, pk);
    assert PeerHolds(s, pk);
    NoEntryAtZero(s);
    DropEverything(s.table, pk, s.peers[pk]);
  }

  /** Zeroing a peer leaves none of its entries and all of everyone else's, no keypair and no secret. */
  lemma ZeroLeavesNothing(identity: nat, trace: seq<Action>, pk: PublicKey)
    requires Run(identity, trace).Some? && pk in Run(identity, trace).value.peers
    ensures var s := Run(identity, trace).value;
            var s' := ZeroAndFlushAll(s, pk);
            && OthersOf(s.table, s'.table, pk)
            && Slots(s'.peers[pk]) == {} && Forgotten(s.peers[pk].handshake, s'.peers[pk].handshake)
            && s'.peers[pk].handshake.remoteEphemeral == NO_KEY
  {
    EveryRun(identity, trace);
    ZeroForgets(Run(identity, trace).value, pk);
    ZeroDrops(Run(identity, trace).value, pk);
  }

  ghost function EntriesOf(t: Table, owners: set<PublicKey>): set<nat> {
    set i | i in t && t[i].peer in owners
  }

  function IndexOf(k: Option<Keypair>): set<nat> {
    if k.Some? then {k.value.localIndex} else {}
  }

  /** The indices a peer can account for. */
  function Indices(p: Peer): (r: set<nat>)
    ensures |r| <= 4
  {
    var kps := p.keypairs;
    UnionSize({p.handshake.localIndex}, IndexOf(kps.current));
    UnionSize({p.handshake.localIndex} + IndexOf(kps.current), IndexOf(kps.previous));
    UnionSize({p.handshake.localIndex} + IndexOf(kps.current) + IndexOf(kps.previous), IndexOf(kps.next));
    {p.handshake.localIndex} + IndexOf(kps.current) + IndexOf(kps.previous) + IndexOf(kps.next)
  }

  lemma UnionSize<T>(a: set<T>, b: set<T>)
    ensures |a + b| <= |a| + |b|
    ensures a <= b ==> |a| <= |b|
  {
    assert a + b == a + (b - a);
    assert b == (b - a) + (a * b);
  }

  lemma EntriesOfOne(t: Table, pk: PublicKey, p: Peer)
    requires Holds(t, pk, p.handshake.localIndex, Slots(p))
    ensures |EntriesOf(t, {pk})| <= 4
  {
    forall i | i in EntriesOf(t, {pk}) ensures i in Indices(p) {
      assert t[i].peer == pk;
    }
    UnionSize(EntriesOf(t, {pk}), Indices(p));
  }

  lemma {:induction false} EntriesBound(t: Table, owners: set<PublicKey>)
    requires forall pk :: pk in owners ==> |EntriesOf(t, {pk})| <= 4
    ensures |EntriesOf(t, owners)| <= 4 * |owners|
    decreases |owners|
  {
    if owners != {} {
      var pk :| pk in owners;
      EntriesBound(t, owners - {pk});
      UnionSize(EntriesOf(t, owners - {pk}), EntriesOf(t, {pk}));
      assert EntriesOf(t, owners) == EntriesOf(t, owners - {pk}) + EntriesOf(t, {pk});
    }
  }

  /** The table never holds more than four entries a peer. */
  lemma TableBound(identity: nat, trace: seq<Action>)
    requires Run(identity, trace).Some?
    ensures |Run(identity, trace).value.table| <= 4 * |Run(identity, trace).value.peers|
  {
    EveryRun(identity, trace);
    var s := Run(identity, trace).value;
    forall pk | pk in s.peers ensures |EntriesOf(s.table, {pk})| <= 4 {
      assert PeerHolds(s, pk);
      EntriesOfOne(s.table, pk, s.peers[pk]);
    }
    EntriesBound(s.table, s.peers.Keys);
    assert EntriesOf(s.table, s.peers.Keys) == s.table.Keys;
  }

  // ---- Peers -----------------------------------------------------------------------------------

  lemma PeerStep(s: State, a: Action, pk: PublicKey)
    requires Enabled(s, a) && pk in Apply(s, a).peers
    ensures var h' := Apply(s, a).peers[pk].handshake;
            if pk in s.peers then h'.presharedKey == s.peers[pk].handshake.presharedKey
            else a.ANewPeer? && a.newPk == pk && a.psk == h'.presharedKey && |s.peers| < MAX_PEERS
  {
    match a
    case ANewPeer(_, _) =>
    case ACreateInitiation(_, _, _, _) =>
    case AConsumeInitiation(_, _) =>
    case ACreateResponse(_, _, _) =>
    case AConsumeResponse(_) =>
    case ABeginSession(_) =>
    case AReceive(_, _, _, _, _) =>
    case AZeroAndFlushAll(_) =>
    case AExpire(_) =>
    case AStart(_) =>
    case AStop(_) =>
  }

  /** Step `i` added the peer, with this preshared key. */
  predicate AddedAt(identity: nat, trace: seq<Action>, i: nat, pk: PublicKey, psk: Term) {
    && i < |trace| && trace[i] == ANewPeer(pk, psk)
    && Run(identity, trace[..i]).Some? && pk !in Run(identity, trace[..i]).value.peers
  }

  /** Over every run a peer has the preshared key it was first added with, whatever happens to it afterwards. */
  lemma {:induction false} PresharedKeyStays(identity: nat, trace: seq<Action>, pk: PublicKey) returns (i: nat)
    requires Run(identity, trace).Some? && pk in Run(identity, trace).value.peers
    ensures AddedAt(identity, trace, i, pk, Run(identity, trace).value.peers[pk].handshake.presharedKey)
  {
    var before, a := trace[..|trace| - 1], trace[|trace| - 1];
    var s := Run(identity, before).value;
    PeerStep(s, a, pk);
    if pk in s.peers {
      i := PresharedKeyStays(identity, before, pk);
      assert trace[i] == before[i] && trace[..i] == before[..i];
    } else {
      i := |trace| - 1;
    }
  }

  // ---- Key confirmation ------------------------------------------------------------------------

  /** The run contains a packet received from `pk` that opens under `k` and that the replay filter accepted. */
  ghost predicate Confirmed(trace: seq<Action>, pk: PublicKey, k: Keypair) {
    exists i :: 0 <= i < |trace| && trace[i].AReceive? && trace[i].pk == pk && trace[i].keypair == k
                && trace[i].accepted
                && OpensUnder(k, trace[i].counter, trace[i].box)
  }

  /** One step puts a keypair into `current` only by deriving it as initiator or by receiving under it. */
  lemma CurrentChanges(s: State, a: Action, pk: PublicKey)
    requires Enabled(s, a) && pk in Apply(s, a).peers
    ensures var current := Apply(s, a).peers[pk].keypairs.current;
            || current.None?
            || current.value.isInitiator
            || (pk in s.peers && current == s.peers[pk].keypairs.current)
            || (a.AReceive? && a.pk == pk && a.keypair == current.value && a.accepted
                && OpensUnder(a.keypair, a.counter, a.box))
  {
    match a
    case ANewPeer(_, _) =>
    case ACreateInitiation(_, _, _, _) =>
    case AConsumeInitiation(_, _) =>
    case ACreateResponse(_, _, _) =>
    case AConsumeResponse(_) =>
    case ABeginSession(_) =>
    case AReceive(_, _, _, _, _) =>
    case AZeroAndFlushAll(_) =>
    case AExpire(_) =>
    case AStart(_) =>
    case AStop(_) =>
  }

  lemma StaysConfirmed(trace: seq<Action>, pk: PublicKey, k: Keypair)
    requires trace != [] && Confirmed(trace[..|trace| - 1], pk, k)
    ensures Confirmed(trace, pk, k)
  {
    var before := trace[..|trace| - 1];
    var i :| 0 <= i < |before| && before[i].AReceive? && before[i].pk == pk && before[i].keypair == k
             && before[i].accepted && OpensUnder(k, before[i].counter, before[i].box);
    assert trace[i] == before[i];
  }

  lemma NextIsResponders(identity: nat, trace: seq<Action>, pk: PublicKey)
    requires Run(identity, trace).Some? && pk in Run(identity, trace).value.peers
    ensures var kps := Run(identity, trace).value.peers[pk].keypairs;
            DistinctSlots(kps) && (kps.next.Some? ==> !kps.next.value.isInitiator)
  {
    EveryRun(identity, trace);
  }

  /** In every run, data is sent only on keys derived as initiator or confirmed by a packet from the peer. */
  lemma {:induction false} NoUnconfirmedResponderKey(identity: nat, trace: seq<Action>, pk: PublicKey)
    requires Run(identity, trace).Some? && pk in Run(identity, trace).value.peers
    ensures var kps := Run(identity, trace).value.peers[pk].keypairs;
            && (kps.current.Some? && !kps.current.value.isInitiator ==> Confirmed(trace, pk, kps.current.value))
            && (kps.next.Some? ==> !kps.next.value.isInitiator)
            && DistinctSlots(kps)
  {
    NextIsResponders(identity, trace, pk);
    if trace != [] {
      var before := trace[..|trace| - 1];
      var s, a := Run(identity, before).value, trace[|trace| - 1];
      CurrentChanges(s, a, pk);
      var current := Apply(s, a).peers[pk].keypairs.current;
      if current.Some? && !current.value.isInitiator && pk in s.peers && current == s.peers[pk].keypairs.current {
        NoUnconfirmedResponderKey(identity, before, pk);
        StaysConfirmed(trace, pk, current.value);
      }
    }
  }

  /** The keypair can be looked up under its index. */
  predicate Findable(s: State, pk: PublicKey, k: Keypair) {
    k.localIndex in s.table && s.table[k.localIndex] == KeypairEntry(pk, k)
  }

  lemma SlotsFindable(s: State, pk: PublicKey, k: Keypair)
    requires Inv(s) && pk in s.peers && k in Slots(s.peers[pk])
    ensures Findable(s, pk, k)
  {
    assert PeerHolds(s, pk);
  }

  /** The entry of a keypair is gone from the table, and nothing else. */
  ghost predicate OnlyGone(t: Table, t': Table, k: Option<Keypair>) {
    && (k.Some? ==> k.value.localIndex in t && k.value.localIndex !in t')
    && (forall i | i in t && (k.None? || i != k.value.localIndex) :: i in t' && t'[i] == t[i])
    && (forall i | i in t' :: i in t)
  }

  /** `k` was `next` and is current now; the keypair that was current is kept for what is still on its way. */
  ghost predicate PromotedTo(s: State, s': State, pk: PublicKey, k: Keypair)
    requires pk in s.peers
  {
    && pk in s'.peers && s'.peers[pk].keypairs.current == Some(k) && s'.peers[pk].keypairs.next.None?
    && s'.peers[pk].keypairs.previous == s.peers[pk].keypairs.current
    && Findable(s', pk, k)
    && (s.peers[pk].keypairs.current.Some? ==> Findable(s', pk, s.peers[pk].keypairs.current.value))
    && OnlyGone(s.table, s'.table, s.peers[pk].keypairs.previous)
    && s'.peers[pk].handshake == s.peers[pk].handshake
    && forall q | q in s.peers && q != pk :: q in s'.peers && s'.peers[q] == s.peers[q]
  }

  /**
   In every reachable state: a packet that opens under the keypair that is next, and that the filter accepts, makes it
   the one to send with. No other packet changes anything.
   */
  lemma PacketPromotes(identity: nat, trace: seq<Action>, pk: PublicKey, k: Keypair, counter: nat, box: Term,
                       accepted: bool)
    requires Run(identity, trace).Some? && pk in Run(identity, trace).value.peers
    ensures var s := Run(identity, trace).value;
            var s' := Receive(s, pk, k, counter, box, accepted);
            && (ReceivedWithKeypair(s, pk, k).1 <==> s.peers[pk].keypairs.next == Some(k))
            && if OpensUnder(k, counter, box) && accepted && s.peers[pk].keypairs.next == Some(k)
               then PromotedTo(s, s', pk, k) else s' == s
  {
    EveryRun(identity, trace);
    Promotes(Run(identity, trace).value, pk, k);
  }

  lemma Promotes(s: State, pk: PublicKey, k: Keypair)
    requires Inv(s) && pk in s.peers
    ensures var (s', ok) := ReceivedWithKeypair(s, pk, k);
            && (ok <==> s.peers[pk].keypairs.next == Some(k))
            && if ok then PromotedTo(s, s', pk, k) else s' == s
  {
    var kps := s.peers[pk].keypairs;
    if kps.next == Some(k) {
      ReceivedKeeps(s, pk, k);
      PromotedFindable(s, ReceivedWithKeypair(s, pk, k).0, pk, k);
      PromotedValue(s, pk, k);
    }
  }

  lemma PromotedFindable(s: State, s': State, pk: PublicKey, k: Keypair)
    requires Inv(s) && Inv(s') && pk in s.peers && pk in s'.peers
    requires s'.peers[pk].keypairs == Keypairs(Some(k), s.peers[pk].keypairs.current, None)
    ensures Findable(s', pk, k)
    ensures s.peers[pk].keypairs.current.Some? ==> Findable(s', pk, s.peers[pk].keypairs.current.value)
    ensures s.peers[pk].keypairs.previous.Some? ==> Findable(s, pk, s.peers[pk].keypairs.previous.value)
  {
    var kps := s.peers[pk].keypairs;
    SlotsFindable(s', pk, k);
    if kps.current.Some? {
      SlotsFindable(s', pk, kps.current.value);
    }
    if kps.previous.Some? {
      SlotsFindable(s, pk, kps.previous.value);
    }
  }

  lemma PromotedValue(s: State, pk: PublicKey, k: Keypair)
    requires pk in s.peers && s.peers[pk].keypairs.next == Some(k)
    requires var (kps, s') := (s.peers[pk].keypairs, ReceivedWithKeypair(s, pk, k).0);
             && Findable(s', pk, k)
             && (kps.current.Some? ==> Findable(s', pk, kps.current.value))
             && (kps.previous.Some? ==> Findable(s, pk, kps.previous.value))
    ensures PromotedTo(s, ReceivedWithKeypair(s, pk, k).0, pk, k)
  {}

  lemma ReceivedKeeps(s: State, pk: PublicKey, k: Keypair)
    requires Inv(s) && pk in s.peers
    ensures Inv(ReceivedWithKeypair(s, pk, k).0)
  {
    var box := Sealed(k.recvKey, Octets([0]), Octets([]), Octets([]));
    ReceiveKeeps(s, pk, k, 0, box, true);
    assert OpensUnder(k, 0, box);
  }

  // ---- Slots after a handshake and after expiry ------------------------------------------------

  /**
   In every reachable state, a session begun as initiator is sent with at once, and what the other side may still send
   under, its own newest keypair or else the one used so far, is kept. A session begun as responder waits as next, and
   sending goes on with the keypair used so far. All that is kept can be looked up.
   */
  lemma SessionSlots(identity: nat, trace: seq<Action>, pk: PublicKey)
    requires Run(identity, trace).Some? && pk in Run(identity, trace).value.peers
    requires BeginSession(Run(identity, trace).value, pk).1
    ensures var s := Run(identity, trace).value;
            var s' := BeginSession(s, pk).0;
            var (h, kps, kps') := (s.peers[pk].handshake, s.peers[pk].keypairs, s'.peers[pk].keypairs);
            var k := Derive(h, s.nextKeypair);
            && Findable(s', pk, k)
            && (h.state == ResponseConsumed ==>
                  && kps'.current == Some(k) && kps'.next.None?
                  && kps'.previous == if kps.next.Some? then kps.next else kps.current)
            && (h.state == ResponseCreated ==>
                  && kps'.current == kps.current && kps'.next == Some(k) && kps'.previous.None?)
            && (forall x | x in Slots(s'.peers[pk]) :: Findable(s', pk, x))
            && Forgotten(h, s'.peers[pk].handshake)
  {
    EveryRun(identity, trace);
    var s := Run(identity, trace).value;
    BeginSessionKeeps(s, pk);
    var s' := BeginSession(s, pk).0;
    forall x | x in Slots(s'.peers[pk]) ensures Findable(s', pk, x) {
      SlotsFindable(s', pk, x);
    }
    var k := Derive(s.peers[pk].handshake, s.nextKeypair);
    assert k in Slots(s'.peers[pk]);
  }

  /**
   After expiry the handshake is forgotten: no response to it is accepted any more and no session can come of it. The
   keypairs stay, and can be looked up.
   */
  lemma ExpiryForgets(identity: nat, trace: seq<Action>, pk: PublicKey, msg: Response)
    requires Run(identity, trace).Some? && pk in Run(identity, trace).value.peers
    ensures var s := Run(identity, trace).value;
            var s' := ExpireCurrentKeypairs(s, pk);
            && Forgotten(s.peers[pk].handshake, s'.peers[pk].handshake)
            && s'.peers[pk].handshake.remoteEphemeral == NO_KEY && s'.peers[pk].keypairs == s.peers[pk].keypairs
            && (forall k | k in Slots(s.peers[pk]) :: Findable(s', pk, k))
            && ConsumeResponse(s', msg).1 != Some(pk)
            && (msg.receiver == s.peers[pk].handshake.localIndex ==> ConsumeResponse(s', msg) == (s', None))
            && !BeginSession(s', pk).1
  {
    EveryRun(identity, trace);
    var s := Run(identity, trace).value;
    ExpireKeeps(s, pk);
    var s' := ExpireCurrentKeypairs(s, pk);
    forall k | k in Slots(s.peers[pk]) ensures Findable(s', pk, k) {
      SlotsFindable(s', pk, k);
    }
    NoEntryAtZero(s);
    NoEntryAtZero(s');
    NotConsumed(s', pk, msg);
  }

  lemma NotConsumed(s: State, pk: PublicKey, msg: Response)
    requires Inv(s) && pk in s.peers && s.peers[pk].handshake.state != InitiationCreated
    ensures ConsumeResponse(s, msg).1 != Some(pk)
  {
    if msg.receiver in s.table {
      assert PeerHolds(s, s.table[msg.receiver].peer);
    }
  }

  /** A peer that is stopped runs no more, and nothing of it is left: no entry, no keypair, no secret. */
  lemma StopLeavesNothing(identity: nat, trace: seq<Action>, pk: PublicKey)
    requires Run(identity, trace).Some? && pk in Run(identity, trace).value.peers
    requires Run(identity, trace).value.peers[pk].running
    ensures var s := Run(identity, trace).value;
            var s' := Stop(s, pk);
            && !s'.peers[pk].running && Slots(s'.peers[pk]) == {}
            && Forgotten(s.peers[pk].handshake, s'.peers[pk].handshake)
            && OthersOf(s.table, s'.table, pk)
            && forall q | q in s.peers && q != pk :: q in s'.peers && s'.peers[q] == s.peers[q]
  {
    ZeroLeavesNothing(identity, trace, pk);
    var s := Run(identity, trace).value;
    assert Stop(s, pk).table == ZeroAndFlushAll(s, pk).table;
  }

  // ---- Timestamps of accepted initiations ------------------------------------------------------

  lemma {:induction false} AfterTransitive(a: Tai64n.Bytes, b: Tai64n.Bytes, c: Tai64n.Bytes)
    requires Tai64n.After(a, b) && Tai64n.After(b, c)
    ensures Tai64n.After(a, c)
  {
    if c != [] && a[0] == b[0] == c[0] {
      AfterTransitive(a[1..], b[1..], c[1..]);
    }
  }

  function LastTimestamp(s: State, pk: PublicKey): Tai64n.Bytes
    requires pk in s.peers
  {
    s.peers[pk].handshake.lastTimestamp
  }

  /** No step removes a peer or turns its timestamp back. */
  lemma TimestampForward(s: State, a: Action, pk: PublicKey)
    requires Enabled(s, a) && pk in s.peers
    ensures pk in Apply(s, a).peers
    ensures LastTimestamp(Apply(s, a), pk) == LastTimestamp(s, pk)
            || Tai64n.After(LastTimestamp(Apply(s, a), pk), LastTimestamp(s, pk))
  {}

  /** The prefix of `trace` of length `i` ends with an initiation from `pk` being accepted. */
  predicate AcceptedAt(identity: nat, trace: seq<Action>, i: nat, pk: PublicKey) {
    && i < |trace| && trace[i].AConsumeInitiation?
    && Run(identity, trace[..i]).Some?
    && ConsumeInitiation(Run(identity, trace[..i]).value, trace[i].initiation, trace[i].now).1 == Some(pk)
  }

  /** The stamp an accepted initiation carries is what the peer's record becomes, and is newer than what it was. */
  lemma AcceptedStamp(identity: nat, trace: seq<Action>, i: nat, pk: PublicKey)
    requires AcceptedAt(identity, trace, i, pk)
    ensures var s := Run(identity, trace[..i]).value;
            && pk in s.peers
            && Run(identity, trace[..i + 1]) == Some(Apply(s, trace[i]))
            && trace[i].initiation.sealedStamp.Sealed?
            && trace[i].initiation.sealedStamp.plain == Octets(LastTimestamp(Apply(s, trace[i]), pk))
            && Tai64n.After(LastTimestamp(Apply(s, trace[i]), pk), LastTimestamp(s, pk))
  {
    assert trace[..i + 1][..i] == trace[..i] && trace[..i + 1][i] == trace[i];
  }

  lemma {:induction false} TimestampForwardRun(identity: nat, trace: seq<Action>, i: nat, j: nat, pk: PublicKey)
    requires i <= j <= |trace| && Run(identity, trace[..j]).Some?
    requires Run(identity, trace[..i]).Some? && pk in Run(identity, trace[..i]).value.peers
    ensures pk in Run(identity, trace[..j]).value.peers
    ensures var old', new' := LastTimestamp(Run(identity, trace[..i]).value, pk),
                              LastTimestamp(Run(identity, trace[..j]).value, pk);
            new' == old' || Tai64n.After(new', old')
    decreases j
  {
    if i < j {
      assert trace[..j][..j - 1] == trace[..j - 1] && trace[..j][j - 1] == trace[j - 1];
      TimestampForwardRun(identity, trace, i, j - 1, pk);
      var s, s0 := Run(identity, trace[..j - 1]).value, Run(identity, trace[..i]).value;
      TimestampForward(s, trace[j - 1], pk);
      var s' := Apply(s, trace[j - 1]);
      if Tai64n.After(LastTimestamp(s', pk), LastTimestamp(s, pk))
         && Tai64n.After(LastTimestamp(s, pk), LastTimestamp(s0, pk)) {
        AfterTransitive(LastTimestamp(s', pk), LastTimestamp(s, pk), LastTimestamp(s0, pk));
      }
    }
  }

  /** Over a whole run the initiations accepted from one peer carry strictly increasing stamps. */
  lemma AcceptedStampsIncrease(identity: nat, trace: seq<Action>, i: nat, j: nat, pk: PublicKey)
    requires i < j && AcceptedAt(identity, trace, i, pk) && AcceptedAt(identity, trace, j, pk)
    ensures trace[i].initiation.sealedStamp.Sealed? && trace[i].initiation.sealedStamp.plain.Octets?
    ensures trace[j].initiation.sealedStamp.Sealed? && trace[j].initiation.sealedStamp.plain.Octets?
    ensures Tai64n.After(trace[j].initiation.sealedStamp.plain.b, trace[i].initiation.sealedStamp.plain.b)
  {
    AcceptedStamp(identity, trace, i, pk);
    AcceptedStamp(identity, trace, j, pk);
    TimestampForward(Run(identity, trace[..i]).value, trace[i], pk);
    TimestampForwardRun(identity, trace, i + 1, j, pk);
    var first := LastTimestamp(Run(identity, trace[..i + 1]).value, pk);
    var before := LastTimestamp(Run(identity, trace[..j]).value, pk);
    var after := LastTimestamp(Run(identity, trace[..j + 1]).value, pk);
    if before != first {
      AfterTransitive(after, before, first);
    }
  }

  // ---- Atomicity -------------------------------------------------------------------------------

  /**
   A run in which zeroing happens between the check and the write of one response: the new current keypair
   is in no table entry, so nothing sent to this device under it can be looked up.
   */
  lemma InterruptedResponse(s: State, pk: PublicKey, hash: Term, ck: Term, sender: nat)
    requires Inv(s) && pk in s.peers && pk.Pub? && s.peers[pk].handshake.state == InitiationCreated
    ensures var zeroed := ZeroAndFlushAll(s, pk);
            var s' := BeginSession(CommitResponse(zeroed, pk, hash, ck, sender), pk).0;
            && s'.peers[pk].keypairs.current.Some?
            && s'.table == zeroed.table
            && (forall i :: i in s'.table ==> s'.table[i].peer != pk)
            && !Inv(s')
  {
    ZeroAndFlushAllKeeps(s, pk);
    ZeroAndFlushAllExact(s, pk);
    NoEntryAtZero(ZeroAndFlushAll(s, pk));
    var s' := BeginSession(CommitResponse(ZeroAndFlushAll(s, pk), pk, hash, ck, sender), pk).0;
    assert s'.peers[pk].keypairs.current.value in Slots(s'.peers[pk]);
    assert !PeerHolds(s', pk);
  }
}
