/**
 What every run of a device keeps: the index table is exactly the live indices of its peers, keypair slots
 hold what they should, and handshakes hold genuine transcripts.
 */
module DeviceInvariant {
  import opened Common
  import opened Noise
  import opened Device
  import Tai64n

  // ---- The index table -------------------------------------------------------------------------

  function Slots(p: Peer): set<Keypair> {
    (if p.keypairs.current.Some? then {p.keypairs.current.value} else {}) +
    (if p.keypairs.previous.Some? then {p.keypairs.previous.value} else {}) +
    (if p.keypairs.next.Some? then {p.keypairs.next.value} else {})
  }

  /**
   The entries of peer `pk` are exactly one handshake entry at `pending` (none when that is 0) and one keypair
   entry for each keypair in `live`, at that keypair's own index; each entry holds a handshake or a keypair, not both.
   */
  ghost predicate Holds(t: Table, pk: PublicKey, pending: nat, live: set<Keypair>) {
    && (pending != 0 ==> pending in t && t[pending] == HandshakeEntry(pk))
    && (forall k :: k in live ==> k.localIndex != 0 && k.localIndex in t && t[k.localIndex] == KeypairEntry(pk, k))
    && (forall i :: i in t && t[i].peer == pk ==>
                      || (i == pending != 0 && t[i] == HandshakeEntry(pk))
                      || (t[i].keypair.Some? && t[i].keypair.value in live && t[i].keypair.value.localIndex == i
                          && t[i] == KeypairEntry(pk, t[i].keypair.value)))
  }

  ghost predicate PeerHolds(s: State, pk: PublicKey)
    requires pk in s.peers
  {
    Holds(s.table, pk, s.peers[pk].handshake.localIndex, Slots(s.peers[pk]))
  }

  /** The table is exactly the disjoint union, over the peers, of their live indices. */
  ghost predicate TableExact(s: State) {
    && (forall i :: i in s.table ==> s.table[i].peer in s.peers)
    && (forall pk :: pk in s.peers ==> PeerHolds(s, pk))
  }

  // ---- Peers -----------------------------------------------------------------------------------

  predicate DistinctSlots(kps: Keypairs) {
    && (kps.current.Some? && kps.previous.Some? ==> kps.current.value.id != kps.previous.value.id)
    && (kps.current.Some? && kps.next.Some? ==> kps.current.value.id != kps.next.value.id)
    && (kps.previous.Some? && kps.next.Some? ==> kps.previous.value.id != kps.next.value.id)
  }

  predicate SlotsFine(s: State, p: Peer) {
    && DistinctSlots(p.keypairs)
    && (forall k :: k in Slots(p) ==> k.id < s.nextKeypair && k.localIndex != 0)
    && (p.keypairs.next.Some? ==> !p.keypairs.next.value.isInitiator)
  }

  predicate StateHasIndex(h: Handshake) {
    && (h.state in {InitiationCreated, ResponseCreated, ResponseConsumed} ==> h.localIndex != 0)
    && (h.state == Zeroed ==> h.localIndex == 0)
  }

  /** Hash and chain key after the initiation message, seen from neither side. */
  function Transcript(initiator: PublicKey, responder: PublicKey, ephemeral: PublicKey, es: Term, ss: Term,
                      stamp: Tai64n.Bytes): (Term, Term) {
    var hash := MixHash(MixHash(INITIAL_HASH, Key(responder)), Key(ephemeral));
    var (ck, key) := Kdf2(Kdf1(INITIAL_CHAIN_KEY, Key(ephemeral)), es);
    var sealedStatic := Sealed(key, ZERO_NONCE, Key(initiator), hash);
    var hash := MixHash(hash, sealedStatic);
    var (ck, key) := Kdf2(ck, ss);
    (MixHash(hash, Sealed(key, ZERO_NONCE, Octets(stamp), hash)), ck)
  }

  ghost predicate InitiatorTranscript(identity: nat, pk: PublicKey, h: Handshake) {
    && pk.Pub?
    && exists stamp :: (h.hash, h.chainKey) ==
                       Transcript(Pub(identity), pk, Pub(h.localEphemeral), SharedSecret(h.localEphemeral, pk).value,
                                  SharedSecret(identity, pk).value, stamp)
  }

  ghost predicate ResponderTranscript(identity: nat, pk: PublicKey, h: Handshake) {
    && pk.Pub? && h.remoteEphemeral.Pub?
    && exists stamp :: (h.hash, h.chainKey) ==
                       Transcript(pk, Pub(identity), h.remoteEphemeral, SharedSecret(identity, h.remoteEphemeral).value,
                                  SharedSecret(identity, pk).value, stamp)
  }

  ghost predicate HandshakeFine(identity: nat, pk: PublicKey, h: Handshake) {
    && h.remoteStatic == pk
    && h.staticStatic == StaticStatic(identity, pk)
    && |h.lastTimestamp| == 12
    && StateHasIndex(h)
    && (pk.LowOrder? ==> h.state == Zeroed)
    && (h.state == InitiationCreated ==> InitiatorTranscript(identity, pk, h))
    && (h.state == InitiationConsumed ==> ResponderTranscript(identity, pk, h))
  }

  ghost predicate PeersFine(s: State) {
    forall pk :: pk in s.peers ==> SlotsFine(s, s.peers[pk]) && HandshakeFine(s.identity, pk, s.peers[pk].handshake)
  }

  ghost predicate Inv(s: State) {
    TableExact(s) && PeersFine(s)
  }

  // ---- Every step keeps the invariant ----------------------------------------------------------

  /** `t` and `t'` differ only in the entries of peer `pk`. */
  ghost predicate OthersKept(t: Table, t': Table, pk: PublicKey) {
    && (forall i :: i in t && t[i].peer != pk ==> i in t' && t'[i] == t[i])
    && (forall i :: i in t' && t'[i].peer != pk ==> i in t && t[i] == t'[i])
  }

  function Without(live: set<Keypair>, k: Option<Keypair>): set<Keypair> {
    if k.Some? then live - {k.value} else live
  }

  lemma DropKeypair(t: Table, pk: PublicKey, pending: nat, live: set<Keypair>, k: Option<Keypair>)
    requires Holds(t, pk, pending, live)
    requires k.Some? ==> k.value in live
    ensures Holds(DeleteKeypair(t, k), pk, pending, Without(live, k))
    ensures OthersKept(t, DeleteKeypair(t, k), pk)
  {}

  lemma DropHandshake(t: Table, pk: PublicKey, pending: nat, live: set<Keypair>)
    requires Holds(t, pk, pending, live) && (pending == 0 ==> 0 !in t)
    ensures Holds(Delete(t, pending), pk, 0, live)
    ensures OthersKept(t, Delete(t, pending), pk)
  {}

  lemma AddHandshake(t: Table, pk: PublicKey, live: set<Keypair>, index: nat)
    requires Holds(t, pk, 0, live) && index != 0 && index !in t
    ensures Holds(t[index := HandshakeEntry(pk)], pk, index, live)
    ensures OthersKept(t, t[index := HandshakeEntry(pk)], pk)
  {}

  lemma SwapHandshake(t: Table, pk: PublicKey, pending: nat, live: set<Keypair>, k: Keypair)
    requires Holds(t, pk, pending, live) && pending == k.localIndex != 0
    ensures Holds(SwapIndexForKeypair(t, pending, k), pk, 0, live + {k})
    ensures OthersKept(t, SwapIndexForKeypair(t, pending, k), pk)
  {}

  lemma OthersKeptTransitive(t: Table, t': Table, t'': Table, pk: PublicKey)
    requires OthersKept(t, t', pk) && OthersKept(t', t'', pk)
    ensures OthersKept(t, t'', pk)
  {}

  /** No entry of any peer sits at index 0. */
  lemma NoEntryAtZero(s: State)
    requires TableExact(s)
    ensures 0 !in s.table
  {
    forall i | i in s.table ensures i != 0 {
      assert PeerHolds(s, s.table[i].peer);
    }
  }

  /** A step that changes one peer and its entries only has to be checked there. */
  lemma OnePeer(s: State, s': State, pk: PublicKey)
    requires TableExact(s) && pk in s'.peers && s'.peers == s.peers[pk := s'.peers[pk]]
    requires OthersKept(s.table, s'.table, pk) && PeerHolds(s', pk)
    ensures TableExact(s')
  {
    forall q | q in s'.peers && q != pk ensures PeerHolds(s', q) {
      assert PeerHolds(s, q) && s'.peers[q] == s.peers[q];
    }
  }

  lemma NewIndexExact(s: State, s': State, pk: PublicKey, index: nat)
    requires TableExact(s) && pk in s.peers && FreshIndex(s, pk, index)
    requires pk in s'.peers && s'.peers == s.peers[pk := s'.peers[pk]]
    requires s'.peers[pk].handshake.localIndex == index && s'.peers[pk].keypairs == s.peers[pk].keypairs
    requires s'.table == Delete(s.table, s.peers[pk].handshake.localIndex)[index := HandshakeEntry(pk)]
    ensures TableExact(s')
  {
    var pending, live := s.peers[pk].handshake.localIndex, Slots(s.peers[pk]);
    assert PeerHolds(s, pk);
    NoEntryAtZero(s);
    DropHandshake(s.table, pk, pending, live);
    AddHandshake(Delete(s.table, pending), pk, live, index);
    OnePeer(s, s', pk);
  }

  /** A step that leaves the table, the handshake index and the keypairs of one peer alone. */
  lemma SameIndicesExact(s: State, s': State, pk: PublicKey)
    requires TableExact(s) && pk in s.peers && pk in s'.peers && s'.peers == s.peers[pk := s'.peers[pk]]
    requires s'.table == s.table && s'.peers[pk].keypairs == s.peers[pk].keypairs
    requires s'.peers[pk].handshake.localIndex == s.peers[pk].handshake.localIndex
    ensures TableExact(s')
  {
    assert PeerHolds(s, pk);
    OnePeer(s, s', pk);
  }

  lemma NewPeerExact(s: State, pk: PublicKey, psk: Term)
    requires TableExact(s)
    ensures TableExact(NewPeer(s, pk, psk))
  {
    var s' := NewPeer(s, pk, psk);
    if s' != s {
      OnePeer(s, s', pk);
    }
  }

  lemma ExpireExact(s: State, pk: PublicKey)
    requires TableExact(s) && pk in s.peers
    ensures TableExact(ExpireCurrentKeypairs(s, pk))
  {
    assert PeerHolds(s, pk);
    NoEntryAtZero(s);
    DropHandshake(s.table, pk, s.peers[pk].handshake.localIndex, Slots(s.peers[pk]));
    OnePeer(s, ExpireCurrentKeypairs(s, pk), pk);
  }

  lemma Promoted(p: Peer, p': Peer)
    requires DistinctSlots(p.keypairs) && p.keypairs.next.Some?
    requires p'.keypairs == Keypairs(p.keypairs.next, p.keypairs.current, None)
    ensures Slots(p') == Without(Slots(p), p.keypairs.previous) && Slots(p') <= Slots(p) && DistinctSlots(p'.keypairs)
    ensures p.keypairs.previous.Some? ==> p.keypairs.previous.value in Slots(p)
  {}

  lemma ReceivedExact(s: State, pk: PublicKey, k: Keypair)
    requires TableExact(s) && pk in s.peers && SlotsFine(s, s.peers[pk])
    ensures TableExact(ReceivedWithKeypair(s, pk, k).0)
  {
    var p, s' := s.peers[pk], ReceivedWithKeypair(s, pk, k).0;
    if p.keypairs.next == Some(k) {
      assert PeerHolds(s, pk);
      Promoted(p, s'.peers[pk]);
      DropKeypair(s.table, pk, p.handshake.localIndex, Slots(p), p.keypairs.previous);
      OnePeer(s, s', pk);
    }
  }

  lemma DropTwo(t: Table, pk: PublicKey, pending: nat, live: set<Keypair>, a: Option<Keypair>, b: Option<Keypair>)
    requires Holds(t, pk, pending, live)
    requires (a.Some? ==> a.value in live) && (b.Some? ==> b.value in Without(live, a))
    ensures Holds(DeleteKeypair(DeleteKeypair(t, a), b), pk, pending, Without(Without(live, a), b))
    ensures OthersKept(t, DeleteKeypair(DeleteKeypair(t, a), b), pk)
  {
    DropKeypair(t, pk, pending, live, a);
    var t', live' := DeleteKeypair(t, a), Without(live, a);
    DropKeypair(t', pk, pending, live', b);
    OthersKeptTransitive(t, t', DeleteKeypair(t', b), pk);
  }

  lemma DropEverything(t: Table, pk: PublicKey, p: Peer)
    requires Holds(t, pk, p.handshake.localIndex, Slots(p)) && DistinctSlots(p.keypairs) && 0 !in t
    ensures var kps := p.keypairs;
            var t' := DeleteKeypair(DeleteKeypair(DeleteKeypair(t, kps.previous), kps.current), kps.next);
            && Holds(Delete(t', p.handshake.localIndex), pk, 0, {})
            && OthersKept(t, Delete(t', p.handshake.localIndex), pk)
  {
    var kps, pending := p.keypairs, p.handshake.localIndex;
    DropTwo(t, pk, pending, Slots(p), kps.previous, kps.current);
    var t1, live1 := DeleteKeypair(DeleteKeypair(t, kps.previous), kps.current),
                     Without(Without(Slots(p), kps.previous), kps.current);
    DropKeypair(t1, pk, pending, live1, kps.next);
    var t2 := DeleteKeypair(t1, kps.next);
    assert Without(live1, kps.next) == {};
    DropHandshake(t2, pk, pending, {});
    OthersKeptTransitive(t, t1, t2, pk);
    OthersKeptTransitive(t, t2, Delete(t2, pending), pk);
  }

  lemma ZeroAndFlushAllExact(s: State, pk: PublicKey)
    requires TableExact(s) && pk in s.peers && SlotsFine(s, s.peers[pk])
    ensures TableExact(ZeroAndFlushAll(s, pk))
    ensures forall i :: i in ZeroAndFlushAll(s, pk).table ==> ZeroAndFlushAll(s, pk).table[i].peer != pk
  {
    var s' := ZeroAndFlushAll(s, pk);
    assert PeerHolds(s, pk);
    NoEntryAtZero(s);
    DropEverything(s.table, pk, s.peers[pk]);
    assert Slots(s'.peers[pk]) == {};
    OnePeer(s, s', pk);
  }

  /** Rotation: the slots after a session begins are the old ones and the new keypair, without the two dropped. */
  lemma RotatedSlots(s: State, pk: PublicKey, k: Keypair, first: Option<Keypair>)
    requires pk in s.peers && SlotsFine(s, s.peers[pk]) && BeginSession(s, pk).1
    requires var p, p' := s.peers[pk], BeginSession(s, pk).0.peers[pk];
             if p.handshake.state == ResponseCreated
             then p'.keypairs.next == Some(k) && first == p.keypairs.next
             else p'.keypairs.current == Some(k) && first == if p.keypairs.next.Some? then p.keypairs.current else None
    ensures var p, p' := s.peers[pk], BeginSession(s, pk).0.peers[pk];
            && k.localIndex == p.handshake.localIndex
            && (first.Some? ==> first.value in Slots(p))
            && (p.keypairs.previous.Some? ==> p.keypairs.previous.value in Without(Slots(p) + {k}, first))
            && Without(Without(Slots(p) + {k}, first), p.keypairs.previous) == Slots(p')
            && DeleteKeypair(DeleteKeypair(SwapIndexForKeypair(s.table, k.localIndex, k), first),
                             p.keypairs.previous) == BeginSession(s, pk).0.table
  {
    assert k !in Slots(s.peers[pk]);
  }

  lemma BeginSessionExact(s: State, pk: PublicKey)
    requires TableExact(s) && pk in s.peers && SlotsFine(s, s.peers[pk]) && StateHasIndex(s.peers[pk].handshake)
    ensures TableExact(BeginSession(s, pk).0)
  {
    var p := s.peers[pk];
    var (s', ok) := BeginSession(s, pk);
    if ok {
      var initiator := p.handshake.state == ResponseConsumed;
      var k := if initiator then s'.peers[pk].keypairs.current.value else s'.peers[pk].keypairs.next.value;
      var first := if !initiator then p.keypairs.next else if p.keypairs.next.Some? then p.keypairs.current else None;
      RotatedSlots(s, pk, k, first);
      assert PeerHolds(s, pk);
      SwapHandshake(s.table, pk, k.localIndex, Slots(p), k);
      var t1 := SwapIndexForKeypair(s.table, k.localIndex, k);
      DropTwo(t1, pk, 0, Slots(p) + {k}, first, p.keypairs.previous);
      OthersKeptTransitive(s.table, t1, s'.table, pk);
      OnePeer(s, s', pk);
    }
  }

  // ---- Peers stay well formed ------------------------------------------------------------------

  lemma OnePeerFine(s: State, s': State, pk: PublicKey)
    requires PeersFine(s) && pk in s'.peers && s'.peers == s.peers[pk := s'.peers[pk]]
    requires s'.identity == s.identity && s'.nextKeypair >= s.nextKeypair
    requires SlotsFine(s', s'.peers[pk]) && HandshakeFine(s'.identity, pk, s'.peers[pk].handshake)
    ensures PeersFine(s')
  {
    forall q | q in s'.peers && q != pk
      ensures SlotsFine(s', s'.peers[q]) && HandshakeFine(s'.identity, q, s'.peers[q].handshake)
    {
      assert s'.peers[q] == s.peers[q];
    }
  }

  lemma CreateInitiationFine(s: State, pk: PublicKey, ephemeral: nat, stamp: Tai64n.Bytes, index: nat)
    requires PeersFine(s) && pk in s.peers && FreshIndex(s, pk, index)
    ensures PeersFine(CreateInitiation(s, pk, ephemeral, stamp, index).0)
    ensures CreateInitiation(s, pk, ephemeral, stamp, index).1.Some? <==> pk.Pub?
  {
    var h := s.peers[pk].handshake;
    var (s', msg) := CreateInitiation(s, pk, ephemeral, stamp, index);
    var h' := s'.peers[pk].handshake;
    if pk.Pub? {
      assert (h'.hash, h'.chainKey) ==
             Transcript(Pub(s.identity), pk, Pub(ephemeral), SharedSecret(ephemeral, pk).value,
                        SharedSecret(s.identity, pk).value, stamp);
    }
    OnePeerFine(s, s', pk);
  }

  lemma ConsumeInitiationFine(s: State, msg: Initiation, now: nat)
    requires PeersFine(s)
    ensures PeersFine(ConsumeInitiation(s, msg, now).0)
  {
    var (s', pk) := ConsumeInitiation(s, msg, now);
    if pk.Some? {
      var h, h' := s.peers[pk.value].handshake, s'.peers[pk.value].handshake;
      assert (h'.hash, h'.chainKey) ==
             Transcript(pk.value, Pub(s.identity), msg.ephemeral, SharedSecret(s.identity, msg.ephemeral).value,
                        SharedSecret(s.identity, pk.value).value, h'.lastTimestamp);
      OnePeerFine(s, s', pk.value);
    }
  }

  lemma CreateResponseFine(s: State, pk: PublicKey, ephemeral: nat, index: nat)
    requires PeersFine(s) && pk in s.peers && FreshIndex(s, pk, index)
    ensures PeersFine(CreateResponse(s, pk, ephemeral, index).0)
    ensures CreateResponse(s, pk, ephemeral, index).1.Some? <==> s.peers[pk].handshake.state == InitiationConsumed
  {
    OnePeerFine(s, CreateResponse(s, pk, ephemeral, index).0, pk);
  }

  lemma BeginSessionFine(s: State, pk: PublicKey)
    requires PeersFine(s) && pk in s.peers
    ensures PeersFine(BeginSession(s, pk).0)
  {
    OnePeerFine(s, BeginSession(s, pk).0, pk);
  }

  // ---- The theorem -----------------------------------------------------------------------------

  lemma ConsumeInitiationKeeps(s: State, msg: Initiation, now: nat)
    requires Inv(s)
    ensures Inv(ConsumeInitiation(s, msg, now).0)
  {
    ConsumeInitiationFine(s, msg, now);
    var (s', pk) := ConsumeInitiation(s, msg, now);
    if pk.Some? {
      SameIndicesExact(s, s', pk.value);
    }
  }

  lemma CreateResponseKeeps(s: State, pk: PublicKey, ephemeral: nat, index: nat)
    requires Inv(s) && pk in s.peers && FreshIndex(s, pk, index)
    ensures Inv(CreateResponse(s, pk, ephemeral, index).0)
  {
    CreateResponseFine(s, pk, ephemeral, index);
    if s.peers[pk].handshake.state == InitiationConsumed {
      NewIndexExact(s, CreateResponse(s, pk, ephemeral, index).0, pk, index);
    }
  }

  lemma CreateInitiationKeeps(s: State, pk: PublicKey, ephemeral: nat, stamp: Tai64n.Bytes, index: nat)
    requires Inv(s) && pk in s.peers && FreshIndex(s, pk, index)
    ensures Inv(CreateInitiation(s, pk, ephemeral, stamp, index).0)
  {
    CreateInitiationFine(s, pk, ephemeral, stamp, index);
    var s' := CreateInitiation(s, pk, ephemeral, stamp, index).0;
    if pk.Pub? {
      NewIndexExact(s, s', pk, index);
    } else {
      SameIndicesExact(s, s', pk);
    }
  }

  /** Writing the result of a response check leaves the table exact; the rest of the invariant wants an index. */
  lemma CommitResponseKeeps(s: State, pk: PublicKey, hash: Term, ck: Term, sender: nat)
    requires Inv(s) && pk in s.peers && pk.Pub?
    ensures TableExact(CommitResponse(s, pk, hash, ck, sender))
    ensures PeersFine(CommitResponse(s, pk, hash, ck, sender)) <==> s.peers[pk].handshake.localIndex != 0
  {
    var s' := CommitResponse(s, pk, hash, ck, sender);
    SameIndicesExact(s, s', pk);
    if s.peers[pk].handshake.localIndex != 0 {
      OnePeerFine(s, s', pk);
    } else {
      assert !StateHasIndex(s'.peers[pk].handshake);
    }
  }

  lemma ConsumeResponseKeeps(s: State, msg: Response)
    requires Inv(s)
    ensures Inv(ConsumeResponse(s, msg).0)
    ensures var pk := ConsumeResponse(s, msg).1;
            pk.Some? ==> pk.value in s.peers && s.peers[pk.value].handshake.localIndex == msg.receiver
  {
    var (s', pk) := ConsumeResponse(s, msg);
    if pk.Some? {
      assert PeerHolds(s, s.table[msg.receiver].peer);
      var ok := CheckResponse(s.identity, s.peers[pk.value].handshake, msg);
      CommitResponseKeeps(s, pk.value, ok.value.0, ok.value.1, msg.sender);
    }
  }

  lemma ZeroAndFlushAllKeeps(s: State, pk: PublicKey)
    requires Inv(s) && pk in s.peers
    ensures Inv(ZeroAndFlushAll(s, pk))
  {
    ZeroAndFlushAllExact(s, pk);
    OnePeerFine(s, ZeroAndFlushAll(s, pk), pk);
  }

  lemma SetRunningKeeps(s: State, pk: PublicKey, running: bool)
    requires Inv(s) && pk in s.peers
    ensures Inv(s.(peers := s.peers[pk := s.peers[pk].(running := running)]))
  {
    var s' := s.(peers := s.peers[pk := s.peers[pk].(running := running)]);
    SameIndicesExact(s, s', pk);
    OnePeerFine(s, s', pk);
  }

  lemma NewPeerKeeps(s: State, pk: PublicKey, psk: Term)
    requires Inv(s)
    ensures Inv(NewPeer(s, pk, psk))
  {
    var s' := NewPeer(s, pk, psk);
    NewPeerExact(s, pk, psk);
    if s' != s {
      OnePeerFine(s, s', pk);
    }
  }

  lemma BeginSessionKeeps(s: State, pk: PublicKey)
    requires Inv(s) && pk in s.peers
    ensures Inv(BeginSession(s, pk).0)
  {
    BeginSessionExact(s, pk);
    BeginSessionFine(s, pk);
  }

  /**
   The source drops the handshake lock between checking a response and writing the result. Whatever happened in
   between, the session begun after the write leaves the table exact, and its keypair can be looked up, if and only if
   the handshake had an index when the result was written.
   */
  lemma SessionAfterCommit(s: State, pk: PublicKey, hash: Term, ck: Term, sender: nat)
    requires Inv(s) && pk in s.peers && pk.Pub?
    ensures var s' := BeginSession(CommitResponse(s, pk, hash, ck, sender), pk).0;
            && s'.peers[pk].keypairs.current.Some?
            && (TableExact(s') <==> s.peers[pk].handshake.localIndex != 0)
            && (var k := s'.peers[pk].keypairs.current.value;
                (k.localIndex in s'.table && s'.table[k.localIndex] == KeypairEntry(pk, k)) <==>
                s.peers[pk].handshake.localIndex != 0)
  {
    var s1 := CommitResponse(s, pk, hash, ck, sender);
    var s' := BeginSession(s1, pk).0;
    var k := s'.peers[pk].keypairs.current.value;
    assert k in Slots(s'.peers[pk]);
    CommitResponseKeeps(s, pk, hash, ck, sender);
    NoEntryAtZero(s);
    if s.peers[pk].handshake.localIndex != 0 {
      BeginSessionKeeps(s1, pk);
      assert PeerHolds(s', pk);
    } else {
      assert !PeerHolds(s', pk);
    }
  }

  lemma ReceiveKeeps(s: State, pk: PublicKey, k: Keypair, counter: nat, box: Term, accepted: bool)
    requires Inv(s) && pk in s.peers
    ensures Inv(Receive(s, pk, k, counter, box, accepted))
  {
    ReceivedExact(s, pk, k);
    var s' := ReceivedWithKeypair(s, pk, k).0;
    if s.peers[pk].keypairs.next == Some(k) {
      Promoted(s.peers[pk], s'.peers[pk]);
      OnePeerFine(s, s', pk);
    }
  }

  lemma ExpireKeeps(s: State, pk: PublicKey)
    requires Inv(s) && pk in s.peers
    ensures Inv(ExpireCurrentKeypairs(s, pk))
  {
    ExpireExact(s, pk);
    OnePeerFine(s, ExpireCurrentKeypairs(s, pk), pk);
  }

  lemma StopKeeps(s: State, pk: PublicKey)
    requires Inv(s) && pk in s.peers
    ensures Inv(Stop(s, pk))
  {
    SetRunningKeeps(s, pk, false);
    ZeroAndFlushAllKeeps(s.(peers := s.peers[pk := s.peers[pk].(running := false)]), pk);
  }

  lemma StepKeeps(s: State, a: Action)
    requires Inv(s) && Enabled(s, a)
    ensures Inv(Apply(s, a))
  {
    match a
    case ANewPeer(pk, psk) => NewPeerKeeps(s, pk, psk);
    case ACreateInitiation(pk, ephemeral, stamp, index) => CreateInitiationKeeps(s, pk, ephemeral, stamp, index);
    case AConsumeInitiation(msg, now) => ConsumeInitiationKeeps(s, msg, now);
    case ACreateResponse(pk, ephemeral, index) => CreateResponseKeeps(s, pk, ephemeral, index);
    case AConsumeResponse(msg) => ConsumeResponseKeeps(s, msg);
    case ABeginSession(pk) => BeginSessionKeeps(s, pk);
    case AReceive(pk, k, counter, box, accepted) => ReceiveKeeps(s, pk, k, counter, box, accepted);
    case AZeroAndFlushAll(pk) => ZeroAndFlushAllKeeps(s, pk);
    case AExpire(pk) => ExpireKeeps(s, pk);
    case AStart(pk) => SetRunningKeeps(s, pk, true);
    case AStop(pk) => StopKeeps(s, pk);
  }

  /** In every reachable state, after any steps on any peers in any order, the invariant holds. */
  lemma {:induction false} EveryRun(identity: nat, trace: seq<Action>)
    requires Run(identity, trace).Some?
    ensures Inv(Run(identity, trace).value) && Run(identity, trace).value.identity == identity
  {
    if trace != [] {
      EveryRun(identity, trace[..|trace| - 1]);
      StepKeeps(Run(identity, trace[..|trace| - 1]).value, trace[|trace| - 1]);
    }
  }
}
