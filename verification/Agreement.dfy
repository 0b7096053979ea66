/**
 Both ends of a handshake end up with the same secrets: when messages arrive unchanged, and, whatever happens
 to the messages, whenever the initiator accepts a tag that a responder sealed.
 */
module Agreement {
  import opened Common
  import opened Noise
  import opened Device
  import opened DeviceInvariant
  import DeviceRuns
  import Tai64n

  ghost predicate SameSecrets(h: Handshake, h': Handshake) {
    h.hash == h'.hash && h.chainKey == h'.chainKey
  }

  /** `b` is ready to accept an initiation from `a` with this stamp at this time. */
  predicate Ready(a: State, b: State, stamp: Tai64n.Bytes, now: nat) {
    && Pub(b.identity) in a.peers && Pub(a.identity) in b.peers
    && (var h := b.peers[Pub(a.identity)].handshake;
        && b.peers[Pub(a.identity)].running
        && a.peers[Pub(b.identity)].handshake.presharedKey == h.presharedKey
        && |stamp| == 12 && Tai64n.After(stamp, h.lastTimestamp)
        && (h.lastConsumption.Some? ==> now - h.lastConsumption.value > INITIATION_RATE))
  }

  /** The handshakes of the initiator and the responder after the first message. */
  ghost predicate Paired(h: Handshake, h': Handshake) {
    && h.state == InitiationCreated && h'.state == InitiationConsumed
    && SameSecrets(h, h') && h.presharedKey == h'.presharedKey
    && h'.remoteIndex == h.localIndex && h'.remoteEphemeral == Pub(h.localEphemeral)
  }

  /** `a` sent an initiation that `b` consumed, and both still hold its secrets. */
  ghost predicate AfterInitiation(a: State, b: State) {
    && Inv(a) && Inv(b)
    && Pub(b.identity) in a.peers && Pub(a.identity) in b.peers
    && Paired(a.peers[Pub(b.identity)].handshake, b.peers[Pub(a.identity)].handshake)
  }

  /** The boxes of an initiation, from the secrets of ephemeral and static keys. */
  function Boxes(initiator: PublicKey, responder: PublicKey, ephemeral: PublicKey, es: Term, ss: Term,
                 stamp: Tai64n.Bytes): (Term, Term) {
    var hash := MixHash(MixHash(INITIAL_HASH, Key(responder)), Key(ephemeral));
    var (ck, key) := Kdf2(Kdf1(INITIAL_CHAIN_KEY, Key(ephemeral)), es);
    var sealedStatic := Sealed(key, ZERO_NONCE, Key(initiator), hash);
    (sealedStatic, Sealed(Kdf2(ck, ss).1, ZERO_NONCE, Octets(stamp), MixHash(hash, sealedStatic)))
  }

  lemma Seals(a: nat, b: nat, h: Handshake, ephemeral: nat, stamp: Tai64n.Bytes, index: nat, es: Term)
    requires h.remoteStatic == Pub(b) && h.staticStatic.Dh? && SharedSecret(ephemeral, Pub(b)) == Some(es)
    ensures var (h1, msg) := Initiate(a, h, ephemeral, stamp, index);
            var boxes := Boxes(Pub(a), Pub(b), Pub(ephemeral), es, h.staticStatic, stamp);
            && msg == Some(Initiation(INITIATION_TYPE, index, Pub(ephemeral), boxes.0, boxes.1))
            && (h1.hash, h1.chainKey) == Transcript(Pub(a), Pub(b), Pub(ephemeral), es, h.staticStatic, stamp)
            && h1.state == InitiationCreated && h1.localEphemeral == ephemeral && h1.localIndex == index
            && h1.presharedKey == h.presharedKey
  {}

  lemma Names(a: nat, b: nat, ephemeral: nat, stamp: Tai64n.Bytes, index: nat, es: Term, ss: Term)
    requires SharedSecret(b, Pub(ephemeral)) == Some(es)
    ensures var boxes := Boxes(Pub(a), Pub(b), Pub(ephemeral), es, ss, stamp);
            InitiatorOf(b, Initiation(INITIATION_TYPE, index, Pub(ephemeral), boxes.0, boxes.1)) == Some(Pub(a))
  {}

  lemma Opens(a: nat, b: nat, h: Handshake, ephemeral: nat, stamp: Tai64n.Bytes, index: nat, now: nat, es: Term,
              msg: Initiation)
    requires SharedSecret(b, Pub(ephemeral)) == Some(es) && h.staticStatic.Dh?
    requires |stamp| == 12 && Tai64n.After(stamp, h.lastTimestamp)
    requires h.lastConsumption.Some? ==> now - h.lastConsumption.value > INITIATION_RATE
    requires var boxes := Boxes(Pub(a), Pub(b), Pub(ephemeral), es, h.staticStatic, stamp);
             msg == Initiation(INITIATION_TYPE, index, Pub(ephemeral), boxes.0, boxes.1) && InitiatorOf(b, msg).Some?
    ensures var h2 := Accept(b, h, msg, now);
            && h2.Some? && (h2.value.hash, h2.value.chainKey) ==
                           Transcript(Pub(a), Pub(b), Pub(ephemeral), es, h.staticStatic, stamp)
            && h2.value.state == InitiationConsumed && h2.value.remoteIndex == index
            && h2.value.remoteEphemeral == Pub(ephemeral)
            && h2.value.presharedKey == h.presharedKey && h2.value.localIndex == h.localIndex
  {}

  /** What one side seals the other side opens, to the same secrets. */
  lemma InitiateAccept(a: nat, b: nat, h: Handshake, h': Handshake, ephemeral: nat, stamp: Tai64n.Bytes, index: nat,
                       now: nat)
    requires h.remoteStatic == Pub(b) && h.staticStatic == StaticStatic(a, Pub(b))
             && h'.staticStatic == StaticStatic(b, Pub(a))
    requires h.presharedKey == h'.presharedKey && |stamp| == 12 && Tai64n.After(stamp, h'.lastTimestamp)
    requires h'.lastConsumption.Some? ==> now - h'.lastConsumption.value > INITIATION_RATE
    ensures var (h1, msg) := Initiate(a, h, ephemeral, stamp, index);
            && msg.Some? && msg.value.kind == INITIATION_TYPE
            && InitiatorOf(b, msg.value) == Some(Pub(a))
            && (var h2 := Accept(b, h', msg.value, now);
                && h2.Some? && Paired(h1, h2.value) && h1.localIndex == index && h2.value.localIndex == h'.localIndex)
  {
    SharedSecretAgrees(ephemeral, b, 0, 0);
    SharedSecretAgrees(a, b, 0, 0);
    var es := SharedSecret(ephemeral, Pub(b)).value;
    Seals(a, b, h, ephemeral, stamp, index, es);
    Names(a, b, ephemeral, stamp, index, es, h.staticStatic);
    Opens(a, b, h', ephemeral, stamp, index, now, es, Initiate(a, h, ephemeral, stamp, index).1.value);
  }

  /** The invariant gives each side the other's static key and the shared secret of the two. */
  predicate Acquainted(s: State, pk: PublicKey) {
    && pk in s.peers
    && s.peers[pk].handshake.remoteStatic == pk && s.peers[pk].handshake.staticStatic == StaticStatic(s.identity, pk)
  }

  lemma PeersAcquainted(s: State, pk: PublicKey)
    requires Inv(s) && pk in s.peers
    ensures Acquainted(s, pk)
  {}

  lemma InitiationCarries(a: State, b: State, ephemeral: nat, stamp: Tai64n.Bytes, index: nat, now: nat)
    requires Ready(a, b, stamp, now) && Acquainted(a, Pub(b.identity)) && Acquainted(b, Pub(a.identity))
    ensures var (pa, pb) := (Pub(a.identity), Pub(b.identity));
            var (a', msg) := CreateInitiation(a, pb, ephemeral, stamp, index);
            && msg.Some?
            && (var (b', pk) := ConsumeInitiation(b, msg.value, now);
                && pk == Some(pa)
                && a'.identity == a.identity && b'.identity == b.identity && b'.table == b.table
                && pb in a'.peers && pa in b'.peers && Paired(a'.peers[pb].handshake, b'.peers[pa].handshake)
                && a'.peers[pb].handshake.localIndex == index
                && b'.peers[pa].handshake.localIndex == b.peers[pa].handshake.localIndex)
  {
    var pa, pb := Pub(a.identity), Pub(b.identity);
    InitiateAccept(a.identity, b.identity, a.peers[pb].handshake, b.peers[pa].handshake, ephemeral, stamp, index, now);
  }

  lemma InitiationAgrees(a: State, b: State, ephemeral: nat, stamp: Tai64n.Bytes, index: nat, now: nat)
    requires Inv(a) && Inv(b) && Ready(a, b, stamp, now) && FreshIndex(a, Pub(b.identity), index)
    ensures var (a', msg) := CreateInitiation(a, Pub(b.identity), ephemeral, stamp, index);
            && msg.Some?
            && (var (b', pk) := ConsumeInitiation(b, msg.value, now);
                && pk == Some(Pub(a.identity))
                && AfterInitiation(a', b')
                && a'.identity == a.identity && b'.identity == b.identity && b'.table == b.table
                && a'.peers[Pub(b.identity)].handshake.localIndex == index
                && b'.peers[Pub(a.identity)].handshake.localIndex == b.peers[Pub(a.identity)].handshake.localIndex)
  {
    var pa, pb := Pub(a.identity), Pub(b.identity);
    PeersAcquainted(a, pb);
    PeersAcquainted(b, pa);
    InitiationCarries(a, b, ephemeral, stamp, index, now);
    CreateInitiationKeeps(a, pb, ephemeral, stamp, index);
    ConsumeInitiationKeeps(b, CreateInitiation(a, pb, ephemeral, stamp, index).1.value, now);
  }

  /** `b` answered, `a` consumed the answer, and both hold the final secrets of the handshake. */
  ghost predicate AfterResponse(a: State, b: State, pk: PublicKey, pk': PublicKey) {
    && pk in a.peers && pk' in b.peers
    && (var h, h' := a.peers[pk].handshake, b.peers[pk'].handshake;
        && h.state == ResponseConsumed && h'.state == ResponseCreated && SameSecrets(h, h')
        && h.remoteIndex == h'.localIndex && h'.remoteIndex == h.localIndex)
  }

  lemma ResponseAgrees(a: State, b: State, ephemeral: nat, index: nat)
    requires AfterInitiation(a, b) && FreshIndex(b, Pub(a.identity), index)
    ensures var (b', msg) := CreateResponse(b, Pub(a.identity), ephemeral, index);
            && msg.Some?
            && (var (a', pk) := ConsumeResponse(a, msg.value);
                && pk == Some(Pub(b.identity))
                && AfterResponse(a', b', Pub(b.identity), Pub(a.identity))
                && b'.peers[Pub(a.identity)].handshake.localIndex == index
                && a'.peers[Pub(b.identity)].handshake.localIndex == a.peers[Pub(b.identity)].handshake.localIndex)
  {
    assert PeerHolds(a, Pub(b.identity));
    var h := a.peers[Pub(b.identity)].handshake;
    SharedSecretAgrees(ephemeral, h.localEphemeral, 0, 0);
    SharedSecretAgrees(ephemeral, a.identity, 0, 0);
  }

  /** The initiator's keypair and the responder's keypair fit together. */
  predicate Crossed(k: Keypair, k': Keypair) {
    && k.sendKey == k'.recvKey && k.recvKey == k'.sendKey && k.sendKey != k.recvKey
    && k.localIndex == k'.remoteIndex && k.remoteIndex == k'.localIndex
    && k.isInitiator && !k'.isInitiator
  }

  lemma SessionsCross(a: State, b: State, pk: PublicKey, pk': PublicKey)
    requires AfterResponse(a, b, pk, pk')
    ensures var kps, kps' := BeginSession(a, pk).0.peers[pk].keypairs, BeginSession(b, pk').0.peers[pk'].keypairs;
            && kps.current.Some? && kps'.next.Some? && Crossed(kps.current.value, kps'.next.value)
            && kps.current.value.localIndex == a.peers[pk].handshake.localIndex
            && kps'.next.value.localIndex == b.peers[pk'].handshake.localIndex
  {}

  /**
   The two messages and the two derivations, on any two devices in any states that meet the source's own
   conditions: every step succeeds, hash and chain key agree after each message, and the sessions cross.
   */
  lemma HonestHandshake(a: State, b: State, ea: nat, eb: nat, ia: nat, ib: nat, stamp: Tai64n.Bytes, now: nat)
    returns (initiation: Initiation, response: Response, a1: State, b1: State, a2: State, b2: State, k: Keypair,
             k': Keypair)
    requires Inv(a) && Inv(b) && Ready(a, b, stamp, now)
    requires FreshIndex(a, Pub(b.identity), ia) && FreshIndex(b, Pub(a.identity), ib)
    ensures CreateInitiation(a, Pub(b.identity), ea, stamp, ia) == (a1, Some(initiation))
    ensures ConsumeInitiation(b, initiation, now) == (b1, Some(Pub(a.identity)))
    ensures AfterInitiation(a1, b1) && a1.identity == a.identity && b1.identity == b.identity
    ensures FreshIndex(b1, Pub(a.identity), ib)
    ensures CreateResponse(b1, Pub(a.identity), eb, ib) == (b2, Some(response))
    ensures ConsumeResponse(a1, response) == (a2, Some(Pub(b.identity)))
    ensures AfterResponse(a2, b2, Pub(b.identity), Pub(a.identity))
    ensures BeginSession(a2, Pub(b.identity)).0.peers[Pub(b.identity)].keypairs.current == Some(k)
    ensures BeginSession(b2, Pub(a.identity)).0.peers[Pub(a.identity)].keypairs.next == Some(k')
    ensures Crossed(k, k') && k.localIndex == ia && k'.localIndex == ib
  {
    var pa, pb := Pub(a.identity), Pub(b.identity);
    InitiationAgrees(a, b, ea, stamp, ia, now);
    a1, initiation := CreateInitiation(a, pb, ea, stamp, ia).0, CreateInitiation(a, pb, ea, stamp, ia).1.value;
    b1 := ConsumeInitiation(b, initiation, now).0;
    ResponseAgrees(a1, b1, eb, ib);
    b2, response := CreateResponse(b1, pa, eb, ib).0, CreateResponse(b1, pa, eb, ib).1.value;
    a2 := ConsumeResponse(a1, response).0;
    SessionsCross(a2, b2, pb, pa);
    k := BeginSession(a2, pb).0.peers[pb].keypairs.current.value;
    k' := BeginSession(b2, pa).0.peers[pa].keypairs.next.value;
  }

  /** What one end sends under its keypair, with this counter. */
  function Packet(k: Keypair, counter: nat, plain: Term): Term {
    Sealed(k.sendKey, Octets([counter]), plain, Octets([]))
  }

  /** A packet of the initiator under the index of the responder's new keypair. */
  lemma FirstPacketConfirms(b: State, pk: PublicKey, k: Keypair, k': Keypair, counter: nat, plain: Term)
    requires Inv(b) && pk in b.peers && b.peers[pk].keypairs.next == Some(k') && Crossed(k, k')
    ensures var b' := Receive(b, pk, k', counter, Packet(k, counter, plain), true);
            && DeviceRuns.Findable(b, pk, k') && k'.localIndex == k.remoteIndex
            && OpensUnder(k', counter, Packet(k, counter, plain))
            && DeviceRuns.PromotedTo(b, b', pk, k')
  {
    DeviceRuns.SlotsFindable(b, pk, k');
    DeviceRuns.Promotes(b, pk, k');
  }

  /**
   The whole handshake and the first packet: between any two devices that meet the source's own conditions, once a
   packet of the initiator has arrived both ends send under keypairs that fit together, and each finds its keypair
   under the index that the other one puts into its packets.
   */
  lemma ConfirmedHandshake(a: State, b: State, ea: nat, eb: nat, ia: nat, ib: nat, stamp: Tai64n.Bytes, now: nat,
                           counter: nat, plain: Term)
    returns (a3: State, b3: State, b4: State, k: Keypair, k': Keypair)
    requires Inv(a) && Inv(b) && Ready(a, b, stamp, now)
    requires FreshIndex(a, Pub(b.identity), ia) && FreshIndex(b, Pub(a.identity), ib)
    ensures var (pa, pb) := (Pub(a.identity), Pub(b.identity));
            && Delivered(a, b, ea, eb, ia, ib, stamp, now) == Some((a3, b3))
            && pb in a3.peers && a3.peers[pb].keypairs.current == Some(k)
            && pa in b3.peers && b3.peers[pa].keypairs.next == Some(k')
            && OpensUnder(k', counter, Packet(k, counter, plain))
            && b4 == Receive(b3, pa, k', counter, Packet(k, counter, plain), true)
            && pa in b4.peers && b4.peers[pa].keypairs.current == Some(k')
            && Crossed(k, k') && DeviceRuns.Findable(a3, pb, k) && DeviceRuns.Findable(b4, pa, k')
            && k.remoteIndex == k'.localIndex && k'.remoteIndex == k.localIndex
  {
    var pa, pb := Pub(a.identity), Pub(b.identity);
    a3, b3, k, k' := SessionsBegun(a, b, ea, eb, ia, ib, stamp, now);
    DeviceRuns.SlotsFindable(a3, pb, k);
    FirstPacketConfirms(b3, pa, k, k', counter, plain);
    b4 := Receive(b3, pa, k', counter, Packet(k, counter, plain), true);
  }

  /** Up to the two sessions. */
  lemma SessionsBegun(a: State, b: State, ea: nat, eb: nat, ia: nat, ib: nat, stamp: Tai64n.Bytes, now: nat)
    returns (a3: State, b3: State, k: Keypair, k': Keypair)
    requires Inv(a) && Inv(b) && Ready(a, b, stamp, now)
    requires FreshIndex(a, Pub(b.identity), ia) && FreshIndex(b, Pub(a.identity), ib)
    ensures Delivered(a, b, ea, eb, ia, ib, stamp, now) == Some((a3, b3)) && BothInv(a3, b3)
    ensures Pub(b.identity) in a3.peers && a3.peers[Pub(b.identity)].keypairs.current == Some(k)
    ensures Pub(a.identity) in b3.peers && b3.peers[Pub(a.identity)].keypairs.next == Some(k')
    ensures Crossed(k, k')
  {
    var pa, pb := Pub(a.identity), Pub(b.identity);
    var initiation, response, a1, b1, a2, b2;
    initiation, response, a1, b1, a2, b2, k, k' := HonestHandshake(a, b, ea, eb, ia, ib, stamp, now);
    a3, b3 := BeginSession(a2, pb).0, BeginSession(b2, pa).0;
    DeliveredValue(a, b, ea, eb, ia, ib, stamp, now, initiation, response, a1, b1, a2, b2);
    InitiatorEnd(a1, response, pb);
    ResponderEnd(b1, pa, eb, ib);
  }

  lemma DeliveredValue(a: State, b: State, ea: nat, eb: nat, ia: nat, ib: nat, stamp: Tai64n.Bytes, now: nat,
                       initiation: Initiation, response: Response, a1: State, b1: State, a2: State, b2: State)
    requires Pub(b.identity) in a.peers && Pub(b.identity) in a2.peers
    requires Pub(a.identity) in b1.peers && Pub(a.identity) in b2.peers
    requires CreateInitiation(a, Pub(b.identity), ea, stamp, ia) == (a1, Some(initiation))
    requires ConsumeInitiation(b, initiation, now) == (b1, Some(Pub(a.identity)))
    requires CreateResponse(b1, Pub(a.identity), eb, ib) == (b2, Some(response))
    requires ConsumeResponse(a1, response) == (a2, Some(Pub(b.identity)))
    ensures Delivered(a, b, ea, eb, ia, ib, stamp, now) ==
            Some((BeginSession(a2, Pub(b.identity)).0, BeginSession(b2, Pub(a.identity)).0))
  {}

  lemma InitiatorEnd(a: State, response: Response, pk: PublicKey)
    requires Inv(a) && ConsumeResponse(a, response).1 == Some(pk) && pk in ConsumeResponse(a, response).0.peers
    ensures Inv(BeginSession(ConsumeResponse(a, response).0, pk).0)
  {
    ConsumeResponseKeeps(a, response);
    BeginSessionKeeps(ConsumeResponse(a, response).0, pk);
  }

  lemma ResponderEnd(b: State, pk: PublicKey, ephemeral: nat, index: nat)
    requires Inv(b) && pk in b.peers && FreshIndex(b, pk, index)
    ensures Inv(BeginSession(CreateResponse(b, pk, ephemeral, index).0, pk).0)
  {
    CreateResponseKeeps(b, pk, ephemeral, index);
    BeginSessionKeeps(CreateResponse(b, pk, ephemeral, index).0, pk);
  }

  ghost predicate BothInv(a: State, b: State) {
    Inv(a) && Inv(b)
  }

  /** Both messages are created, delivered and consumed, and both ends begin a session. */
  function Delivered(a: State, b: State, ea: nat, eb: nat, ia: nat, ib: nat, stamp: Tai64n.Bytes, now: nat)
    : Option<(State, State)>
  {
    var (pa, pb) := (Pub(a.identity), Pub(b.identity));
    if pb !in a.peers then None else
    var (a1, initiation) := CreateInitiation(a, pb, ea, stamp, ia);
    if initiation.None? then None else
    var (b1, initiator) := ConsumeInitiation(b, initiation.value, now);
    if initiator != Some(pa) || pa !in b1.peers then None else
    var (b2, response) := CreateResponse(b1, pa, eb, ib);
    if response.None? || pa !in b2.peers then None else
    var (a2, responder) := ConsumeResponse(a1, response.value);
    if responder != Some(pb) || pb !in a2.peers then None else Some((BeginSession(a2, pb).0, BeginSession(b2, pa).0))
  }

  // ---- Agreement from the tag alone ------------------------------------------------------------

  /**
   Two devices in any reachable states. If the initiator accepts a response whose tag is one that the responder
   sealed, whatever else was changed on the way, then both talk to each other, with the same preshared key, the
   same ephemerals and the same secrets, so the session keys they derive cross.
   */
  lemma TagImpliesAgreement(a: nat, initiatorRun: seq<Action>, b: nat, responderRun: seq<Action>, i: State, r: State,
                            pk: PublicKey, ephemeral: nat, index: nat, msg: Response)
    requires Run(a, initiatorRun) == Some(i) && Run(b, responderRun) == Some(r) && pk in r.peers
    requires CreateResponse(r, pk, ephemeral, index).1.Some?
    requires msg.empty == CreateResponse(r, pk, ephemeral, index).1.value.empty
    requires ConsumeResponse(i, msg).1.Some?
    ensures var peer := ConsumeResponse(i, msg).1.value;
            && peer == Pub(r.identity) && pk == Pub(i.identity)
            && peer in i.peers
            && msg.ephemeral == Pub(ephemeral)
            && Pub(i.peers[peer].handshake.localEphemeral) == r.peers[pk].handshake.remoteEphemeral
            && i.peers[peer].handshake.presharedKey == r.peers[pk].handshake.presharedKey
            && (var i', r' := ConsumeResponse(i, msg).0, CreateResponse(r, pk, ephemeral, index).0;
                && SameSecrets(i'.peers[peer].handshake, r'.peers[pk].handshake)
                && (var k, k' := BeginSession(i', peer).0.peers[peer].keypairs.current,
                                 BeginSession(r', pk).0.peers[pk].keypairs.next;
                    && k.Some? && k'.Some? && k.value.sendKey == k'.value.recvKey
                    && k.value.recvKey == k'.value.sendKey))
  {
    EveryRun(a, initiatorRun);
    EveryRun(b, responderRun);
    var peer := ConsumeResponse(i, msg).1.value;
    Consumed(i, msg);
    Created(r, pk, ephemeral, index);
    HandshakesAgree(i.identity, r.identity, peer, pk, i.peers[peer].handshake, r.peers[pk].handshake, ephemeral, index,
                    msg);
    KeysCross(ConsumeResponse(i, msg).0, CreateResponse(r, pk, ephemeral, index).0, peer, pk);
  }

  lemma Consumed(i: State, msg: Response)
    requires Inv(i) && ConsumeResponse(i, msg).1.Some?
    ensures var (i', peer) := (ConsumeResponse(i, msg).0, ConsumeResponse(i, msg).1.value);
            && peer in i.peers && HandshakeFine(i.identity, peer, i.peers[peer].handshake)
            && (var ok := CheckResponse(i.identity, i.peers[peer].handshake, msg);
                && ok.Some? && peer in i'.peers
                && i'.peers[peer].handshake ==
                   i.peers[peer].handshake.(state := ResponseConsumed, hash := ok.value.0, chainKey := ok.value.1,
                   remoteIndex := msg.sender))
  {
    assert PeerHolds(i, i.table[msg.receiver].peer);
  }

  lemma Created(r: State, pk: PublicKey, ephemeral: nat, index: nat)
    requires Inv(r) && pk in r.peers && CreateResponse(r, pk, ephemeral, index).1.Some?
    ensures var (r', msg) := CreateResponse(r, pk, ephemeral, index);
            var h := r.peers[pk].handshake;
            && HandshakeFine(r.identity, pk, h) && h.state == InitiationConsumed
            && pk in r'.peers && (r'.peers[pk].handshake, msg) == Respond(h, ephemeral, index)
  {}

  /** The same on the two handshakes alone. */
  lemma HandshakesAgree(i: nat, r: nat, peer: PublicKey, pk: PublicKey, h: Handshake, h': Handshake, ephemeral: nat,
                        index: nat, msg: Response)
    requires HandshakeFine(i, peer, h) && HandshakeFine(r, pk, h') && h'.state == InitiationConsumed
    requires Respond(h', ephemeral, index).1.Some? && msg.empty == Respond(h', ephemeral, index).1.value.empty
    requires CheckResponse(i, h, msg).Some?
    ensures peer == Pub(r) && pk == Pub(i) && msg.ephemeral == Pub(ephemeral)
            && Pub(h.localEphemeral) == h'.remoteEphemeral
    ensures h.presharedKey == h'.presharedKey
    ensures var h2 := Respond(h', ephemeral, index).0;
            CheckResponse(i, h, msg).value == (h2.hash, h2.chainKey) && h2.state == ResponseCreated
  {
    SameTag(i, h, h', ephemeral, msg, msg.empty);
    SameTranscript(i, r, peer, pk, h, h');
  }

  lemma KeysCross(i: State, r: State, peer: PublicKey, pk: PublicKey)
    requires peer in i.peers && pk in r.peers
    requires i.peers[peer].handshake.state == ResponseConsumed && r.peers[pk].handshake.state == ResponseCreated
    requires i.peers[peer].handshake.chainKey == r.peers[pk].handshake.chainKey
    ensures var k, k' := BeginSession(i, peer).0.peers[peer].keypairs.current,
                         BeginSession(r, pk).0.peers[pk].keypairs.next;
            && k.Some? && k'.Some? && k.value.sendKey == k'.value.recvKey && k.value.recvKey == k'.value.sendKey
  {}

  lemma SameTag(identity: nat, h: Handshake, h': Handshake, ephemeral: nat, msg: Response, empty: Term)
    requires CheckResponse(identity, h, msg).Some? && msg.empty == empty
    requires h'.remoteEphemeral.Pub? && h'.remoteStatic.Pub?
    requires var ee, se := SharedSecret(ephemeral, h'.remoteEphemeral).value,
                           SharedSecret(ephemeral, h'.remoteStatic).value;
             var (_, tau, key) := Kdf3(Kdf1(Kdf1(Kdf1(h'.chainKey, Key(Pub(ephemeral))), ee), se), h'.presharedKey);
             empty == Sealed(key, ZERO_NONCE, Octets([]), MixHash(MixHash(h'.hash, Key(Pub(ephemeral))), tau))
    ensures h.hash == h'.hash && h.chainKey == h'.chainKey && h.presharedKey == h'.presharedKey
            && msg.ephemeral == Pub(ephemeral)
    ensures SharedSecret(h.localEphemeral, msg.ephemeral) == SharedSecret(ephemeral, h'.remoteEphemeral)
    ensures SharedSecret(identity, msg.ephemeral) == SharedSecret(ephemeral, h'.remoteStatic)
  {}

  lemma SameTranscript(i: nat, r: nat, peer: PublicKey, pk: PublicKey, h: Handshake, h': Handshake)
    requires InitiatorTranscript(i, peer, h) && ResponderTranscript(r, pk, h') && h.hash == h'.hash
    ensures peer == Pub(r) && pk == Pub(i) && Pub(h.localEphemeral) == h'.remoteEphemeral
  {}
}
