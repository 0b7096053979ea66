/**
 Handshakes, the index table and keypair rotation: internal/transport/noise-protocol.go, indextable.go,
 keypair.go and peer.go. Each public operation is one atomic step on a device with any number of peers
 and one shared table; `Transport.dfy` shows that the mutable objects take exactly these steps.
 */
module Device {
  import opened Common
  import opened Noise
  import Tai64n

  // ---- State -----------------------------------------------------------------------------------

  datatype HandshakeState = Zeroed | InitiationCreated | InitiationConsumed | ResponseCreated | ResponseConsumed

  datatype Handshake = Handshake(
    state: HandshakeState,
    hash: Term,
    chainKey: Term,
    presharedKey: Term,
    localEphemeral: nat,
    localIndex: nat, // 0 is "no index"
    remoteIndex: nat,
    remoteStatic: PublicKey,
    remoteEphemeral: PublicKey,
    staticStatic: Term, // precomputed; all zeros when there is no shared secret
    lastTimestamp: Tai64n.Bytes,
    lastConsumption: Option<nat>)

  /** `id` stands for the identity of the keypair object. */
  datatype Keypair = Keypair(id: nat, sendKey: Term, recvKey: Term, isInitiator: bool, localIndex: nat,
                             remoteIndex: nat)

  datatype Keypairs = Keypairs(current: Option<Keypair>, previous: Option<Keypair>, next: Option<Keypair>)

  datatype Peer = Peer(handshake: Handshake, keypairs: Keypairs, running: bool)

  /** A table entry; peers and their handshakes are named by the peer's public key. */
  datatype Entry = Entry(peer: PublicKey, handshake: Option<PublicKey>, keypair: Option<Keypair>)

  type Table = map<nat, Entry>

  datatype State = State(identity: nat, table: Table, peers: map<PublicKey, Peer>, nextKeypair: nat)

  const MAX_PEERS := 0x1_0000
  const INITIATION_RATE := 20_000_000 // ns
  const NO_TIMESTAMP: Tai64n.Bytes := [0, 0, 0, 0, 0, 0, 0, 0, 0, 0, 0, 0]
  const NO_KEY := LowOrder(0)
  const INITIATION_TYPE := 1
  const RESPONSE_TYPE := 2

  datatype Initiation = Initiation(kind: nat, sender: nat, ephemeral: PublicKey, sealedStatic: Term, sealedStamp: Term)
  datatype Response = Response(kind: nat, sender: nat, receiver: nat, ephemeral: PublicKey, empty: Term)

  const INITIAL_CHAIN_KEY := Hash(Text("Noise_IKpsk2_25519_ChaChaPoly_BLAKE2s"))
  const INITIAL_HASH := MixHash(INITIAL_CHAIN_KEY, Text("WireGuard v1 zx2c4 Jason@zx2c4.com"))

  function MixHash(h: Term, data: Term): Term {
    Hash(Cat(h, data))
  }

  function HandshakeEntry(pk: PublicKey): Entry {
    Entry(pk, Some(pk), None)
  }

  function KeypairEntry(pk: PublicKey, k: Keypair): Entry {
    Entry(pk, None, Some(k))
  }

  // ---- Table operations ------------------------------------------------------------------------

  function Delete(t: Table, index: nat): Table {
    t - {index}
  }

  function DeleteKeypair(t: Table, k: Option<Keypair>): Table {
    if k.Some? then Delete(t, k.value.localIndex) else t
  }

  function SwapIndexForKeypair(t: Table, index: nat, k: Keypair): Table {
    if index in t then t[index := KeypairEntry(t[index].peer, k)] else t
  }

  // ---- Steps -----------------------------------------------------------------------------------

  function WithHandshake(s: State, pk: PublicKey, h: Handshake): State
    requires pk in s.peers
  {
    s.(peers := s.peers[pk := s.peers[pk].(handshake := h)])
  }

  function StaticStatic(identity: nat, pk: PublicKey): Term {
    var ss := SharedSecret(identity, pk);
    if ss.Some? then ss.value else Zeros
  }

  function NewPeer(s: State, pk: PublicKey, psk: Term): State {
    if |s.peers| >= MAX_PEERS || pk in s.peers then s
    else
      var h := Handshake(Zeroed, Zeros, Zeros, psk, 0, 0, 0, pk, NO_KEY, StaticStatic(s.identity, pk), NO_TIMESTAMP,
                         None);
      s.(peers := s.peers[pk := Peer(h, Keypairs(None, None, None), false)])
  }

  /** The handshake part of creating an initiation. A failure leaves the fields written so far behind. */
  function Initiate(identity: nat, h: Handshake, ephemeral: nat, stamp: Tai64n.Bytes,
                    index: nat): (Handshake, Option<Initiation>) {
    var e := Pub(ephemeral);
    var hash := MixHash(MixHash(INITIAL_HASH, Key(h.remoteStatic)), Key(e));
    var ck := Kdf1(INITIAL_CHAIN_KEY, Key(e));
    var es := SharedSecret(ephemeral, h.remoteStatic);
    if es.None? then (h.(hash := hash, chainKey := ck, localEphemeral := ephemeral), None) else
    var (ck, key) := Kdf2(ck, es.value);
    var sealedStatic := Sealed(key, ZERO_NONCE, Key(Pub(identity)), hash);
    var hash := MixHash(hash, sealedStatic);
    if h.staticStatic == Zeros then (h.(hash := hash, chainKey := ck, localEphemeral := ephemeral), None) else
    var (ck, key) := Kdf2(ck, h.staticStatic);
    var sealedStamp := Sealed(key, ZERO_NONCE, Octets(stamp), hash);
    (h.(state := InitiationCreated, hash := MixHash(hash, sealedStamp), chainKey := ck, localEphemeral := ephemeral,
     localIndex := index),
     Some(Initiation(INITIATION_TYPE, index, e, sealedStatic, sealedStamp)))
  }

  function CreateInitiation(s: State, pk: PublicKey, ephemeral: nat, stamp: Tai64n.Bytes,
                            index: nat): (State, Option<Initiation>)
    requires pk in s.peers
  {
    var h := s.peers[pk].handshake;
    var (h', msg) := Initiate(s.identity, h, ephemeral, stamp, index);
    var table := if msg.Some? then Delete(s.table, h.localIndex)[index := HandshakeEntry(pk)] else s.table;
    (WithHandshake(s.(table := table), pk, h'), msg)
  }

  /** The initiator's static key that an initiation for this device carries. */
  function InitiatorOf(identity: nat, msg: Initiation): Option<PublicKey> {
    var hash := MixHash(MixHash(INITIAL_HASH, Key(Pub(identity))), Key(msg.ephemeral));
    var es := SharedSecret(identity, msg.ephemeral);
    if es.None? then None else
    var (_, key) := Kdf2(Kdf1(INITIAL_CHAIN_KEY, Key(msg.ephemeral)), es.value);
    var plain := Open(key, ZERO_NONCE, msg.sealedStatic, hash);
    if plain.None? || !plain.value.Key? then None else Some(plain.value.pk)
  }

  /** The handshake part of consuming an initiation; nothing when it is not genuine, a replay or a flood. */
  function Accept(identity: nat, h: Handshake, msg: Initiation, now: nat): Option<Handshake>
    requires InitiatorOf(identity, msg).Some?
  {
    if h.staticStatic == Zeros then None else
    var hash := MixHash(MixHash(MixHash(INITIAL_HASH, Key(Pub(identity))), Key(msg.ephemeral)), msg.sealedStatic);
    var (ck, _) := Kdf2(Kdf1(INITIAL_CHAIN_KEY, Key(msg.ephemeral)), SharedSecret(identity, msg.ephemeral).value);
    var (ck, key) := Kdf2(ck, h.staticStatic);
    var stamp := Open(key, ZERO_NONCE, msg.sealedStamp, hash);
    if stamp.None? || !stamp.value.Octets? || |stamp.value.b| != 12 then None else
    var replay := !Tai64n.After(stamp.value.b, h.lastTimestamp);
    var flood := h.lastConsumption.Some? && now - h.lastConsumption.value <= INITIATION_RATE;
    if replay || flood then None else
    Some(h.(state := InitiationConsumed, hash := MixHash(hash, msg.sealedStamp), chainKey := ck,
         remoteIndex := msg.sender,
         remoteEphemeral := msg.ephemeral, lastTimestamp := stamp.value.b, lastConsumption := Some(now)))
  }

  /** What is on record of the initiations of a peer only ever moves forward. */
  function Newest(stamp: Tai64n.Bytes, last: Tai64n.Bytes): Tai64n.Bytes {
    if Tai64n.After(stamp, last) then stamp else last
  }

  function Latest(now: nat, last: Option<nat>): Option<nat> {
    if last.None? || now > last.value then Some(now) else last
  }

  function ConsumeInitiation(s: State, msg: Initiation, now: nat): (State, Option<PublicKey>) {
    if msg.kind != INITIATION_TYPE then (s, None) else
    var pk := InitiatorOf(s.identity, msg);
    if pk.None? || pk.value !in s.peers || !s.peers[pk.value].running then (s, None) else
    var h' := Accept(s.identity, s.peers[pk.value].handshake, msg, now);
    if h'.None? then (s, None) else (WithHandshake(s, pk.value, h'.value), pk)
  }

  /** The handshake part of creating a response. A failure leaves the fields written so far behind. */
  function Respond(h: Handshake, ephemeral: nat, index: nat): (Handshake, Option<Response>) {
    var e := Pub(ephemeral);
    var h := h.(localIndex := index, localEphemeral := ephemeral,
             hash := MixHash(h.hash, Key(e)), chainKey := Kdf1(h.chainKey, Key(e)));
    var ee := SharedSecret(ephemeral, h.remoteEphemeral);
    if ee.None? then (h, None) else
    var h := h.(chainKey := Kdf1(h.chainKey, ee.value));
    var se := SharedSecret(ephemeral, h.remoteStatic);
    if se.None? then (h, None) else
    var (ck, tau, key) := Kdf3(Kdf1(h.chainKey, se.value), h.presharedKey);
    var hash := MixHash(h.hash, tau);
    var empty := Sealed(key, ZERO_NONCE, Octets([]), hash);
    (h.(state := ResponseCreated, hash := MixHash(hash, empty), chainKey := ck),
     Some(Response(RESPONSE_TYPE, index, h.remoteIndex, e, empty)))
  }

  function CreateResponse(s: State, pk: PublicKey, ephemeral: nat, index: nat): (State, Option<Response>)
    requires pk in s.peers
  {
    var h := s.peers[pk].handshake;
    if h.state != InitiationConsumed then (s, None) else
    var (h', msg) := Respond(h, ephemeral, index);
    (WithHandshake(s.(table := Delete(s.table, h.localIndex)[index := HandshakeEntry(pk)]), pk, h'), msg)
  }

  /** The read-only part of consuming a response: the new hash and chain key, when the tag is right. */
  function CheckResponse(identity: nat, h: Handshake, msg: Response): Option<(Term, Term)> {
    if h.state != InitiationCreated then None else
    var hash := MixHash(h.hash, Key(msg.ephemeral));
    var ck := Kdf1(h.chainKey, Key(msg.ephemeral));
    var ee := SharedSecret(h.localEphemeral, msg.ephemeral);
    if ee.None? then None else
    var ck := Kdf1(ck, ee.value);
    var se := SharedSecret(identity, msg.ephemeral);
    if se.None? then None else
    var (ck, tau, key) := Kdf3(Kdf1(ck, se.value), h.presharedKey);
    var hash := MixHash(hash, tau);
    var plain := Open(key, ZERO_NONCE, msg.empty, hash);
    if plain != Some(Octets([])) then None else
    Some((MixHash(hash, msg.empty), ck))
  }

  /** The writing part of consuming a response. */
  function CommitResponse(s: State, pk: PublicKey, hash: Term, ck: Term, sender: nat): State
    requires pk in s.peers
  {
    WithHandshake(s, pk,
                  s.peers[pk].handshake.(state := ResponseConsumed, hash := hash, chainKey := ck,
                  remoteIndex := sender))
  }

  function ConsumeResponse(s: State, msg: Response): (State, Option<PublicKey>) {
    if msg.kind != RESPONSE_TYPE || msg.receiver !in s.table then (s, None) else
    var lookup := s.table[msg.receiver];
    if lookup.handshake.None? || lookup.handshake.value !in s.peers then (s, None) else
    var pk := lookup.handshake.value;
    var ok := CheckResponse(s.identity, s.peers[pk].handshake, msg);
    if ok.None? then (s, None) else
    (CommitResponse(s, pk, ok.value.0, ok.value.1, msg.sender), Some(lookup.peer))
  }

  /** The keypair a finished handshake yields. */
  function Derive(h: Handshake, id: nat): Keypair {
    var (t0, t1) := Kdf2(h.chainKey, Octets([]));
    if h.state == ResponseConsumed then Keypair(id, t0, t1, true, h.localIndex, h.remoteIndex)
    else Keypair(id, t1, t0, false, h.localIndex, h.remoteIndex)
  }

  /** The keypair slots after rotating a new keypair in, and what becomes of the table. */
  function Rotate(kps: Keypairs, table: Table, k: Keypair): (Keypairs, Table) {
    if k.isInitiator then
      if kps.next.Some? then
        (Keypairs(Some(k), kps.next, None), DeleteKeypair(DeleteKeypair(table, kps.current), kps.previous))
      else
        (Keypairs(Some(k), kps.current, None), DeleteKeypair(table, kps.previous))
    else
      (Keypairs(kps.current, None, Some(k)), DeleteKeypair(DeleteKeypair(table, kps.next), kps.previous))
  }

  function BeginSession(s: State, pk: PublicKey): (State, bool)
    requires pk in s.peers
  {
    var h := s.peers[pk].handshake;
    if h.state != ResponseConsumed && h.state != ResponseCreated then (s, false) else
    var k := Derive(h, s.nextKeypair);
    var h' := h.(state := Zeroed, hash := Zeros, chainKey := Zeros, localEphemeral := 0, localIndex := 0);
    var (kps', table) := Rotate(s.peers[pk].keypairs, SwapIndexForKeypair(s.table, h.localIndex, k), k);
    (s.(table := table, nextKeypair := s.nextKeypair + 1,
     peers := s.peers[pk := s.peers[pk].(handshake := h', keypairs := kps')]), true)
  }

  /** A transport message opens under the keypair: its nonce is its counter, and there is no associated data. */
  predicate OpensUnder(k: Keypair, counter: nat, box: Term) {
    Open(k.recvKey, Octets([counter]), box, Octets([])).Some?
  }

  function ReceivedWithKeypair(s: State, pk: PublicKey, k: Keypair): (State, bool)
    requires pk in s.peers
  {
    var kps := s.peers[pk].keypairs;
    if kps.next != Some(k) then (s, false) else
    (s.(table := DeleteKeypair(s.table, kps.previous),
     peers := s.peers[pk := s.peers[pk].(keypairs := Keypairs(kps.next, kps.current, None))]), true)
  }

  /** What the sequential receiver does with one element, as far as the keypairs go. */
  function Receive(s: State, pk: PublicKey, k: Keypair, counter: nat, box: Term, accepted: bool): State
    requires pk in s.peers
  {
    if OpensUnder(k, counter, box) && accepted then ReceivedWithKeypair(s, pk, k).0 else s
  }

  function ClearHandshake(h: Handshake): Handshake {
    h.(state := Zeroed, hash := Zeros, chainKey := Zeros, localEphemeral := 0, remoteEphemeral := NO_KEY,
    localIndex := 0)
  }

  function ZeroAndFlushAll(s: State, pk: PublicKey): State
    requires pk in s.peers
  {
    var p := s.peers[pk];
    var table := DeleteKeypair(DeleteKeypair(DeleteKeypair(s.table, p.keypairs.previous), p.keypairs.current),
                               p.keypairs.next);
    s.(table := Delete(table, p.handshake.localIndex),
    peers := s.peers[pk := p.(handshake := ClearHandshake(p.handshake), keypairs := Keypairs(None, None, None))])
  }

  function ExpireCurrentKeypairs(s: State, pk: PublicKey): State
    requires pk in s.peers
  {
    var h := s.peers[pk].handshake;
    WithHandshake(s.(table := Delete(s.table, h.localIndex)), pk, ClearHandshake(h))
  }

  function Start(s: State, pk: PublicKey): State
    requires pk in s.peers
  {
    s.(peers := s.peers[pk := s.peers[pk].(running := true)])
  }

  function Stop(s: State, pk: PublicKey): State
    requires pk in s.peers
  {
    if !s.peers[pk].running then s
    else ZeroAndFlushAll(s.(peers := s.peers[pk := s.peers[pk].(running := false)]), pk)
  }

  // ---- Runs ------------------------------------------------------------------------------------

  datatype Action =
    | ANewPeer(newPk: PublicKey, psk: Term)
    | ACreateInitiation(pk: PublicKey, ephemeral: nat, stamp: Tai64n.Bytes, index: nat)
    | AConsumeInitiation(initiation: Initiation, now: nat)
    | ACreateResponse(pk: PublicKey, ephemeral: nat, index: nat)
    | AConsumeResponse(response: Response)
    | ABeginSession(pk: PublicKey)
    | AReceive(pk: PublicKey, keypair: Keypair, counter: nat, box: Term, accepted: bool)
    | AZeroAndFlushAll(pk: PublicKey)
    | AExpire(pk: PublicKey)
    | AStart(pk: PublicKey)
    | AStop(pk: PublicKey)

  /** An index drawn for a handshake is not 0 and not in use (once the handshake's old index is gone). */
  predicate FreshIndex(s: State, pk: PublicKey, index: nat)
    requires pk in s.peers
  {
    index != 0 && index !in Delete(s.table, s.peers[pk].handshake.localIndex)
  }

  predicate Enabled(s: State, a: Action) {
    match a
    case ANewPeer(_, _) => true
    case AConsumeInitiation(_, _) => true
    case AConsumeResponse(_) => true
    case ACreateInitiation(pk, _, stamp, index) => pk in s.peers && |stamp| == 12 && FreshIndex(s, pk, index)
    case ACreateResponse(pk, _, index) => pk in s.peers && FreshIndex(s, pk, index)
    case _ => a.pk in s.peers
  }

  function Apply(s: State, a: Action): State
    requires Enabled(s, a)
  {
    match a
    case ANewPeer(pk, psk) => NewPeer(s, pk, psk)
    case ACreateInitiation(pk, ephemeral, stamp, index) => CreateInitiation(s, pk, ephemeral, stamp, index).0
    case AConsumeInitiation(msg, now) => ConsumeInitiation(s, msg, now).0
    case ACreateResponse(pk, ephemeral, index) => CreateResponse(s, pk, ephemeral, index).0
    case AConsumeResponse(msg) => ConsumeResponse(s, msg).0
    case ABeginSession(pk) => BeginSession(s, pk).0
    case AReceive(pk, k, counter, box, accepted) => Receive(s, pk, k, counter, box, accepted)
    case AZeroAndFlushAll(pk) => ZeroAndFlushAll(s, pk)
    case AExpire(pk) => ExpireCurrentKeypairs(s, pk)
    case AStart(pk) => Start(s, pk)
    case AStop(pk) => Stop(s, pk)
  }

  function Initial(identity: nat): State {
    State(identity, map[], map[], 0)
  }

  /** The state after a run, or nothing when some step of it was not possible. */
  function Run(identity: nat, trace: seq<Action>): Option<State> {
    if trace == [] then Some(Initial(identity))
    else
      var before := Run(identity, trace[..|trace| - 1]);
      var a := trace[|trace| - 1];
      if before.None? || !Enabled(before.value, a) then None else Some(Apply(before.value, a))
  }
}
