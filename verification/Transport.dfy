/**
 The mutable objects behind `Device`: peers whose fields are overwritten one by one, with hash and chain key passed by
 pointer to functions that write the result over what they read, and the transport with its shared index table. Every
 method is proved to take exactly the step of the same name.
 */
module Transport {
  import opened Common
  import opened Noise
  import opened Device
  import Tai64n

  /** The first drawn index that is not in use. */
  function FirstFree(t: Table, draws: seq<nat>): (r: nat)
    requires exists i :: 0 <= i < |draws| && draws[i] !in t
    ensures r in draws && r !in t
  {
    if draws[0] !in t then draws[0] else FirstFree(t, draws[1..])
  }

  /** `dst` may be the cell that is hashed. */
  method RunMixHash(dst: Cell, h: Cell, data: Term)
    modifies dst
    ensures dst.t == MixHash(old(h.t), data)
  {
    dst.t := Hash(Cat(h.t, data));
  }

  /** A sealed initiation once its index is known. */
  function Initiated(h: Handshake, index: nat, ephemeral: nat, boxes: (Term, Term)): (Handshake, Option<Initiation>) {
    (h.(hash := MixHash(h.hash, boxes.1), localIndex := index, state := InitiationCreated),
     Some(Initiation(INITIATION_TYPE, index, Pub(ephemeral), boxes.0, boxes.1)))
  }

  /** Hash and chain key once the static key of an initiation is opened. */
  function Opened(identity: nat, msg: Initiation): (Term, Term)
    requires InitiatorOf(identity, msg).Some?
  {
    (MixHash(MixHash(MixHash(INITIAL_HASH, Key(Pub(identity))), Key(msg.ephemeral)), msg.sealedStatic),
     Kdf2(Kdf1(INITIAL_CHAIN_KEY, Key(msg.ephemeral)), SharedSecret(identity, msg.ephemeral).value).0)
  }

  /** Accepting an initiation from there on. */
  function AcceptFrom(h: Handshake, msg: Initiation, now: nat, transcript: Term, ck: Term): Option<Handshake> {
    if h.staticStatic == Zeros then None else
    var (ck', key) := Kdf2(ck, h.staticStatic);
    var stamp := Open(key, ZERO_NONCE, msg.sealedStamp, transcript);
    if stamp.None? || !stamp.value.Octets? || |stamp.value.b| != 12 then None else
    if !Tai64n.After(stamp.value.b, h.lastTimestamp)
       || (h.lastConsumption.Some? && now - h.lastConsumption.value <= INITIATION_RATE) then None else
    Some(h.(state := InitiationConsumed, hash := MixHash(transcript, msg.sealedStamp), chainKey := ck',
         remoteIndex := msg.sender,
         remoteEphemeral := msg.ephemeral, lastTimestamp := stamp.value.b, lastConsumption := Some(now)))
  }

  lemma AcceptAfterOpening(identity: nat, h: Handshake, msg: Initiation, now: nat)
    requires InitiatorOf(identity, msg).Some?
    ensures Accept(identity, h, msg, now) == AcceptFrom(h, msg, now, Opened(identity, msg).0, Opened(identity, msg).1)
  {}

  class PeerObject {
    const pk: PublicKey
    const presharedKey: Term
    const staticStatic: Term
    const hash: Cell
    const chainKey: Cell
    var running: bool
    var state: HandshakeState
    var localEphemeral: nat
    var localIndex: nat
    var remoteIndex: nat
    var remoteEphemeral: PublicKey
    var lastTimestamp: Tai64n.Bytes
    var lastConsumption: Option<nat>
    var current: Option<Keypair>
    var previous: Option<Keypair>
    var next: Option<Keypair>

    constructor (pk: PublicKey, psk: Term, staticStatic: Term)
      ensures this.pk == pk && hash != chainKey && fresh(hash) && fresh(chainKey)
      ensures Value() ==
              Peer(Handshake(Zeroed, Zeros, Zeros, psk, 0, 0, 0, pk, NO_KEY, staticStatic, NO_TIMESTAMP, None),
                   Keypairs(None, None, None), false)
    {
      this.pk, presharedKey, this.staticStatic := pk, psk, staticStatic;
      hash := new Cell(Zeros);
      chainKey := new Cell(Zeros);
      running, state, localEphemeral, localIndex, remoteIndex := false, Zeroed, 0, 0, 0;
      remoteEphemeral, lastTimestamp, lastConsumption := NO_KEY, NO_TIMESTAMP, None;
      current, previous, next := None, None, None;
    }

    function HandshakeValue(): Handshake
      reads this, hash, chainKey
    {
      Handshake(state, hash.t, chainKey.t, presharedKey, localEphemeral, localIndex, remoteIndex, pk, remoteEphemeral,
                staticStatic,
                lastTimestamp, lastConsumption)
    }

    function KeypairsValue(): Keypairs
      reads this
    {
      Keypairs(current, previous, next)
    }

    function Value(): Peer
      reads this, hash, chainKey
    {
      Peer(HandshakeValue(), KeypairsValue(), running)
    }

    /** Starts the transcript anew, and seals the static key under the new ephemeral. */
    method SealStatic(identity: nat, ephemeral: nat) returns (r: Option<Term>)
      requires hash != chainKey
      modifies this`localEphemeral, hash, chainKey
      ensures var e := Key(Pub(ephemeral));
              var (h, ck, es) :=
                (MixHash(MixHash(INITIAL_HASH, Key(pk)), e), Kdf1(INITIAL_CHAIN_KEY, e), SharedSecret(ephemeral, pk));
              && localEphemeral == ephemeral
              && if es.None? then r == None && hash.t == h && chainKey.t == ck
                 else
                   var (ck', key) := Kdf2(ck, es.value);
                   r == Some(Sealed(key, ZERO_NONCE, Key(Pub(identity)), h)) && hash.t == MixHash(h, r.value)
                   && chainKey.t == ck'
    {
      hash.t := INITIAL_HASH;
      chainKey.t := INITIAL_CHAIN_KEY;
      localEphemeral := ephemeral;
      RunMixHash(hash, hash, Key(pk));
      var e := Pub(localEphemeral);
      RunKdf1(chainKey, chainKey, Key(e));
      RunMixHash(hash, hash, Key(e));
      var ss := SharedSecret(localEphemeral, pk);
      if ss.None? {
        return None;
      }
      var key := new Cell(Zeros);
      RunKdf2(chainKey, key, chainKey, ss.value);
      r := Some(Sealed(key.t, ZERO_NONCE, Key(Pub(identity)), hash.t));
      RunMixHash(hash, hash, r.value);
    }

    /** The part of creating an initiation before the index: mixing, sealing the static key and the stamp. */
    method SealInitiation(identity: nat, ephemeral: nat, stamp: Tai64n.Bytes) returns (r: Option<(Term, Term)>)
      requires hash != chainKey
      modifies this`localEphemeral, hash, chainKey
      ensures forall index :: Initiate(identity, old(HandshakeValue()), ephemeral, stamp, index) ==
                              if r.None? then (HandshakeValue(), None)
                              else Initiated(HandshakeValue(), index, ephemeral, r.value)
    {
      var sealedStatic := SealStatic(identity, ephemeral);
      if sealedStatic.None? || staticStatic == Zeros {
        return None;
      }
      var key := new Cell(Zeros);
      RunKdf2(chainKey, key, chainKey, staticStatic);
      r := Some((sealedStatic.value, Sealed(key.t, ZERO_NONCE, Octets(stamp), hash.t)));
    }

    /** Opens the stamp under the two static keys, and mixes it into the transcript. */
    method OpenStamp(box: Term, transcript: Cell, ck: Cell) returns (stamp: Option<Tai64n.Bytes>)
      requires transcript != ck
      modifies transcript, ck
      ensures var (c, key) := Kdf2(old(ck.t), staticStatic);
              var plain := Open(key, ZERO_NONCE, box, old(transcript.t));
              if staticStatic == Zeros || plain.None? || !plain.value.Octets?
                 || |plain.value.b| != 12 then stamp == None
              else stamp == Some(plain.value.b) && ck.t == c && transcript.t == MixHash(old(transcript.t), box)
    {
      if staticStatic == Zeros {
        return None;
      }
      var key := new Cell(Zeros);
      RunKdf2(ck, key, ck, staticStatic);
      var plain := Open(key.t, ZERO_NONCE, box, transcript.t);
      if plain.None? || !plain.value.Octets? || |plain.value.b| != 12 {
        return None;
      }
      RunMixHash(transcript, transcript, box);
      stamp := Some(plain.value.b);
    }

    /** The part of consuming an initiation after the peer is known: verify the stamp, take over the transcript. */
    method AcceptInitiation(msg: Initiation, now: nat, transcript: Cell, ck: Cell) returns (ok: bool)
      requires hash != chainKey && transcript != ck && {transcript, ck} !! {hash, chainKey}
      modifies this`state, this`remoteIndex, this`remoteEphemeral, this`lastTimestamp, this`lastConsumption, hash,
               chainKey, transcript, ck
      ensures var h := AcceptFrom(old(HandshakeValue()), msg, now, old(transcript.t), old(ck.t));
              (ok <==> h.Some?) && HandshakeValue() == if ok then h.value else old(HandshakeValue())
    {
      var stamp := OpenStamp(msg.sealedStamp, transcript, ck);
      if stamp.None? {
        return false;
      }
      var replay := !Tai64n.After(stamp.value, lastTimestamp);
      var flood := lastConsumption.Some? && now - lastConsumption.value <= INITIATION_RATE;
      if replay || flood {
        return false;
      }
      TakeOver(msg, stamp.value, now, transcript.t, ck.t);
      ok := true;
    }

    /** The writing part of accepting an initiation; the time and the stamp only ever move forward. */
    method TakeOver(msg: Initiation, stamp: Tai64n.Bytes, now: nat, transcript: Term, ck: Term)
      requires hash != chainKey
      modifies this`state, this`remoteIndex, this`remoteEphemeral, this`lastTimestamp, this`lastConsumption, hash,
               chainKey
      ensures HandshakeValue() == old(HandshakeValue()).(
                                  state := InitiationConsumed, hash := transcript, chainKey := ck,
                                  remoteIndex := msg.sender, remoteEphemeral := msg.ephemeral,
                                  lastTimestamp := Newest(stamp, old(lastTimestamp)),
                                  lastConsumption := Latest(now, old(lastConsumption)))
    {
      hash.t := transcript;
      chainKey.t := ck;
      remoteIndex := msg.sender;
      remoteEphemeral := msg.ephemeral;
      if Tai64n.After(stamp, lastTimestamp) {
        lastTimestamp := stamp;
      }
      if lastConsumption.None? || now > lastConsumption.value {
        lastConsumption := Some(now);
      }
      state := InitiationConsumed;
    }

    /** Mixes in the new ephemeral and its secrets with both keys of the initiator. */
    method MixResponse() returns (ok: bool)
      requires hash != chainKey
      modifies hash, chainKey
      ensures var e := Pub(localEphemeral);
              var ck := Kdf1(old(chainKey.t), Key(e));
              var (ee, se) := (SharedSecret(localEphemeral, remoteEphemeral), SharedSecret(localEphemeral, pk));
              && hash.t == MixHash(old(hash.t), Key(e)) && (ok <==> ee.Some? && se.Some?)
              && chainKey.t == if ee.None? then ck else if se.None? then Kdf1(ck, ee.value)
                               else Kdf1(Kdf1(ck, ee.value), se.value)
    {
      var e := Pub(localEphemeral);
      RunMixHash(hash, hash, Key(e));
      RunKdf1(chainKey, chainKey, Key(e));
      var ss := SharedSecret(localEphemeral, remoteEphemeral);
      if ss.None? {
        return false;
      }
      RunKdf1(chainKey, chainKey, ss.value);
      ss := SharedSecret(localEphemeral, pk);
      if ss.None? {
        return false;
      }
      RunKdf1(chainKey, chainKey, ss.value);
      ok := true;
    }

    /** Adds the preshared key, and seals nothing: the tag vouches for the transcript. */
    method SealTag() returns (empty: Term)
      requires hash != chainKey
      modifies hash, chainKey
      ensures var (ck, tau, key) := Kdf3(old(chainKey.t), presharedKey);
              var h := MixHash(old(hash.t), tau);
              empty == Sealed(key, ZERO_NONCE, Octets([]), h) && hash.t == MixHash(h, empty) && chainKey.t == ck
    {
      var tau := new Cell(Zeros);
      var key := new Cell(Zeros);
      RunKdf3(chainKey, tau, key, chainKey, presharedKey);
      RunMixHash(hash, hash, tau.t);
      empty := Sealed(key.t, ZERO_NONCE, Octets([]), hash.t);
      RunMixHash(hash, hash, empty);
    }

    /** The part of creating a response after the index. */
    method SealResponse(ephemeral: nat) returns (msg: Option<Response>)
      requires hash != chainKey
      modifies this`localEphemeral, this`state, hash, chainKey
      ensures (HandshakeValue(), msg) == Respond(old(HandshakeValue()), ephemeral, localIndex)
    {
      localEphemeral := ephemeral;
      var ok := MixResponse();
      if !ok {
        return None;
      }
      var empty := SealTag();
      state := ResponseCreated;
      msg := Some(Response(RESPONSE_TYPE, localIndex, remoteIndex, Pub(localEphemeral), empty));
    }

    /** The read-only part of consuming a response, on copies of hash and chain key. */
    method OpenResponse(identity: nat, msg: Response) returns (r: Option<(Term, Term)>)
      ensures r == CheckResponse(identity, HandshakeValue(), msg)
    {
      if state != InitiationCreated {
        return None;
      }
      var transcript := new Cell(Zeros);
      var ck := new Cell(Zeros);
      RunMixHash(transcript, hash, Key(msg.ephemeral));
      RunKdf1(ck, chainKey, Key(msg.ephemeral));
      var ss := SharedSecret(localEphemeral, msg.ephemeral);
      if ss.None? {
        return None;
      }
      RunKdf1(ck, ck, ss.value);
      ss := SharedSecret(identity, msg.ephemeral);
      if ss.None? {
        return None;
      }
      RunKdf1(ck, ck, ss.value);
      var ok := OpenTag(msg.empty, transcript, ck);
      r := if ok then Some((transcript.t, ck.t)) else None;
    }

    /** Adds the preshared key, and checks that the tag was sealed over this transcript. */
    method OpenTag(empty: Term, transcript: Cell, ck: Cell) returns (ok: bool)
      requires transcript != ck
      modifies transcript, ck
      ensures var (c, tau, key) := Kdf3(old(ck.t), presharedKey);
              var h := MixHash(old(transcript.t), tau);
              && (ok <==> Open(key, ZERO_NONCE, empty, h) == Some(Octets([])))
              && (ok ==> ck.t == c && transcript.t == MixHash(h, empty))
    {
      var tau := new Cell(Zeros);
      var key := new Cell(Zeros);
      RunKdf3(ck, tau, key, ck, presharedKey);
      RunMixHash(transcript, transcript, tau.t);
      var plain := Open(key.t, ZERO_NONCE, empty, transcript.t);
      ok := plain == Some(Octets([]));
      if ok {
        RunMixHash(transcript, transcript, empty);
      }
    }

    /** Derives the keypair of a finished handshake and zeroes the handshake's secrets. */
    method DeriveKeypair(id: nat) returns (k: Keypair)
      requires hash != chainKey && (state == ResponseConsumed || state == ResponseCreated)
      modifies this`state, this`localEphemeral, hash, chainKey
      ensures k == Derive(old(HandshakeValue()), id)
      ensures HandshakeValue() ==
              old(HandshakeValue()).(state := Zeroed, hash := Zeros, chainKey := Zeros, localEphemeral := 0)
    {
      var isInitiator := state == ResponseConsumed;
      var sendKey := new Cell(Zeros);
      var recvKey := new Cell(Zeros);
      if isInitiator {
        RunKdf2(sendKey, recvKey, chainKey, Octets([]));
      } else {
        RunKdf2(recvKey, sendKey, chainKey, Octets([]));
      }
      chainKey.t := Zeros;
      hash.t := Zeros;
      localEphemeral := 0;
      state := Zeroed;
      k := Keypair(id, sendKey.t, recvKey.t, isInitiator, localIndex, remoteIndex);
    }

    method Clear()
      requires hash != chainKey
      modifies this`state, this`localEphemeral, this`remoteEphemeral, this`localIndex, hash, chainKey
      ensures HandshakeValue() == ClearHandshake(old(HandshakeValue()))
    {
      localEphemeral := 0;
      remoteEphemeral := NO_KEY;
      chainKey.t := Zeros;
      hash.t := Zeros;
      localIndex := 0;
      state := Zeroed;
    }
  }

  class TransportObject {
    const identity: nat
    var table: Table
    var keyMap: map<PublicKey, PeerObject>
    var nextKeypair: nat

    /** Peers are found under their own key, and no two of them share a cell. */
    ghost predicate Valid()
      reads this
    {
      && (forall pk | pk in keyMap :: keyMap[pk].pk == pk && keyMap[pk].hash != keyMap[pk].chainKey)
      && (forall pk, q | pk in keyMap && q in keyMap && pk != q :: Separate(keyMap[pk], keyMap[q]))
    }

    static predicate Separate(p: PeerObject, q: PeerObject) {
      p.hash != q.hash && p.hash != q.chainKey && p.chainKey != q.hash && p.chainKey != q.chainKey
    }

    ghost function Cells(): set<Cell>
      reads this
    {
      (set pk | pk in keyMap :: keyMap[pk].hash) + (set pk | pk in keyMap :: keyMap[pk].chainKey)
    }

    predicate Has(peer: PeerObject)
      reads this
    {
      peer.pk in keyMap && keyMap[peer.pk] == peer
    }

    ghost function Value(): State
      reads this, keyMap.Values, Cells()
    {
      State(identity, table, map pk | pk in keyMap :: keyMap[pk].Value(), nextKeypair)
    }

    constructor (identity: nat)
      ensures Valid() && Value() == Initial(identity)
    {
      this.identity := identity;
      table, keyMap, nextKeypair := map[], map[], 0;
    }

    /** Nothing but this peer and the table changed. */
    twostate lemma OnlyPeer(peer: PeerObject)
      requires Valid() && Has(peer) && unchanged(this`keyMap)
      requires forall pk | pk in keyMap && pk != peer.pk ::
                 unchanged(keyMap[pk]) && unchanged(keyMap[pk].hash) && unchanged(keyMap[pk].chainKey)
      ensures Value().peers == old(Value()).peers[peer.pk := peer.Value()]
    {
      forall pk | pk in keyMap && pk != peer.pk ensures keyMap[pk].Value() == old(keyMap[pk].Value()) {}
    }

    /** Every other peer, its fields and its cells, is another object. */
    lemma OthersApart(peer: PeerObject)
      requires Valid() && Has(peer)
      ensures forall pk | pk in keyMap && pk != peer.pk ::
                keyMap[pk] != peer && keyMap[pk].hash !in {peer.hash, peer.chainKey}
                && keyMap[pk].chainKey !in {peer.hash, peer.chainKey}
      ensures peer in keyMap.Values && peer.hash in Cells() && peer.chainKey in Cells() && peer.hash != peer.chainKey
    {
      forall pk | pk in keyMap && pk != peer.pk
        ensures keyMap[pk] != peer && keyMap[pk].hash !in {peer.hash, peer.chainKey}
                && keyMap[pk].chainKey !in {peer.hash, peer.chainKey}
      {
        assert Separate(keyMap[pk], keyMap[peer.pk]);
      }
    }

    lemma SamePeers()
      ensures |Value().peers| == |keyMap| && Value().peers.Keys == keyMap.Keys
    {
      assert Value().peers.Keys == keyMap.Keys;
    }

    twostate lemma AddedPeer(new peer: PeerObject)
      requires old(Valid()) && peer.pk !in old(keyMap) && keyMap == old(keyMap)[peer.pk := peer]
      requires fresh(peer) && fresh(peer.hash) && fresh(peer.chainKey) && peer.hash != peer.chainKey
      requires forall pk | pk in old(keyMap) ::
                 unchanged(old(keyMap)[pk]) && unchanged(old(keyMap)[pk].hash) && unchanged(old(keyMap)[pk].chainKey)
      ensures Valid() && Value().peers == old(Value()).peers[peer.pk := peer.Value()]
    {
      forall pk | pk in old(keyMap) ensures keyMap[pk].Value() == old(keyMap[pk].Value()) {}
    }

    method NewPeer(pk: PublicKey, psk: Term)
      requires Valid()
      modifies this
      ensures Valid()
      ensures Value() == Device.NewPeer(old(Value()), pk, psk)
    {
      SamePeers();
      if |keyMap| >= MAX_PEERS || pk in keyMap {
        return;
      }
      var peer := new PeerObject(pk, psk, StaticStatic(identity, pk));
      keyMap := keyMap[pk := peer];
      AddedPeer(peer);
    }

    method NewIndexForHandshake(pk: PublicKey, draws: seq<nat>) returns (index: nat)
      requires exists i :: 0 <= i < |draws| && draws[i] !in table
      modifies this`table
      ensures index == FirstFree(old(table), draws)
      ensures table == old(table)[index := HandshakeEntry(pk)]
    {
      var i := 0;
      while draws[i] in table
        invariant 0 <= i < |draws| && table == old(table)
        invariant exists j :: i <= j < |draws| && draws[j] !in table
        invariant FirstFree(table, draws) == FirstFree(table, draws[i..])
        decreases |draws| - i
      {
        assert draws[i..][1..] == draws[i + 1..];
        i := i + 1;
      }
      index := draws[i];
      table := table[index := HandshakeEntry(pk)];
    }

    /** What creating an initiation does to the handshake and the table. */
    method Initiate(peer: PeerObject, ephemeral: nat, stamp: Tai64n.Bytes, draws: seq<nat>)
      returns (msg: Option<Initiation>)
      requires peer.hash != peer.chainKey && exists i :: 0 <= i < |draws| && draws[i] !in Delete(table, peer.localIndex)
      modifies this`table, peer`localEphemeral, peer`localIndex, peer`state, peer.hash, peer.chainKey
      ensures var index := FirstFree(Delete(old(table), old(peer.localIndex)), draws);
              && (peer.HandshakeValue(), msg) ==
                 Device.Initiate(identity, old(peer.HandshakeValue()), ephemeral, stamp, index)
              && table == if msg.Some? then Delete(old(table), old(peer.localIndex))[index := HandshakeEntry(peer.pk)]
                          else old(table)
    {
      var boxes := peer.SealInitiation(identity, ephemeral, stamp);
      if boxes.None? {
        return None;
      }
      table := Delete(table, peer.localIndex);
      var sender := NewIndexForHandshake(peer.pk, draws);
      peer.localIndex := sender;
      RunMixHash(peer.hash, peer.hash, boxes.value.1);
      peer.state := InitiationCreated;
      msg := Some(Initiation(INITIATION_TYPE, sender, Pub(ephemeral), boxes.value.0, boxes.value.1));
    }

    method CreateMessageInitiation(peer: PeerObject, ephemeral: nat, stamp: Tai64n.Bytes, draws: seq<nat>)
      returns (msg: Option<Initiation>)
      requires Valid() && Has(peer)
      requires exists i :: 0 <= i < |draws| && draws[i] !in Delete(table, peer.localIndex)
      modifies this`table, peer, peer.hash, peer.chainKey
      ensures Valid() && Has(peer)
      ensures (Value(), msg) ==
              CreateInitiation(old(Value()), peer.pk, ephemeral, stamp,
                               FirstFree(Delete(old(table), old(peer.localIndex)), draws))
    {
      OthersApart(peer);
      msg := Initiate(peer, ephemeral, stamp, draws);
      OnlyPeer(peer);
    }

    /** Opens the initiator's static key; hash and chain key go on from there. */
    method OpenStatic(msg: Initiation) returns (from: Option<PublicKey>, transcript: Cell, ck: Cell)
      ensures from == InitiatorOf(identity, msg) && fresh(transcript) && fresh(ck) && transcript != ck
      ensures from.Some? ==> (transcript.t, ck.t) == Opened(identity, msg)
    {
      transcript := new Cell(INITIAL_HASH);
      ck := new Cell(INITIAL_CHAIN_KEY);
      RunMixHash(transcript, transcript, Key(Pub(identity)));
      RunMixHash(transcript, transcript, Key(msg.ephemeral));
      RunKdf1(ck, ck, Key(msg.ephemeral));
      var ss := SharedSecret(identity, msg.ephemeral);
      if ss.None? {
        return None, transcript, ck;
      }
      var key := new Cell(Zeros);
      RunKdf2(ck, key, ck, ss.value);
      var plain := Open(key.t, ZERO_NONCE, msg.sealedStatic, transcript.t);
      if plain.None? || !plain.value.Key? {
        return None, transcript, ck;
      }
      RunMixHash(transcript, transcript, msg.sealedStatic);
      from := Some(plain.value.pk);
    }

    method ConsumeMessageInitiation(msg: Initiation, now: nat) returns (from: Option<PublicKey>)
      requires Valid()
      modifies keyMap.Values, Cells()
      ensures Valid()
      ensures (Value(), from) == ConsumeInitiation(old(Value()), msg, now)
    {
      if msg.kind != INITIATION_TYPE {
        return None;
      }
      var transcript, ck;
      from, transcript, ck := OpenStatic(msg);
      assert Value() == old(Value());
      if from.None? || from.value !in keyMap || !keyMap[from.value].running {
        return None;
      }
      var peer := keyMap[from.value];
      AcceptAfterOpening(identity, peer.HandshakeValue(), msg, now);
      var ok := AcceptAt(peer, msg, now, transcript, ck);
      from := if ok then from else None;
    }

    /** The peer an initiation names takes it over, or nothing changes. */
    method AcceptAt(peer: PeerObject, msg: Initiation, now: nat, transcript: Cell, ck: Cell) returns (ok: bool)
      requires Valid() && Has(peer) && transcript != ck && transcript !in Cells() && ck !in Cells()
      modifies peer, peer.hash, peer.chainKey, transcript, ck
      ensures Valid()
      ensures var h := AcceptFrom(old(Value()).peers[peer.pk].handshake, msg, now, old(transcript.t), old(ck.t));
              && (ok <==> h.Some?)
              && Value() == if ok then WithHandshake(old(Value()), peer.pk, h.value) else old(Value())
    {
      OthersApart(peer);
      ghost var p, s, h := peer.Value(), Value(), AcceptFrom(peer.HandshakeValue(), msg, now, transcript.t, ck.t);
      ok := peer.AcceptInitiation(msg, now, transcript, ck);
      OnlyPeer(peer);
      assert peer.Value() == p.(handshake := peer.HandshakeValue());
      AcceptedValue(s, Value(), peer.pk, peer.Value(), h);
    }

    static lemma AcceptedValue(s: State, s': State, pk: PublicKey, p: Peer, accepted: Option<Handshake>)
      requires pk in s.peers && s'.peers == s.peers[pk := p]
      requires s'.identity == s.identity && s'.table == s.table && s'.nextKeypair == s.nextKeypair
      requires p == s.peers[pk].(handshake := if accepted.Some? then accepted.value else s.peers[pk].handshake)
      ensures s' == if accepted.Some? then WithHandshake(s, pk, accepted.value) else s
    {
      assert s.peers[pk := s.peers[pk]] == s.peers;
    }

    method CreateMessageResponse(peer: PeerObject, ephemeral: nat, draws: seq<nat>) returns (msg: Option<Response>)
      requires Valid() && Has(peer)
      requires exists i :: 0 <= i < |draws| && draws[i] !in Delete(table, peer.localIndex)
      modifies this`table, peer, peer.hash, peer.chainKey
      ensures Valid() && Has(peer)
      ensures (Value(), msg) ==
              CreateResponse(old(Value()), peer.pk, ephemeral,
                             FirstFree(Delete(old(table), old(peer.localIndex)), draws))
    {
      if peer.state != InitiationConsumed {
        return None;
      }
      OthersApart(peer);
      msg := Respond(peer, ephemeral, draws);
      OnlyPeer(peer);
    }

    /** What creating a response does to the handshake and the table. */
    method Respond(peer: PeerObject, ephemeral: nat, draws: seq<nat>) returns (msg: Option<Response>)
      requires peer.hash != peer.chainKey && exists i :: 0 <= i < |draws| && draws[i] !in Delete(table, peer.localIndex)
      modifies this`table, peer`localEphemeral, peer`localIndex, peer`state, peer.hash, peer.chainKey
      ensures var index := FirstFree(Delete(old(table), old(peer.localIndex)), draws);
              && (peer.HandshakeValue(), msg) == Device.Respond(old(peer.HandshakeValue()), ephemeral, index)
              && table == Delete(old(table), old(peer.localIndex))[index := HandshakeEntry(peer.pk)]
    {
      table := Delete(table, peer.localIndex);
      peer.localIndex := NewIndexForHandshake(peer.pk, draws);
      msg := peer.SealResponse(ephemeral);
    }

    method ConsumeMessageResponse(msg: Response) returns (from: Option<PublicKey>)
      requires Valid()
      modifies keyMap.Values, Cells()
      ensures Valid()
      ensures (Value(), from) == ConsumeResponse(old(Value()), msg)
    {
      if msg.kind != RESPONSE_TYPE || msg.receiver !in table {
        return None;
      }
      var lookup := table[msg.receiver];
      if lookup.handshake.None? || lookup.handshake.value !in keyMap {
        return None;
      }
      var peer := keyMap[lookup.handshake.value];
      var ok := peer.OpenResponse(identity, msg);
      if ok.None? {
        return None;
      }
      Commit(peer, ok.value.0, ok.value.1, msg.sender);
      from := Some(lookup.peer);
    }

    method Commit(peer: PeerObject, hash: Term, ck: Term, sender: nat)
      requires Valid() && Has(peer)
      modifies peer`remoteIndex, peer`state, peer.hash, peer.chainKey
      ensures Valid() && Value() == CommitResponse(old(Value()), peer.pk, hash, ck, sender)
    {
      OthersApart(peer);
      peer.hash.t := hash;
      peer.chainKey.t := ck;
      peer.remoteIndex := sender;
      peer.state := ResponseConsumed;
      OnlyPeer(peer);
    }

    method DeleteKeypair(k: Option<Keypair>)
      modifies this`table
      ensures table == Device.DeleteKeypair(old(table), k)
    {
      if k.Some? {
        table := Delete(table, k.value.localIndex);
      }
    }

    method BeginSymmetricSession(peer: PeerObject) returns (ok: bool)
      requires Valid() && Has(peer)
      modifies this`table, this`nextKeypair, peer, peer.hash, peer.chainKey
      ensures Valid() && Has(peer)
      ensures (Value(), ok) == BeginSession(old(Value()), peer.pk)
    {
      if peer.state != ResponseConsumed && peer.state != ResponseCreated {
        return false;
      }
      OthersApart(peer);
      ghost var p, s := peer.Value(), Value();
      Begin(peer);
      ok := true;
      OnlyPeer(peer);
      assert s.peers[peer.pk] == p;
      SessionValue(s, Value(), peer.pk, peer.Value());
    }

    static lemma SessionValue(s: State, s': State, pk: PublicKey, p: Peer)
      requires pk in s.peers && s'.peers == s.peers[pk := p] && p.running == s.peers[pk].running
      requires s'.identity == s.identity && s'.nextKeypair == s.nextKeypair + 1
      requires var h, k := s.peers[pk].handshake, Derive(s.peers[pk].handshake, s.nextKeypair);
               && (h.state == ResponseConsumed || h.state == ResponseCreated)
               && p.handshake ==
                  h.(state := Zeroed, hash := Zeros, chainKey := Zeros, localEphemeral := 0, localIndex := 0)
               && (p.keypairs, s'.table) ==
                  Rotate(s.peers[pk].keypairs, SwapIndexForKeypair(s.table, h.localIndex, k), k)
      ensures (s', true) == BeginSession(s, pk)
    {}

    /** What beginning a session does to the peer and the table. */
    method Begin(peer: PeerObject)
      requires peer.hash != peer.chainKey && (peer.state == ResponseConsumed || peer.state == ResponseCreated)
      modifies this`table, this`nextKeypair, peer, peer.hash, peer.chainKey
      ensures var k := Derive(old(peer.HandshakeValue()), old(nextKeypair));
              && peer.HandshakeValue() ==
                 old(peer.HandshakeValue()).(state := Zeroed, hash := Zeros, chainKey := Zeros, localEphemeral := 0,
                 localIndex := 0)
              && (peer.KeypairsValue(), table) ==
                 Rotate(old(peer.KeypairsValue()), SwapIndexForKeypair(old(table), old(peer.localIndex), k), k)
              && peer.running == old(peer.running) && nextKeypair == old(nextKeypair) + 1
    {
      var keypair := peer.DeriveKeypair(nextKeypair);
      nextKeypair := nextKeypair + 1;
      table := SwapIndexForKeypair(table, peer.localIndex, keypair);
      peer.localIndex := 0;
      RotateKeypairs(peer, keypair);
    }

    method RotateKeypairs(peer: PeerObject, keypair: Keypair)
      modifies this`table, peer`current, peer`previous, peer`next
      ensures (peer.KeypairsValue(), table) == Rotate(old(peer.KeypairsValue()), old(table), keypair)
    {
      var previous, next, current := peer.previous, peer.next, peer.current;
      if keypair.isInitiator {
        if next.Some? {
          peer.next := None;
          peer.previous := next;
          DeleteKeypair(current);
        } else {
          peer.previous := current;
        }
        DeleteKeypair(previous);
        peer.current := Some(keypair);
      } else {
        peer.next := Some(keypair);
        DeleteKeypair(next);
        peer.previous := None;
        DeleteKeypair(previous);
      }
    }

    method ReceivedWithKeypair(peer: PeerObject, keypair: Keypair) returns (rotated: bool)
      requires Valid() && Has(peer)
      modifies this`table, peer`current, peer`previous, peer`next
      ensures Valid() && Has(peer)
      ensures (Value(), rotated) == Device.ReceivedWithKeypair(old(Value()), peer.pk, keypair)
    {
      if peer.next != Some(keypair) {
        return false;
      }
      OthersApart(peer);
      Promote(peer);
      rotated := true;
      OnlyPeer(peer);
    }

    /** What the first packet under the next keypair does to the peer and the table. */
    method Promote(peer: PeerObject)
      modifies this`table, peer`current, peer`previous, peer`next
      ensures table == Device.DeleteKeypair(old(table), old(peer.previous))
      ensures peer.KeypairsValue() == Keypairs(old(peer.next), old(peer.current), None)
    {
      var old' := peer.previous;
      peer.previous := peer.current;
      DeleteKeypair(old');
      peer.current := peer.next;
      peer.next := None;
    }

    method ZeroAndFlushAll(peer: PeerObject)
      requires Valid() && Has(peer)
      modifies this`table, peer, peer.hash, peer.chainKey
      ensures Valid() && Has(peer)
      ensures Value() == Device.ZeroAndFlushAll(old(Value()), peer.pk)
    {
      OthersApart(peer);
      Zero(peer);
      OnlyPeer(peer);
    }

    /** What zeroing does to the peer and the table. */
    method Zero(peer: PeerObject)
      requires peer.hash != peer.chainKey
      modifies this`table, peer, peer.hash, peer.chainKey
      ensures var t1 := Device.DeleteKeypair(old(table), old(peer.previous));
              var t2 := Device.DeleteKeypair(t1, old(peer.current));
              table == Delete(Device.DeleteKeypair(t2, old(peer.next)), old(peer.localIndex))
      ensures peer.Value() ==
              Peer(ClearHandshake(old(peer.HandshakeValue())), Keypairs(None, None, None), old(peer.running))
    {
      DeleteKeypair(peer.previous);
      DeleteKeypair(peer.current);
      DeleteKeypair(peer.next);
      peer.previous := None;
      peer.current := None;
      peer.next := None;
      table := Delete(table, peer.localIndex);
      peer.Clear();
    }

    method ExpireCurrentKeypairs(peer: PeerObject)
      requires Valid() && Has(peer)
      modifies this`table, peer, peer.hash, peer.chainKey
      ensures Valid() && Has(peer)
      ensures Value() == Device.ExpireCurrentKeypairs(old(Value()), peer.pk)
    {
      OthersApart(peer);
      table := Delete(table, peer.localIndex);
      peer.Clear();
      OnlyPeer(peer);
    }
  }
}
