/**
 The Noise Protocol Framework by itself: the symmetric state (section 5.2), the processing of handshake patterns
 (section 5.3) and the preshared key (section 9), run on the pattern IKpsk2. The handshake of internal/transport/noise-
 protocol.go computes what this does, message by message and side by side.
 */
module NoisePattern {
  import opened Common
  import opened Noise
  import Device
  import DeviceInvariant
  import Agreement
  import Tai64n

  // ---- Symmetric state -------------------------------------------------------------------------

  /** Chaining key, handshake hash, cipher key and the number of boxes sealed under it. */
  datatype Symmetric = Symmetric(ck: Term, h: Term, k: Term, n: nat)

  function MixHash(s: Symmetric, data: Term): Symmetric {
    s.(h := Hash(Cat(s.h, data)))
  }

  function MixKey(s: Symmetric, input: Term): Symmetric {
    var output := Expand(Extract(s.ck, input), 2);
    s.(ck := output[0], k := output[1], n := 0)
  }

  function MixKeyAndHash(s: Symmetric, input: Term): Symmetric {
    var output := Expand(Extract(s.ck, input), 3);
    MixHash(s, output[1]).(ck := output[0], k := output[2], n := 0)
  }

  function NonceOf(n: nat): Term {
    if n == 0 then ZERO_NONCE else Octets([n])
  }

  function EncryptAndHash(s: Symmetric, plain: Term): (Symmetric, Term) {
    var box := Sealed(s.k, NonceOf(s.n), plain, s.h);
    (MixHash(s, box).(n := s.n + 1), box)
  }

  function DecryptAndHash(s: Symmetric, box: Term): Option<(Symmetric, Term)> {
    var plain := Open(s.k, NonceOf(s.n), box, s.h);
    if plain.None? then None else Some((MixHash(s, box).(n := s.n + 1), plain.value))
  }

  /** The keys for the two directions, the initiator's first. */
  function SplitKeys(s: Symmetric): (Term, Term) {
    var output := Expand(Extract(s.ck, Octets([])), 2);
    (output[0], output[1])
  }

  // ---- Patterns --------------------------------------------------------------------------------

  datatype Token = E | S | EE | ES | SE | SS | PSK

  const PROTOCOL_NAME := Text("Noise_IKpsk2_25519_ChaChaPoly_BLAKE2s")
  const PROLOGUE := Text("WireGuard v1 zx2c4 Jason@zx2c4.com")
  const FIRST_MESSAGE := [E, ES, S, SS]
  const SECOND_MESSAGE := [E, EE, SE, PSK]

  /** One side: its keys, what it knows of the other's, and the preshared key. */
  datatype Party = Party(initiator: bool, s: nat, e: nat, rs: PublicKey, re: PublicKey, psk: Term)

  /** The responder's static key is known beforehand. */
  function Begin(responder: PublicKey): Symmetric {
    var name := Hash(PROTOCOL_NAME);
    MixHash(MixHash(Symmetric(name, name, Zeros, 0), PROLOGUE), Key(responder))
  }

  /** The shared secret a token stands for; in `ES` and `SE` the first letter is the initiator's. */
  function Secret(p: Party, t: Token): Option<Term> {
    match t
    case EE => SharedSecret(p.e, p.re)
    case ES => if p.initiator then SharedSecret(p.e, p.rs) else SharedSecret(p.s, p.re)
    case SE => if p.initiator then SharedSecret(p.s, p.re) else SharedSecret(p.e, p.rs)
    case SS => SharedSecret(p.s, p.rs)
    case PSK => Some(p.psk)
    case _ => None
  }

  function MixSecret(p: Party, t: Token, s: Symmetric): Option<Symmetric> {
    var secret := Secret(p, t);
    if secret.None? then None
    else if t == PSK then Some(MixKeyAndHash(s, secret.value)) else Some(MixKey(s, secret.value))
  }

  /** Writes the tokens: the state afterwards and what goes into the message, or a failure. */
  function Write(tokens: seq<Token>, p: Party, s: Symmetric): Option<(Symmetric, seq<Term>)>
    decreases |tokens|
  {
    if tokens == [] then Some((s, [])) else
    match tokens[0]
    case E => Prepended(Key(Pub(p.e)), Write(tokens[1..], p, MixKey(MixHash(s, Key(Pub(p.e))), Key(Pub(p.e)))))
    case S =>
      var (s', box) := EncryptAndHash(s, Key(Pub(p.s)));
      Prepended(box, Write(tokens[1..], p, s'))
    case t =>
      var s' := MixSecret(p, t, s);
      if s'.None? then None else Write(tokens[1..], p, s'.value)
  }

  function Prepended(part: Term, rest: Option<(Symmetric, seq<Term>)>): Option<(Symmetric, seq<Term>)> {
    if rest.None? then None else Some((rest.value.0, [part] + rest.value.1))
  }

  /** Reads a message: the state afterwards, and the other's keys as they become known. */
  function Read(tokens: seq<Token>, p: Party, s: Symmetric, parts: seq<Term>): Option<(Symmetric, Party)>
    decreases |tokens|
  {
    if tokens == [] then Some((s, p)) else
    match tokens[0]
    case E =>
      if parts == [] || !parts[0].Key? then None
      else Read(tokens[1..], p.(re := parts[0].pk), MixKey(MixHash(s, parts[0]), parts[0]), parts[1..])
    case S =>
      if parts == [] then None else
      var plain := DecryptAndHash(s, parts[0]);
      if plain.None? || !plain.value.1.Key? then None
      else Read(tokens[1..], p.(rs := plain.value.1.pk), plain.value.0, parts[1..])
    case t =>
      var s' := MixSecret(p, t, s);
      if s'.None? then None else Read(tokens[1..], p, s'.value, parts)
  }

  lemma WriteOne(t: Token, rest: seq<Token>, p: Party, s: Symmetric)
    requires t != E && t != S
    ensures var s' := MixSecret(p, t, s);
            Write([t] + rest, p, s) == if s'.None? then None else Write(rest, p, s'.value)
  {
    assert ([t] + rest)[1..] == rest;
  }

  lemma ReadOne(t: Token, rest: seq<Token>, p: Party, s: Symmetric, parts: seq<Term>)
    requires t != E && t != S
    ensures var s' := MixSecret(p, t, s);
            Read([t] + rest, p, s, parts) == if s'.None? then None else Read(rest, p, s'.value, parts)
  {
    assert ([t] + rest)[1..] == rest;
  }

  /** Two shared secrets and the preshared key in a row. */
  function Mixed3(p: Party, s: Symmetric): Option<Symmetric> {
    var (ee, se) := (Secret(p, EE), Secret(p, SE));
    if ee.None? || se.None? then None else Some(MixKeyAndHash(MixKey(MixKey(s, ee.value), se.value), p.psk))
  }

  lemma WriteThree(p: Party, s: Symmetric)
    ensures Write([EE, SE, PSK], p, s) == if Mixed3(p, s).None? then None else Some((Mixed3(p, s).value, []))
  {
    WriteOne(EE, [SE, PSK], p, s);
    assert [EE] + [SE, PSK] == [EE, SE, PSK] && [SE] + [PSK] == [SE, PSK] && [PSK] + [] == [PSK];
    if Secret(p, EE).Some? {
      var s2 := MixKey(s, Secret(p, EE).value);
      WriteOne(SE, [PSK], p, s2);
      if Secret(p, SE).Some? {
        WriteOne(PSK, [], p, MixKey(s2, Secret(p, SE).value));
      }
    }
  }

  lemma ReadThree(p: Party, s: Symmetric)
    ensures Read([EE, SE, PSK], p, s, []) == if Mixed3(p, s).None? then None else Some((Mixed3(p, s).value, p))
  {
    ReadOne(EE, [SE, PSK], p, s, []);
    assert [EE] + [SE, PSK] == [EE, SE, PSK] && [SE] + [PSK] == [SE, PSK] && [PSK] + [] == [PSK];
    if Secret(p, EE).Some? {
      var s2 := MixKey(s, Secret(p, EE).value);
      ReadOne(SE, [PSK], p, s2, []);
      if Secret(p, SE).Some? {
        ReadOne(PSK, [], p, MixKey(s2, Secret(p, SE).value), []);
      }
    }
  }

  // ---- The source against it -------------------------------------------------------------------

  lemma Mixed(s: Symmetric, input: Term)
    ensures (MixKey(s, input).ck, MixKey(s, input).k) == Kdf2(s.ck, input) && MixKey(s, input).ck == Kdf1(s.ck, input)
    ensures MixKey(s, input).h == s.h && MixKey(s, input).n == 0
    ensures var m := MixKeyAndHash(s, input);
            (m.ck, m.k) == (Kdf3(s.ck, input).0, Kdf3(s.ck, input).2) && m.h == Device.MixHash(s.h, Kdf3(s.ck, input).1)
            && m.n == 0
  {
    KdfIsHkdf(s.ck, input);
    assert Expand(Extract(s.ck, input), 1)[0] == Expand(Extract(s.ck, input), 2)[0];
  }

  lemma Beginning(responder: PublicKey)
    ensures Begin(responder).ck == Device.INITIAL_CHAIN_KEY
    ensures Begin(responder).h == Device.MixHash(Device.INITIAL_HASH, Key(responder))
  {}

  function AfterE(s: Symmetric, e: Term): Symmetric {
    MixKey(MixHash(s, e), e)
  }

  /** The first message token by token: the state after it, and the boxes of the static key and of the stamp. */
  function First(initiator: PublicKey, responder: PublicKey, e: Term, es: Term, ss: Term, stamp: Tai64n.Bytes)
    : (Symmetric, Term, Term)
  {
    var (s, sealedStatic) := EncryptAndHash(MixKey(AfterE(Begin(responder), e), es), Key(initiator));
    var (s', sealedStamp) := EncryptAndHash(MixKey(s, ss), Octets(stamp));
    (s', sealedStatic, sealedStamp)
  }

  lemma FirstIsTranscript(initiator: PublicKey, responder: PublicKey, e: PublicKey, es: Term, ss: Term,
                          stamp: Tai64n.Bytes)
    ensures var (s, sealedStatic, sealedStamp) := First(initiator, responder, Key(e), es, ss, stamp);
            && (s.h, s.ck) == DeviceInvariant.Transcript(initiator, responder, e, es, ss, stamp)
            && (sealedStatic, sealedStamp) == Agreement.Boxes(initiator, responder, e, es, ss, stamp)
  {
    var s0 := Begin(responder);
    Beginning(responder);
    Mixed(MixHash(s0, Key(e)), Key(e));
    Mixed(AfterE(s0, Key(e)), es);
    Mixed(EncryptAndHash(MixKey(AfterE(s0, Key(e)), es), Key(initiator)).0, ss);
  }

  lemma WriteFirst(p: Party, s: Symmetric)
    ensures var (es, ss) := (Secret(p, ES), Secret(p, SS));
            Write(FIRST_MESSAGE, p, s) ==
            if es.None? || ss.None? then None
            else
              var (s', box) := EncryptAndHash(MixKey(AfterE(s, Key(Pub(p.e))), es.value), Key(Pub(p.s)));
              Some((MixKey(s', ss.value), [Key(Pub(p.e)), box]))
  {
    var es, ss := Secret(p, ES), Secret(p, SS);
    var s1 := AfterE(s, Key(Pub(p.e)));
    assert FIRST_MESSAGE[1..] == [ES, S, SS] && [ES, S, SS][1..] == [S, SS] && [S, SS][1..] == [SS] && [SS][1..] == [];
    if es.Some? {
      var (s2, box) := EncryptAndHash(MixKey(s1, es.value), Key(Pub(p.s)));
      assert Write([SS], p, s2) == if ss.None? then None else Some((MixKey(s2, ss.value), []));
      assert Write([S, SS], p, MixKey(s1, es.value)) == Prepended(box, Write([SS], p, s2));
      assert Write([ES, S, SS], p, s1) == Write([S, SS], p, MixKey(s1, es.value));
      assert [box] + [] == [box] && [Key(Pub(p.e))] + [box] == [Key(Pub(p.e)), box];
    } else {
      assert Write([ES, S, SS], p, s1) == None;
    }
    assert Write(FIRST_MESSAGE, p, s) == Prepended(Key(Pub(p.e)), Write([ES, S, SS], p, s1));
  }

  /** An initiator that writes the first message and seals the stamp as its payload. */
  function Initiation(identity: nat, responder: PublicKey, ephemeral: nat, psk: Term, stamp: Tai64n.Bytes)
    : Option<(Symmetric, seq<Term>)>
  {
    var p := Party(true, identity, ephemeral, responder, Device.NO_KEY, psk);
    var written := Write(FIRST_MESSAGE, p, Begin(responder));
    if written.None? then None else
    var (s, box) := EncryptAndHash(written.value.0, Octets(stamp));
    Some((s, written.value.1 + [box]))
  }

  lemma InitiationWritten(identity: nat, responder: PublicKey, ephemeral: nat, psk: Term, stamp: Tai64n.Bytes)
    ensures var (es, ss) := (SharedSecret(ephemeral, responder), SharedSecret(identity, responder));
            Initiation(identity, responder, ephemeral, psk, stamp) ==
            if responder.LowOrder? then None else
            var (s, sealedStatic, sealedStamp) :=
              First(Pub(identity), responder, Key(Pub(ephemeral)), es.value, ss.value, stamp);
            Some((s, [Key(Pub(ephemeral)), sealedStatic, sealedStamp]))
  {
    var p := Party(true, identity, ephemeral, responder, Device.NO_KEY, psk);
    WriteFirst(p, Begin(responder));
    if responder.Pub? {
      var written := Write(FIRST_MESSAGE, p, Begin(responder)).value;
      var box := EncryptAndHash(written.0, Octets(stamp)).1;
      assert written.1 + [box] == [written.1[0], written.1[1], box];
    }
  }

  /**
   Creating an initiation is writing the first message of the pattern, with the stamp as its payload: it succeeds
   exactly if that does, sends what it sends, and leaves its hash and chain key.
   */
  lemma InitiateIsNoise(identity: nat, h: Device.Handshake, ephemeral: nat, stamp: Tai64n.Bytes, index: nat)
    requires h.staticStatic == Device.StaticStatic(identity, h.remoteStatic)
    ensures var written := Initiation(identity, h.remoteStatic, ephemeral, h.presharedKey, stamp);
            var (h', msg) := Device.Initiate(identity, h, ephemeral, stamp, index);
            && (msg.Some? <==> written.Some?)
            && (msg.Some? ==>
                  && [Key(msg.value.ephemeral), msg.value.sealedStatic, msg.value.sealedStamp] == written.value.1
                  && h'.hash == written.value.0.h && h'.chainKey == written.value.0.ck
                  && msg.value.sender == index && h'.localIndex == index && h'.localEphemeral == ephemeral)
  {
    InitiationWritten(identity, h.remoteStatic, ephemeral, h.presharedKey, stamp);
    if h.remoteStatic.Pub? {
      var es := SharedSecret(ephemeral, h.remoteStatic).value;
      FirstIsTranscript(Pub(identity), h.remoteStatic, Pub(ephemeral), es, h.staticStatic, stamp);
      Agreement.Seals(identity, h.remoteStatic.secret, h, ephemeral, stamp, index, es);
    }
  }

  // ---- Reading the first message ---------------------------------------------------------------

  lemma ReadFirst(p: Party, s: Symmetric, e: PublicKey, sealedStatic: Term)
    ensures var p1 := p.(re := e);
            var es := Secret(p1, ES);
            Read(FIRST_MESSAGE, p, s, [Key(e), sealedStatic]) ==
            if es.None? then None else
            var plain := DecryptAndHash(MixKey(AfterE(s, Key(e)), es.value), sealedStatic);
            if plain.None? || !plain.value.1.Key? then None else
            var p2 := p1.(rs := plain.value.1.pk);
            var ss := Secret(p2, SS);
            if ss.None? then None else Some((MixKey(plain.value.0, ss.value), p2))
  {
    var parts := [Key(e), sealedStatic];
    var p1, s1 := p.(re := e), AfterE(s, Key(e));
    var es := Secret(p1, ES);
    assert FIRST_MESSAGE[1..] == [ES, S, SS] && [ES, S, SS][1..] == [S, SS] && [S, SS][1..] == [SS] && [SS][1..] == [];
    assert parts[1..] == [sealedStatic] && [sealedStatic][1..] == [];
    assert Read(FIRST_MESSAGE, p, s, parts) == Read([ES, S, SS], p1, s1, [sealedStatic]);
    if es.Some? {
      var s2 := MixKey(s1, es.value);
      assert Read([ES, S, SS], p1, s1, [sealedStatic]) == Read([S, SS], p1, s2, [sealedStatic]);
      var plain := DecryptAndHash(s2, sealedStatic);
      if plain.Some? && plain.value.1.Key? {
        var p2 := p1.(rs := plain.value.1.pk);
        assert Read([S, SS], p1, s2, [sealedStatic]) == Read([SS], p2, plain.value.0, []);
      }
    }
  }

  /** A responder that reads the first message and then its payload: who wrote it, what, and the state. */
  function ReadInitiation(identity: nat, msg: Device.Initiation): Option<(PublicKey, Term, Symmetric)> {
    var p := Party(false, identity, 0, Device.NO_KEY, Device.NO_KEY, Zeros);
    var r := Read(FIRST_MESSAGE, p, Begin(Pub(identity)), [Key(msg.ephemeral), msg.sealedStatic]);
    if r.None? then None else
    var payload := DecryptAndHash(r.value.0, msg.sealedStamp);
    if payload.None? then None else Some((r.value.1.rs, payload.value.1, payload.value.0))
  }

  /** The static key in the message is the one the framework reads. */
  lemma OpenedStatic(identity: nat, msg: Device.Initiation)
    ensures var es := SharedSecret(identity, msg.ephemeral);
            es.Some? ==>
              var s := MixKey(AfterE(Begin(Pub(identity)), Key(msg.ephemeral)), es.value);
              var plain := DecryptAndHash(s, msg.sealedStatic);
              && (s.ck, s.k) == Kdf2(Kdf1(Device.INITIAL_CHAIN_KEY, Key(msg.ephemeral)), es.value)
              && s.h == Device.MixHash(Device.MixHash(Device.INITIAL_HASH, Key(Pub(identity))), Key(msg.ephemeral))
              && Device.InitiatorOf(identity, msg) ==
                 if plain.Some? && plain.value.1.Key? then Some(plain.value.1.pk) else None
  {
    var es := SharedSecret(identity, msg.ephemeral);
    if es.Some? {
      var s0, e := Begin(Pub(identity)), Key(msg.ephemeral);
      Beginning(Pub(identity));
      Mixed(MixHash(s0, e), e);
      Mixed(AfterE(s0, e), es.value);
    }
  }

  predicate Timely(h: Device.Handshake, stamp: Tai64n.Bytes, now: nat) {
    Tai64n.After(stamp, h.lastTimestamp)
    && !(h.lastConsumption.Some? && now - h.lastConsumption.value <= Device.INITIATION_RATE)
  }

  /** What is read of an initiation that names `pk`, from the state after its static key. */
  function Payload(identity: nat, msg: Device.Initiation, pk: PublicKey, s: Symmetric)
    : Option<(PublicKey, Term, Symmetric)>
  {
    var ss := SharedSecret(identity, pk);
    if ss.None? then None else
    var payload := DecryptAndHash(MixKey(s, ss.value), msg.sealedStamp);
    if payload.None? then None else Some((pk, payload.value.1, payload.value.0))
  }

  function AfterStatic(identity: nat, msg: Device.Initiation): Symmetric
    requires msg.ephemeral.Pub?
  {
    var s := MixKey(AfterE(Begin(Pub(identity)), Key(msg.ephemeral)), SharedSecret(identity, msg.ephemeral).value);
    MixHash(s, msg.sealedStatic).(n := 1)
  }

  lemma ReadPayload(identity: nat, msg: Device.Initiation, pk: PublicKey)
    requires Device.InitiatorOf(identity, msg) == Some(pk)
    ensures ReadInitiation(identity, msg) == Payload(identity, msg, pk, AfterStatic(identity, msg))
  {
    var p := Party(false, identity, 0, Device.NO_KEY, Device.NO_KEY, Zeros);
    var s := MixKey(AfterE(Begin(Pub(identity)), Key(msg.ephemeral)), SharedSecret(identity, msg.ephemeral).value);
    var p2 := p.(re := msg.ephemeral, rs := pk);
    OpenedStatic(identity, msg);
    assert DecryptAndHash(s, msg.sealedStatic) == Some((AfterStatic(identity, msg), Key(pk)));
    assert Secret(p.(re := msg.ephemeral), ES) == SharedSecret(identity, msg.ephemeral);
    assert Secret(p2, SS) == SharedSecret(identity, pk);
    ReadFirst(p, Begin(Pub(identity)), msg.ephemeral, msg.sealedStatic);
  }

  /**
   Consuming an initiation is reading the first message of the pattern: it is accepted exactly if the framework reads
   it, with a stamp as its payload, and that stamp is newer and no flood; and it leaves the hash and chain key of the
   framework.
   */
  lemma AcceptIsNoise(identity: nat, h: Device.Handshake, msg: Device.Initiation, now: nat, pk: PublicKey)
    requires Device.InitiatorOf(identity, msg) == Some(pk) && h.staticStatic == Device.StaticStatic(identity, pk)
    ensures var (r, h') := (ReadInitiation(identity, msg), Device.Accept(identity, h, msg, now));
            && (h'.Some? <==> r.Some? && r.value.1.Octets? && |r.value.1.b| == 12 && Timely(h, r.value.1.b, now))
            && (h'.Some? ==>
                  && r.value.0 == pk && h'.value.hash == r.value.2.h && h'.value.chainKey == r.value.2.ck
                  && Octets(h'.value.lastTimestamp) == r.value.1 && h'.value.remoteEphemeral == msg.ephemeral)
  {
    ReadPayload(identity, msg, pk);
    OpenedStatic(identity, msg);
    if pk.Pub? {
      Mixed(AfterStatic(identity, msg), SharedSecret(identity, pk).value);
    }
  }

  /** An initiation that names nobody is not read. */
  lemma NobodyIsNoise(identity: nat, msg: Device.Initiation)
    requires Device.InitiatorOf(identity, msg).None?
    ensures ReadInitiation(identity, msg).None?
  {
    ReadFirst(Party(false, identity, 0, Device.NO_KEY, Device.NO_KEY, Zeros), Begin(Pub(identity)), msg.ephemeral,
              msg.sealedStatic);
    OpenedStatic(identity, msg);
  }

  // ---- The second message ----------------------------------------------------------------------

  /** The state that a handshake holds between the messages. */
  function Between(h: Device.Handshake): Symmetric {
    Symmetric(h.chainKey, h.hash, Zeros, 0)
  }

  function AfterSecond(s: Symmetric, e: Term, ee: Term, se: Term, psk: Term): Symmetric {
    MixKeyAndHash(MixKey(MixKey(AfterE(s, e), ee), se), psk)
  }

  lemma SecondValue(s: Symmetric, e: Term, ee: Term, se: Term, psk: Term)
    ensures var s' := AfterSecond(s, e, ee, se, psk);
            var (ck, tau, key) := Kdf3(Kdf1(Kdf1(Kdf1(s.ck, e), ee), se), psk);
            s' == Symmetric(ck, Device.MixHash(Device.MixHash(s.h, e), tau), key, 0)
  {
    Mixed(MixHash(s, e), e);
    Mixed(AfterE(s, e), ee);
    Mixed(MixKey(AfterE(s, e), ee), se);
    Mixed(MixKey(MixKey(AfterE(s, e), ee), se), psk);
  }

  lemma WriteSecond(p: Party, s: Symmetric)
    ensures var (e, ee, se) := (Key(Pub(p.e)), Secret(p, EE), Secret(p, SE));
            Write(SECOND_MESSAGE, p, s) ==
            if ee.None? || se.None? then None else Some((AfterSecond(s, e, ee.value, se.value, p.psk), [e]))
  {
    var e := Key(Pub(p.e));
    assert SECOND_MESSAGE[1..] == [EE, SE, PSK] && [e] + [] == [e];
    WriteThree(p, AfterE(s, e));
  }

  lemma ReadSecond(p: Party, s: Symmetric, e: PublicKey)
    ensures var p' := p.(re := e);
            var (ee, se) := (Secret(p', EE), Secret(p', SE));
            Read(SECOND_MESSAGE, p, s, [Key(e)]) ==
            if ee.None? || se.None? then None else Some((AfterSecond(s, Key(e), ee.value, se.value, p.psk), p'))
  {
    assert SECOND_MESSAGE[1..] == [EE, SE, PSK] && [Key(e)][1..] == [];
    ReadThree(p.(re := e), AfterE(s, Key(e)));
  }

  /** A responder that writes the second message and seals an empty payload. */
  function WriteResponse(p: Party, s: Symmetric): Option<(Symmetric, seq<Term>)> {
    var written := Write(SECOND_MESSAGE, p, s);
    if written.None? then None else
    var (s', box) := EncryptAndHash(written.value.0, Octets([]));
    Some((s', written.value.1 + [box]))
  }

  /** An initiator that reads the second message and finds an empty payload. */
  function ReadResponse(p: Party, s: Symmetric, e: PublicKey, empty: Term): Option<Symmetric> {
    var r := Read(SECOND_MESSAGE, p, s, [Key(e)]);
    if r.None? then None else
    var payload := DecryptAndHash(r.value.0, empty);
    if payload.None? || payload.value.1 != Octets([]) then None else Some(payload.value.0)
  }

  /** Both in the words of the source. */
  lemma ResponseWritten(p: Party, s: Symmetric)
    ensures var (e, ee, se) := (Key(Pub(p.e)), Secret(p, EE), Secret(p, SE));
            WriteResponse(p, s) ==
            if ee.None? || se.None? then None else
            var (ck, tau, key) := Kdf3(Kdf1(Kdf1(Kdf1(s.ck, e), ee.value), se.value), p.psk);
            var hash := Device.MixHash(Device.MixHash(s.h, e), tau);
            var box := Sealed(key, ZERO_NONCE, Octets([]), hash);
            Some((Symmetric(ck, Device.MixHash(hash, box), key, 1), [e, box]))
  {
    WriteSecond(p, s);
    if Secret(p, EE).Some? && Secret(p, SE).Some? {
      var e := Key(Pub(p.e));
      SecondValue(s, e, Secret(p, EE).value, Secret(p, SE).value, p.psk);
      var box := EncryptAndHash(Write(SECOND_MESSAGE, p, s).value.0, Octets([])).1;
      assert [e] + [box] == [e, box];
    }
  }

  lemma ResponseRead(p: Party, s: Symmetric, e: PublicKey, empty: Term)
    ensures var p' := p.(re := e);
            var (ee, se) := (Secret(p', EE), Secret(p', SE));
            ReadResponse(p, s, e, empty) ==
            if ee.None? || se.None? then None else
            var (ck, tau, key) := Kdf3(Kdf1(Kdf1(Kdf1(s.ck, Key(e)), ee.value), se.value), p.psk);
            var hash := Device.MixHash(Device.MixHash(s.h, Key(e)), tau);
            if Open(key, ZERO_NONCE, empty, hash) != Some(Octets([])) then None
            else Some(Symmetric(ck, Device.MixHash(hash, empty), key, 1))
  {
    var p' := p.(re := e);
    ReadSecond(p, s, e);
    if Secret(p', EE).Some? && Secret(p', SE).Some? {
      SecondValue(s, Key(e), Secret(p', EE).value, Secret(p', SE).value, p.psk);
    }
  }

  /**
   Creating a response is writing the second message of the pattern: it succeeds exactly if that does, sends what it
   sends, and leaves its hash and chain key.
   */
  lemma RespondIsNoise(identity: nat, h: Device.Handshake, ephemeral: nat, index: nat)
    ensures var p := Party(false, identity, ephemeral, h.remoteStatic, h.remoteEphemeral, h.presharedKey);
            var written := WriteResponse(p, Between(h));
            var (h', msg) := Device.Respond(h, ephemeral, index);
            && (msg.Some? <==> written.Some?)
            && (msg.Some? ==>
                  && [Key(msg.value.ephemeral), msg.value.empty] == written.value.1
                  && h'.hash == written.value.0.h && h'.chainKey == written.value.0.ck
                  && msg.value.sender == index && msg.value.receiver == h.remoteIndex && h'.localIndex == index)
  {
    ResponseWritten(Party(false, identity, ephemeral, h.remoteStatic, h.remoteEphemeral, h.presharedKey), Between(h));
  }

  /** Consuming a response is reading the second message of the pattern. */
  lemma CheckIsNoise(identity: nat, h: Device.Handshake, msg: Device.Response)
    requires h.state == Device.InitiationCreated
    ensures var p := Party(true, identity, h.localEphemeral, h.remoteStatic, Device.NO_KEY, h.presharedKey);
            var r := ReadResponse(p, Between(h), msg.ephemeral, msg.empty);
            Device.CheckResponse(identity, h, msg) == if r.None? then None else Some((r.value.h, r.value.ck))
  {
    ResponseRead(Party(true, identity, h.localEphemeral, h.remoteStatic, Device.NO_KEY, h.presharedKey), Between(h),
                 msg.ephemeral, msg.empty);
  }

  /**
   In every reachable state: a response is consumed for a peer if and only if that peer's handshake waits under the
   index it is addressed to and the framework reads it; and then the handshake holds what the framework holds.
   */
  lemma ResponseAcceptedIf(identity: nat, trace: seq<Device.Action>, msg: Device.Response, pk: PublicKey)
    requires Device.Run(identity, trace).Some? && pk in Device.Run(identity, trace).value.peers
    ensures var s := Device.Run(identity, trace).value;
            var h := s.peers[pk].handshake;
            var p := Party(true, s.identity, h.localEphemeral, pk, Device.NO_KEY, h.presharedKey);
            var r := ReadResponse(p, Between(h), msg.ephemeral, msg.empty);
            var (s', from) := Device.ConsumeResponse(s, msg);
            && (from == Some(pk) <==> && msg.kind == Device.RESPONSE_TYPE && h.state == Device.InitiationCreated
                                      && msg.receiver == h.localIndex && r.Some?)
            && (from == Some(pk) ==>
                  var h' := s'.peers[pk].handshake;
                  && h'.state == Device.ResponseConsumed && h'.hash == r.value.h && h'.chainKey == r.value.ck
                  && h'.remoteIndex == msg.sender)
  {
    DeviceInvariant.EveryRun(identity, trace);
    var s := Device.Run(identity, trace).value;
    assert DeviceInvariant.PeerHolds(s, pk);
    if msg.receiver in s.table {
      assert DeviceInvariant.PeerHolds(s, s.table[msg.receiver].peer);
    }
    if s.peers[pk].handshake.state == Device.InitiationCreated {
      CheckIsNoise(s.identity, s.peers[pk].handshake, msg);
    }
  }

  /** The initiator sends with the first key of the split and receives with the second, the responder crosswise. */
  lemma DeriveIsNoise(h: Device.Handshake, id: nat)
    ensures var (k, keys) := (Device.Derive(h, id), SplitKeys(Between(h)));
            && k.isInitiator == (h.state == Device.ResponseConsumed)
            && (k.sendKey, k.recvKey) == if k.isInitiator then keys else (keys.1, keys.0)
  {
    KdfIsHkdf(h.chainKey, Octets([]));
  }
}
