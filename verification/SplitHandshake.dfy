/**
 Consuming a message as internal/transport/noise-protocol.go locks it: a worker looks at the handshake under the read
 lock and writes the result under the write lock, and does not look again in between, neither for a response nor for an
 initiation. Any number of workers do so while every other step of the device goes on. Every ephemeral key is drawn
 once.
 */
module SplitHandshake {
  import opened Common
  import opened Noise
  import opened Device
  import opened DeviceInvariant
  import opened KeyFreshness
  import Initiations
  import Tai64n

  /** A response that was found right for the handshake `h`, and the secrets it leads to. */
  datatype Checked = Checked(pk: PublicKey, h: Handshake, msg: Response, hash: Term, chainKey: Term)

  /** An initiation that was found genuine and new, and what it leads to. */
  datatype Tested = Tested(pk: PublicKey, msg: Initiation, hash: Term, chainKey: Term, stamp: Tai64n.Bytes)

  /** A handshake as it was when its initiation was created. */
  datatype Born = Born(pk: PublicKey, h: Handshake)

  /**
   History: the ephemerals drawn, what was created with them, the response last written for each peer, the keypairs
   derived and, for each of them, the response it was derived from if there was one.
   */
  datatype Log = Log(drawn: set<nat>, born: map<nat, Born>, source: map<PublicKey, Checked>, derived: seq<Keypair>,
                     causes: seq<Option<Checked>>)

  datatype World = World(device: State, checked: map<nat, Checked>, tested: map<nat, Tested>, log: Log)

  datatype Step =
    | Atomic(a: Action)
    | Check(worker: nat, response: Response)
    | Write(worker: nat)
    | Test(worker: nat, initiation: Initiation, now: nat)
    | Take(worker: nat, now: nat)

  predicate Possible(w: World, a: Step) {
    match a
    case Atomic(b) =>
      && !b.AConsumeResponse? && !b.AConsumeInitiation? && Enabled(w.device, b)
      && (Drawn(b).Some? ==> Drawn(b).value !in w.log.drawn)
    case Check(worker, _) => worker !in w.checked
    case Write(worker) => worker in w.checked && w.checked[worker].pk in w.device.peers
    case Test(worker, _, _) => worker !in w.tested
    case Take(worker, _) => worker in w.tested && w.tested[worker].pk in w.device.peers
  }

  /** The part of consuming a response under the read lock. */
  function Found(s: State, msg: Response): Option<Checked> {
    if msg.kind != RESPONSE_TYPE || msg.receiver !in s.table then None else
    var lookup := s.table[msg.receiver];
    if lookup.handshake.None? || lookup.handshake.value !in s.peers then None else
    var pk := lookup.handshake.value;
    var ok := CheckResponse(s.identity, s.peers[pk].handshake, msg);
    if ok.None? then None else Some(Checked(pk, s.peers[pk].handshake, msg, ok.value.0, ok.value.1))
  }

  function Written(s: State, c: Checked): State
    requires c.pk in s.peers
  {
    CommitResponse(s, c.pk, c.hash, c.chainKey, c.msg.sender)
  }

  /** The part of consuming an initiation under the read lock. */
  function Seen(s: State, msg: Initiation, now: nat): Option<Tested> {
    if msg.kind != INITIATION_TYPE then None else
    var pk := InitiatorOf(s.identity, msg);
    if pk.None? || pk.value !in s.peers || !s.peers[pk.value].running then None else
    var h := Accept(s.identity, s.peers[pk.value].handshake, msg, now);
    if h.None? then None else Some(Tested(pk.value, msg, h.value.hash, h.value.chainKey, h.value.lastTimestamp))
  }

  /** The part under the write lock: stamp and time only ever move forward. */
  function Taken(s: State, t: Tested, now: nat): State
    requires t.pk in s.peers
  {
    var h := s.peers[t.pk].handshake;
    WithHandshake(s, t.pk, h.(
                  state := InitiationConsumed, hash := t.hash, chainKey := t.chainKey, remoteIndex := t.msg.sender,
                  remoteEphemeral := t.msg.ephemeral,
                  lastTimestamp := Newest(t.stamp, h.lastTimestamp),
                  lastConsumption := Latest(now, h.lastConsumption)))
  }

  /** What is noted of a step that is atomic. */
  function Noted(log: Log, s: State, a: Action): Log
    requires Enabled(s, a)
  {
    var log := log.(drawn := DrawnAfter(log.drawn, a));
    if a.ACreateInitiation? && CreateInitiation(s, a.pk, a.ephemeral, a.stamp, a.index).1.Some? then
      log.(born := log.born[a.ephemeral := Born(a.pk, Apply(s, a).peers[a.pk].handshake)])
    else if a.ABeginSession? && BeginSession(s, a.pk).1 then
      var cause := if s.peers[a.pk].handshake.state == ResponseConsumed
                      && a.pk in log.source then Some(log.source[a.pk]) else None;
      log.(derived := log.derived + DerivedBy(s, a), causes := log.causes + [cause])
    else log
  }

  function Next(w: World, a: Step): World
    requires Possible(w, a)
  {
    match a
    case Atomic(b) => w.(device := Apply(w.device, b), log := Noted(w.log, w.device, b))
    case Check(worker, msg) =>
      var c := Found(w.device, msg);
      if c.None? then w else w.(checked := w.checked[worker := c.value])
    case Write(worker) =>
      var c := w.checked[worker];
      w.(device := Written(w.device, c), checked := w.checked - {worker},
      log := w.log.(source := w.log.source[c.pk := c]))
    case Test(worker, msg, now) =>
      var t := Seen(w.device, msg, now);
      if t.None? then w else w.(tested := w.tested[worker := t.value])
    case Take(worker, now) => w.(device := Taken(w.device, w.tested[worker], now), tested := w.tested - {worker})
  }

  function From(w: World, trace: seq<Step>): Option<World> {
    if trace == [] then Some(w)
    else
      var before := From(w, trace[..|trace| - 1]);
      var a := trace[|trace| - 1];
      if before.None? || !Possible(before.value, a) then None else Some(Next(before.value, a))
  }

  function Start(identity: nat): World {
    World(Initial(identity), map[], map[], Log({}, map[], map[], [], []))
  }

  function RunSplit(identity: nat, trace: seq<Step>): Option<World> {
    From(Start(identity), trace)
  }

  // ---- Responses: when the write is what an atomic step would have been ------------------------

  /** The handshake still waits for a response with the ephemeral that the response was checked against. */
  predicate StillWaiting(s: State, c: Checked)
    requires c.pk in s.peers
  {
    var h := s.peers[c.pk].handshake;
    h.state == InitiationCreated && h.localEphemeral == c.h.localEphemeral
  }

  /** What the check looks at. */
  predicate SameForCheck(h: Handshake, h': Handshake) {
    && h.state == h'.state == InitiationCreated
    && h.hash == h'.hash && h.chainKey == h'.chainKey && h.presharedKey == h'.presharedKey
    && h.localEphemeral == h'.localEphemeral && h.localIndex == h'.localIndex
  }

  ghost predicate CheckedFine(s: State, c: Checked, drawn: set<nat>) {
    && c.pk in s.peers && c.h.state == InitiationCreated && Marked(c.h) && c.h.localEphemeral in drawn
    && c.msg.kind == RESPONSE_TYPE && c.msg.receiver == c.h.localIndex
    && CheckResponse(s.identity, c.h, c.msg) == Some((c.hash, c.chainKey))
    && (StillWaiting(s, c) ==> SameForCheck(s.peers[c.pk].handshake, c.h))
  }

  lemma SameCheck(identity: nat, h: Handshake, h': Handshake, msg: Response)
    requires SameForCheck(h, h')
    ensures CheckResponse(identity, h, msg) == CheckResponse(identity, h', msg)
  {}

  lemma LaterCheck(identity: nat, h: Handshake, h': Handshake, msg: Response)
    requires Marked(h) && Marked(h') && h'.state == InitiationCreated
    requires CheckResponse(identity, h, msg).Some? && CheckResponse(identity, h', msg).Some?
    requires CheckResponse(identity, h, msg).value.1 == CheckResponse(identity, h', msg).value.1
    ensures h.localEphemeral == h'.localEphemeral
  {
    CheckedMarks(identity, h, msg);
    CheckedMarks(identity, h', msg);
  }

  /**
   The write does what consuming the response at that moment would do, if and only if the handshake is still waiting.
   */
  lemma WriteIsAtomic(s: State, c: Checked, drawn: set<nat>)
    requires Inv(s) && PeersMarked(s, drawn) && CheckedFine(s, c, drawn)
    ensures ConsumeResponse(s, c.msg) == (Written(s, c), Some(c.pk)) <==> StillWaiting(s, c)
  {
    var h := s.peers[c.pk].handshake;
    assert PeerHolds(s, c.pk);
    if StillWaiting(s, c) {
      SameCheck(s.identity, h, c.h, c.msg);
    } else if ConsumeResponse(s, c.msg) == (Written(s, c), Some(c.pk)) {
      assert PeerHolds(s, s.table[c.msg.receiver].peer);
      assert Written(s, c).peers[c.pk].handshake.chainKey == c.chainKey;
      LaterCheck(s.identity, h, c.h, c.msg);
    }
  }

  lemma FoundFine(s: State, msg: Response, drawn: set<nat>)
    requires Inv(s) && PeersMarked(s, drawn) && Found(s, msg).Some?
    ensures CheckedFine(s, Found(s, msg).value, drawn)
  {
    assert PeerHolds(s, s.table[msg.receiver].peer);
  }

  // ---- Initiations: the write needs no guard ---------------------------------------------------

  /** Hash and chain key of an initiation once its stamp is opened under the two static keys. */
  function Transcribed(identity: nat, msg: Initiation, pk: PublicKey): (Term, Term)
    requires InitiatorOf(identity, msg).Some?
  {
    var hash := MixHash(MixHash(MixHash(INITIAL_HASH, Key(Pub(identity))), Key(msg.ephemeral)), msg.sealedStatic);
    var (ck, _) := Kdf2(Kdf1(INITIAL_CHAIN_KEY, Key(msg.ephemeral)), SharedSecret(identity, msg.ephemeral).value);
    (MixHash(hash, msg.sealedStamp), Kdf2(ck, StaticStatic(identity, pk)).0)
  }

  predicate Flood(h: Handshake, now: nat) {
    h.lastConsumption.Some? && now - h.lastConsumption.value <= INITIATION_RATE
  }

  lemma AcceptValue(identity: nat, h: Handshake, msg: Initiation, now: nat, pk: PublicKey)
    requires InitiatorOf(identity, msg).Some? && h.staticStatic == StaticStatic(identity, pk)
    ensures var (stamp, t) := (Initiations.StampIn(identity, msg, pk), Transcribed(identity, msg, pk));
            Accept(identity, h, msg, now) ==
            if stamp.None? || !Tai64n.After(stamp.value, h.lastTimestamp) || Flood(h, now) then None
            else Some(h.(state := InitiationConsumed, hash := t.0, chainKey := t.1, remoteIndex := msg.sender,
                      remoteEphemeral := msg.ephemeral, lastTimestamp := stamp.value, lastConsumption := Some(now)))
  {}

  /** What was tested stays true: it speaks of the message and the keys alone. */
  ghost predicate TestedFine(s: State, t: Tested) {
    && t.pk in s.peers && Initiations.From(s.identity, t.msg, t.pk)
    && Initiations.StampIn(s.identity, t.msg, t.pk) == Some(t.stamp)
    && (t.hash, t.chainKey) == Transcribed(s.identity, t.msg, t.pk)
  }

  lemma SeenFine(s: State, msg: Initiation, now: nat)
    requires Inv(s) && Seen(s, msg, now).Some?
    ensures TestedFine(s, Seen(s, msg, now).value)
  {
    var pk := InitiatorOf(s.identity, msg).value;
    AcceptValue(s.identity, s.peers[pk].handshake, msg, now, pk);
  }

  /** The write does what consuming the initiation at that moment would do, exactly if that would be accepted. */
  lemma TakeIsAtomic(s: State, t: Tested, now: nat)
    requires Inv(s) && TestedFine(s, t)
    ensures var h := s.peers[t.pk].handshake;
            ConsumeInitiation(s, t.msg, now) == (Taken(s, t, now), Some(t.pk)) <==>
            s.peers[t.pk].running && Tai64n.After(t.stamp, h.lastTimestamp) && !Flood(h, now)
  {
    AcceptValue(s.identity, s.peers[t.pk].handshake, t.msg, now, t.pk);
  }

  lemma TestedTranscript(identity: nat, msg: Initiation, pk: PublicKey)
    requires Initiations.From(identity, msg, pk) && Initiations.StampIn(identity, msg, pk).Some?
    ensures pk.Pub? && msg.ephemeral.Pub? && |Initiations.StampIn(identity, msg, pk).value| == 12
    ensures Transcribed(identity, msg, pk) ==
            Transcript(pk, Pub(identity), msg.ephemeral, SharedSecret(identity, msg.ephemeral).value,
                       SharedSecret(identity, pk).value, Initiations.StampIn(identity, msg, pk).value)
  {}

  /** Whatever the handshake has become, taking over an initiation that was once tested keeps the invariant. */
  lemma TakeKeeps(s: State, t: Tested, now: nat)
    requires Inv(s) && TestedFine(s, t)
    ensures Inv(Taken(s, t, now))
  {
    var s' := Taken(s, t, now);
    TestedTranscript(s.identity, t.msg, t.pk);
    SameIndicesExact(s, s', t.pk);
    assert ResponderTranscript(s.identity, t.pk, s'.peers[t.pk].handshake);
    OnePeerFine(s, s', t.pk);
  }

  lemma TakeKeepsKeys(s: State, t: Tested, now: nat, derived: seq<Keypair>, drawn: set<nat>)
    requires KeyInv(s, derived, drawn) && t.pk in s.peers
    ensures KeyInv(Taken(s, t, now), derived, drawn)
  {
    KeyFreshness.OnePeer(s, Taken(s, t, now), t.pk, derived, drawn, drawn);
  }

  // ---- Every run -------------------------------------------------------------------------------

  ghost predicate AllChecked(w: World) {
    forall k | k in w.checked :: CheckedFine(w.device, w.checked[k], w.log.drawn)
  }

  ghost predicate AllTested(w: World) {
    forall k | k in w.tested :: TestedFine(w.device, w.tested[k])
  }

  ghost predicate Safe(w: World) {
    Inv(w.device) && KeyInv(w.device, w.log.derived, w.log.drawn) && AllChecked(w) && AllTested(w)
  }

  /** A handshake that waits after a step was created by it, or waited before and is the same to the check. */
  lemma WaitingStep(s: State, a: Action, pk: PublicKey)
    requires Enabled(s, a) && pk in s.peers
    ensures Apply(s, a).identity == s.identity && pk in Apply(s, a).peers
    ensures var h, h' := s.peers[pk].handshake, Apply(s, a).peers[pk].handshake;
            h'.state == InitiationCreated ==> SameForCheck(h', h) || Drawn(a) == Some(h'.localEphemeral)
  {
    match a
    case ANewPeer(_, _) =>
    case ACreateInitiation(_, _, _, _) =>
    case AConsumeInitiation(_, _) =>
    case ACreateResponse(_, _, _) =>
    case AConsumeResponse(_) =>
    case ABeginSession(_) =>
    case AReceive(_, _, _, _, _) =>
    case AZeroAndFlushAll(_) =>
    case AExpire(_) =>
    case AStart(_) =>
    case AStop(_) =>
  }

  lemma FineStep(s: State, a: Action, c: Checked, drawn: set<nat>)
    requires Enabled(s, a) && CheckedFine(s, c, drawn) && (Drawn(a).Some? ==> Drawn(a).value !in drawn)
    ensures CheckedFine(Apply(s, a), c, DrawnAfter(drawn, a))
  {
    WaitingStep(s, a, c.pk);
  }

  lemma TestedStep(s: State, a: Action, t: Tested)
    requires Enabled(s, a) && TestedFine(s, t)
    ensures TestedFine(Apply(s, a), t)
  {
    WaitingStep(s, a, t.pk);
  }

  lemma DrawnNoted(log: Log, s: State, a: Action)
    requires Enabled(s, a)
    ensures Noted(log, s, a).drawn == DrawnAfter(log.drawn, a)
  {}

  lemma FineAfterAtomic(w: World, a: Action)
    requires AllChecked(w) && AllTested(w) && Possible(w, Atomic(a))
    ensures AllChecked(Next(w, Atomic(a))) && AllTested(Next(w, Atomic(a)))
  {
    var w' := Next(w, Atomic(a));
    DrawnNoted(w.log, w.device, a);
    forall k | k in w.checked ensures CheckedFine(w'.device, w.checked[k], w'.log.drawn) {
      FineStep(w.device, a, w.checked[k], w.log.drawn);
    }
    forall k | k in w.tested ensures TestedFine(w'.device, w.tested[k]) {
      TestedStep(w.device, a, w.tested[k]);
    }
  }

  lemma AtomicSafe(w: World, a: Action)
    requires Safe(w) && Possible(w, Atomic(a))
    ensures Safe(Next(w, Atomic(a)))
  {
    FineAfterAtomic(w, a);
    DeviceInvariant.StepKeeps(w.device, a);
    if a.ABeginSession? {
      BeginNoted(w, a.pk);
      KeyFreshness.BeginSessionKeeps(w.device, a.pk, w.log.derived, w.log.drawn);
    } else {
      KeyFreshness.StepKeeps(w.device, a, w.log.derived, w.log.drawn);
    }
  }

  lemma BeginNoted(w: World, pk: PublicKey)
    requires Possible(w, Atomic(ABeginSession(pk)))
    ensures var a := ABeginSession(pk);
            var log := Next(w, Atomic(a)).log;
            log.derived == w.log.derived + DerivedBy(w.device, a) && log.drawn == w.log.drawn
  {
    assert w.log.derived + [] == w.log.derived;
  }

  lemma CheckSafe(w: World, worker: nat, msg: Response)
    requires Safe(w) && Possible(w, Check(worker, msg))
    ensures Safe(Next(w, Check(worker, msg)))
  {
    if Found(w.device, msg).Some? {
      FoundFine(w.device, msg, w.log.drawn);
      AddChecked(w, worker, Found(w.device, msg).value);
    }
  }

  lemma AddChecked(w: World, worker: nat, c: Checked)
    requires Safe(w) && CheckedFine(w.device, c, w.log.drawn)
    ensures Safe(w.(checked := w.checked[worker := c]))
  {}

  lemma TestSafe(w: World, worker: nat, msg: Initiation, now: nat)
    requires Safe(w) && Possible(w, Test(worker, msg, now))
    ensures Safe(Next(w, Test(worker, msg, now)))
  {
    if Seen(w.device, msg, now).Some? {
      SeenFine(w.device, msg, now);
    }
  }

  /** One handshake changes and does not wait afterwards. */
  predicate Overwritten(s: State, s': State, pk: PublicKey) {
    && s'.identity == s.identity && pk in s.peers && pk in s'.peers && s'.peers == s.peers[pk := s'.peers[pk]]
    && s'.peers[pk].handshake.state != InitiationCreated
  }

  lemma CheckedKept(s: State, s': State, pk: PublicKey, c: Checked, drawn: set<nat>)
    requires Overwritten(s, s', pk) && CheckedFine(s, c, drawn)
    ensures CheckedFine(s', c, drawn)
  {}

  lemma TestedKept(s: State, s': State, pk: PublicKey, t: Tested)
    requires Overwritten(s, s', pk) && TestedFine(s, t)
    ensures TestedFine(s', t)
  {}

  lemma OthersFine(w: World, w': World, pk: PublicKey)
    requires AllChecked(w) && AllTested(w) && Overwritten(w.device, w'.device, pk) && w'.log.drawn == w.log.drawn
    requires forall k | k in w'.checked :: k in w.checked && w.checked[k] == w'.checked[k]
    requires forall k | k in w'.tested :: k in w.tested && w.tested[k] == w'.tested[k]
    ensures AllChecked(w') && AllTested(w')
  {
    forall k | k in w'.checked ensures CheckedFine(w'.device, w'.checked[k], w'.log.drawn) {
      CheckedKept(w.device, w'.device, pk, w'.checked[k], w.log.drawn);
    }
    forall k | k in w'.tested ensures TestedFine(w'.device, w'.tested[k]) {
      TestedKept(w.device, w'.device, pk, w'.tested[k]);
    }
  }

  lemma WriteKeeps(s: State, c: Checked, derived: seq<Keypair>, drawn: set<nat>)
    requires Inv(s) && KeyInv(s, derived, drawn) && CheckedFine(s, c, drawn) && StillWaiting(s, c)
    ensures Inv(Written(s, c)) && KeyInv(Written(s, c), derived, drawn)
  {
    WriteIsAtomic(s, c, drawn);
    DeviceInvariant.ConsumeResponseKeeps(s, c.msg);
    KeyFreshness.ConsumeResponseKeeps(s, c.msg, derived, drawn);
  }

  lemma WriteSafe(w: World, worker: nat)
    requires Safe(w) && Possible(w, Write(worker)) && StillWaiting(w.device, w.checked[worker])
    ensures Safe(Next(w, Write(worker)))
  {
    var c := w.checked[worker];
    WriteKeeps(w.device, c, w.log.derived, w.log.drawn);
    assert Overwritten(w.device, Written(w.device, c), c.pk);
    OthersFine(w, Next(w, Write(worker)), c.pk);
  }

  lemma TakeSafe(w: World, worker: nat, now: nat)
    requires Safe(w) && Possible(w, Take(worker, now))
    ensures Safe(Next(w, Take(worker, now)))
  {
    var t := w.tested[worker];
    TakeKeeps(w.device, t, now);
    TakeKeepsKeys(w.device, t, now, w.log.derived, w.log.drawn);
    assert Overwritten(w.device, Taken(w.device, t, now), t.pk);
    OthersFine(w, Next(w, Take(worker, now)), t.pk);
  }

  lemma StepSafe(w: World, a: Step)
    requires Safe(w) && Possible(w, a) && (a.Write? ==> StillWaiting(w.device, w.checked[a.worker]))
    ensures Safe(Next(w, a))
  {
    match a
    case Atomic(b) => AtomicSafe(w, b);
    case Check(worker, msg) => CheckSafe(w, worker, msg);
    case Write(worker) => WriteSafe(w, worker);
    case Test(worker, msg, now) => TestSafe(w, worker, msg, now);
    case Take(worker, now) => TakeSafe(w, worker, now);
  }

  /** Every response that is written finds its handshake still waiting. */
  predicate WritesWait(identity: nat, trace: seq<Step>) {
    trace == []
    || (var (before, a) := (trace[..|trace| - 1], trace[|trace| - 1]);
        var w := RunSplit(identity, before);
        && WritesWait(identity, before)
        && (w.Some? && a.Write? && Possible(w.value, a) ==> StillWaiting(w.value.device, w.value.checked[a.worker])))
  }

  /** Every initiation that is taken over would be accepted at that moment. */
  predicate TakesFit(identity: nat, trace: seq<Step>) {
    trace == []
    || (var (before, a) := (trace[..|trace| - 1], trace[|trace| - 1]);
        var w := RunSplit(identity, before);
        && TakesFit(identity, before)
        && (w.Some? && a.Take? && Possible(w.value, a) ==> Fits(w.value.device, w.value.tested[a.worker], a.now)))
  }

  predicate Fits(s: State, t: Tested, now: nat)
    requires t.pk in s.peers
  {
    var p := s.peers[t.pk];
    p.running && Tai64n.After(t.stamp, p.handshake.lastTimestamp) && !Flood(p.handshake, now)
  }

  /** Nothing is asked of the initiations: however late one is taken over, the table stays exact and keys stay apart. */
  lemma {:induction false} WaitingRunIsSafe(identity: nat, trace: seq<Step>)
    requires RunSplit(identity, trace).Some? && WritesWait(identity, trace)
    ensures Safe(RunSplit(identity, trace).value)
  {
    if trace != [] {
      var before, a := trace[..|trace| - 1], trace[|trace| - 1];
      WaitingRunIsSafe(identity, before);
      StepSafe(RunSplit(identity, before).value, a);
    }
  }

  /** In particular the table is exact, and the keypairs of such a run have pairwise distinct keys. */
  lemma WaitingKeysDistinct(identity: nat, trace: seq<Step>)
    requires RunSplit(identity, trace).Some? && WritesWait(identity, trace)
    ensures var w := RunSplit(identity, trace).value; Inv(w.device) && DistinctKeys(w.log.derived)
  {
    WaitingRunIsSafe(identity, trace);
    var derived := RunSplit(identity, trace).value.log.derived;
    forall i, j | 0 <= i < j < |derived|
      ensures derived[i].sendKey != derived[j].sendKey && derived[i].recvKey != derived[j].recvKey
    {
      MarksTellKeysApart(derived[i], derived[j]);
    }
  }

  /** What a step comes to if a look does nothing and a write consumes the message. */
  function Projection(w: World, a: Step): seq<Action>
    requires Possible(w, a)
  {
    match a
    case Atomic(b) => [b]
    case Write(worker) => [AConsumeResponse(w.checked[worker].msg)]
    case Take(worker, now) => [AConsumeInitiation(w.tested[worker].msg, now)]
    case _ => []
  }

  function Projected(identity: nat, trace: seq<Step>): seq<Action> {
    if trace == [] then []
    else
      var (before, a) := (trace[..|trace| - 1], trace[|trace| - 1]);
      var w := RunSplit(identity, before);
      Projected(identity, before) + if w.Some? && Possible(w.value, a) then Projection(w.value, a) else []
  }

  lemma ProjectionApplies(w: World, a: Step)
    requires Safe(w) && Possible(w, a)
    requires a.Write? ==> StillWaiting(w.device, w.checked[a.worker])
    requires a.Take? ==> Fits(w.device, w.tested[a.worker], a.now)
    ensures var (actions, s') := (Projection(w, a), Next(w, a).device);
            if actions == [] then s' == w.device
            else |actions| == 1 && Enabled(w.device, actions[0]) && Apply(w.device, actions[0]) == s'
  {
    match a
    case Write(worker) => WriteIsAtomic(w.device, w.checked[worker], w.log.drawn);
    case Take(worker, now) => TakeIsAtomic(w.device, w.tested[worker], now);
    case _ =>
  }

  /** If every write fits what the device has become, the run is a run of atomic steps. */
  lemma {:induction false} FittingRunIsAtomic(identity: nat, trace: seq<Step>)
    requires RunSplit(identity, trace).Some? && WritesWait(identity, trace) && TakesFit(identity, trace)
    ensures Run(identity, Projected(identity, trace)) == Some(RunSplit(identity, trace).value.device)
  {
    if trace != [] {
      var before, a := trace[..|trace| - 1], trace[|trace| - 1];
      var w := RunSplit(identity, before).value;
      FittingRunIsAtomic(identity, before);
      WaitingRunIsSafe(identity, before);
      ProjectionApplies(w, a);
      OneMore(identity, Projected(identity, before), Projection(w, a));
    }
  }

  lemma OneMore(identity: nat, before: seq<Action>, more: seq<Action>)
    requires Run(identity, before).Some? && |more| <= 1
    requires more != [] ==> Enabled(Run(identity, before).value, more[0])
    ensures var s := Run(identity, before).value;
            Run(identity, before + more) == Some(if more == [] then s else Apply(s, more[0]))
  {
    if more == [] {
      assert before + more == before;
    } else {
      assert (before + more)[..|before + more| - 1] == before;
    }
  }

  // ---- A response that arrives twice -----------------------------------------------------------

  lemma FromStep(w: World, trace: seq<Step>, a: Step)
    requires From(w, trace).Some? && Possible(From(w, trace).value, a)
    ensures From(w, trace + [a]) == Some(Next(From(w, trace).value, a))
  {
    assert (trace + [a])[..|trace + [a]| - 1] == trace;
  }

  /**
   Whatever the handshake is by then, the session begun after a write has the keys of the response that was checked.
   */
  lemma WriteDecidesKeys(s: State, c: Checked)
    requires c.pk in s.peers
    ensures var (s', ok) := BeginSession(Written(s, c), c.pk);
            && ok && c.pk in s'.peers && s'.peers[c.pk].keypairs.current.Some?
            && (var k := s'.peers[c.pk].keypairs.current.value;
                && (k.sendKey, k.recvKey) == Kdf2(c.chainKey, Octets([])) && k.id == s.nextKeypair
                && k.localIndex == s.peers[c.pk].handshake.localIndex)
            && s'.peers[c.pk].keypairs.next == None
            && s'.peers[c.pk].handshake.localIndex == 0 && s'.nextKeypair == s.nextKeypair + 1
            && (s.peers[c.pk].keypairs.next.None? ==>
                  s'.peers[c.pk].keypairs.previous == s.peers[c.pk].keypairs.current)
  {}

  /** The current and the previous keypair are two, with the same keys. */
  predicate Twins(kps: Keypairs) {
    && kps.current.Some? && kps.previous.Some?
    && kps.current.value.id != kps.previous.value.id
    && kps.current.value.sendKey == kps.previous.value.sendKey
    && kps.current.value.recvKey == kps.previous.value.recvKey
  }

  /** Two workers check one response, and the first of them goes on to a session. */
  function OnceOfTwo(pk: PublicKey, msg: Response): seq<Step> {
    [Check(0, msg), Check(1, msg), Write(0), Atomic(ABeginSession(pk))]
  }

  function Again(pk: PublicKey): seq<Step> {
    [Write(1), Atomic(ABeginSession(pk))]
  }

  lemma BothChecked(w: World, msg: Response)
    requires Found(w.device, msg).Some? && 0 !in w.checked && 1 !in w.checked
    ensures var c := Found(w.device, msg).value;
            From(w, [Check(0, msg), Check(1, msg)]) == Some(w.(checked := w.checked[0 := c][1 := c]))
  {
    FromStep(w, [], Check(0, msg));
    FromStep(w, [] + [Check(0, msg)], Check(1, msg));
    assert [] + [Check(0, msg)] + [Check(1, msg)] == [Check(0, msg), Check(1, msg)];
  }

  /** A write, and the session that is begun after it. */
  lemma WriteAndBegin(w: World, worker: nat)
    requires worker in w.checked && w.checked[worker].pk in w.device.peers
    ensures var c := w.checked[worker];
            var w' := From(w, [Write(worker), Atomic(ABeginSession(c.pk))]);
            && w'.Some? && w'.value.device == BeginSession(Written(w.device, c), c.pk).0
            && w'.value.checked == w.checked - {worker} && w'.value.log.drawn == w.log.drawn
  {
    var begin := Atomic(ABeginSession(w.checked[worker].pk));
    FromStep(w, [], Write(worker));
    FromStep(w, [] + [Write(worker)], begin);
    assert [] + [Write(worker)] + [begin] == [Write(worker), begin];
  }

  lemma FirstSession(w: World, msg: Response)
    requires Found(w.device, msg).Some? && 0 !in w.checked && 1 !in w.checked
    ensures var c := Found(w.device, msg).value;
            var w' := From(w, OnceOfTwo(c.pk, msg));
            && w'.Some? && w'.value.device == BeginSession(Written(w.device, c), c.pk).0
            && 1 in w'.value.checked && w'.value.checked[1] == c && w'.value.log.drawn == w.log.drawn
  {
    var c := Found(w.device, msg).value;
    var w1 := w.(checked := w.checked[0 := c][1 := c]);
    var checks, rest := [Check(0, msg), Check(1, msg)], [Write(0), Atomic(ABeginSession(c.pk))];
    BothChecked(w, msg);
    WriteAndBegin(w1, 0);
    FromJoined(w, checks, rest);
    assert checks + rest == OnceOfTwo(c.pk, msg);
  }

  /** The current session is one with the keys of the response. */
  predicate HasSession(s: State, c: Checked) {
    && c.pk in s.peers
    && (var kps := s.peers[c.pk].keypairs;
        && kps.next.None? && kps.current.Some? && kps.current.value.id < s.nextKeypair
        && (kps.current.value.sendKey, kps.current.value.recvKey) == Kdf2(c.chainKey, Octets([])))
  }

  lemma SecondSession(w: World, c: Checked)
    requires 1 in w.checked && w.checked[1] == c && HasSession(w.device, c)
    ensures var w' := From(w, Again(c.pk));
            && w'.Some? && w'.value.device == BeginSession(Written(w.device, c), c.pk).0
            && c.pk in w'.value.device.peers && Twins(w'.value.device.peers[c.pk].keypairs)
            && w'.value.device.peers[c.pk].keypairs.current.value.localIndex ==
               w.device.peers[c.pk].handshake.localIndex
  {
    WriteAndBegin(w, 1);
    WriteDecidesKeys(w.device, c);
  }

  lemma {:induction false} FromJoined(w: World, trace: seq<Step>, more: seq<Step>)
    requires From(w, trace).Some? && From(From(w, trace).value, more).Some?
    ensures From(w, trace + more) == From(From(w, trace).value, more)
    decreases |more|
  {
    if more == [] {
      assert trace + more == trace;
    } else {
      var n := |more| - 1;
      FromJoined(w, trace, more[..n]);
      FromStep(w, trace + more[..n], more[n]);
      assert trace + more[..n] + [more[n]] == trace + more;
    }
  }

  /** The second session follows at once; the two keypairs differ but their keys do not, and the second has no index. */
  lemma DuplicateResponse(w: World, msg: Response)
    requires Found(w.device, msg).Some? && 0 !in w.checked && 1 !in w.checked
    ensures var pk := Found(w.device, msg).value.pk;
            var w' := From(w, OnceOfTwo(pk, msg) + Again(pk));
            && w'.Some? && pk in w'.value.device.peers
            && Twins(w'.value.device.peers[pk].keypairs)
            && w'.value.device.peers[pk].keypairs.current.value.localIndex == 0
  {
    var c := Found(w.device, msg).value;
    FirstSession(w, msg);
    WriteDecidesKeys(w.device, c);
    var w1 := From(w, OnceOfTwo(c.pk, msg)).value;
    SecondSession(w1, c);
    FromJoined(w, OnceOfTwo(c.pk, msg), Again(c.pk));
  }

  /** The response is found right, and after a session with it another initiation may be created. */
  ghost predicate MayRepeat(w: World, msg: Response, ephemeral: nat, stamp: seq<nat>, index: nat) {
    && Found(w.device, msg).Some? && 0 !in w.checked && 1 !in w.checked && |stamp| == 12
    && ephemeral !in w.log.drawn && Found(w.device, msg).value.h.localEphemeral in w.log.drawn
    && (var c := Found(w.device, msg).value; FreshIndex(BeginSession(Written(w.device, c), c.pk).0, c.pk, index))
    && Inv(w.device)
  }

  /**
   With a new initiation in between the handshake has an index again, so the table stays exact throughout; the keys are
   shared all the same. Only the ephemeral tells that the handshake is not the one that was checked.
   */
  lemma DuplicateResponseAfterInitiation(w: World, msg: Response, ephemeral: nat, stamp: seq<nat>, index: nat)
    returns (w1: World, w2: World, w3: World)
    requires MayRepeat(w, msg, ephemeral, stamp, index)
    ensures var pk := Found(w.device, msg).value.pk;
            && From(w, OnceOfTwo(pk, msg)) == Some(w1)
            && From(w1, [Atomic(ACreateInitiation(pk, ephemeral, stamp, index))]) == Some(w2)
            && From(w2, Again(pk)) == Some(w3)
    ensures ExactThroughout(w1, w2, w3) && SharedAfterChange(w2, w3, Found(w.device, msg).value)
  {
    var c := Found(w.device, msg).value;
    WaitingHasIndex(w.device, msg);
    StillHasSession(w.device, c, ephemeral, stamp, index);
    w1, w2, w3 := LateSession(w, msg, ephemeral, stamp, index);
    AnotherInitiation(w.device, c, ephemeral, stamp, index);
  }

  /** The run itself. */
  lemma LateSession(w: World, msg: Response, ephemeral: nat, stamp: seq<nat>, index: nat)
    returns (w1: World, w2: World, w3: World)
    requires Found(w.device, msg).Some? && 0 !in w.checked && 1 !in w.checked && |stamp| == 12
             && ephemeral !in w.log.drawn
    requires var c := Found(w.device, msg).value; FreshIndex(BeginSession(Written(w.device, c), c.pk).0, c.pk, index)
    requires StillSession(w.device, Found(w.device, msg).value, ephemeral, stamp, index)
    ensures var c := Found(w.device, msg).value;
            var a := ACreateInitiation(c.pk, ephemeral, stamp, index);
            && From(w, OnceOfTwo(c.pk, msg)) == Some(w1) && From(w1, [Atomic(a)]) == Some(w2)
            && From(w2, Again(c.pk)) == Some(w3) && SharedAfterChange(w2, w3, c)
            && w1.device == BeginSession(Written(w.device, c), c.pk).0
            && Enabled(w1.device, a) && w2.device == Apply(w1.device, a)
            && w3.device == BeginSession(Written(w2.device, c), c.pk).0
  {
    var c := Found(w.device, msg).value;
    FirstSession(w, msg);
    w1 := From(w, OnceOfTwo(c.pk, msg)).value;
    w2, w3 := LateWrite(w1, c, ACreateInitiation(c.pk, ephemeral, stamp, index));
  }

  lemma LateWrite(w1: World, c: Checked, a: Action) returns (w2: World, w3: World)
    requires 1 in w1.checked && w1.checked[1] == c && Possible(w1, Atomic(a)) && HasSession(Apply(w1.device, a), c)
    requires !StillWaiting(Apply(w1.device, a), c)
    ensures From(w1, [Atomic(a)]) == Some(w2) && From(w2, Again(c.pk)) == Some(w3) && SharedAfterChange(w2, w3, c)
    ensures w2.device == Apply(w1.device, a) && w3.device == BeginSession(Written(w2.device, c), c.pk).0
  {
    OneStep(w1, Atomic(a));
    w2 := Next(w1, Atomic(a));
    SecondSession(w2, c);
    w3 := From(w2, Again(c.pk)).value;
  }

  ghost predicate ExactThroughout(w1: World, w2: World, w3: World) {
    Inv(w1.device) && Inv(w2.device) && Inv(w3.device)
  }

  predicate SharedAfterChange(w2: World, w3: World, c: Checked) {
    && c.pk in w2.device.peers && !StillWaiting(w2.device, c)
    && c.pk in w3.device.peers && Twins(w3.device.peers[c.pk].keypairs)
  }

  lemma OneStep(w: World, a: Step)
    requires Possible(w, a)
    ensures From(w, [a]) == Some(Next(w, a))
  {
    FromStep(w, [], a);
    assert [] + [a] == [a];
  }

  /** The states in between, without the run. */
  lemma AnotherInitiation(s: State, c: Checked, ephemeral: nat, stamp: seq<nat>, index: nat)
    requires Inv(s) && c.pk in s.peers && c.pk.Pub? && s.peers[c.pk].handshake.localIndex != 0 && |stamp| == 12
    requires FreshIndex(BeginSession(Written(s, c), c.pk).0, c.pk, index)
    ensures var s1 := BeginSession(Written(s, c), c.pk).0;
            var s2 := CreateInitiation(s1, c.pk, ephemeral, stamp, index).0;
            Inv(s1) && Inv(s2) && Inv(BeginSession(Written(s2, c), c.pk).0)
  {
    var s1 := BeginSession(Written(s, c), c.pk).0;
    var s2 := CreateInitiation(s1, c.pk, ephemeral, stamp, index).0;
    SessionKeepsInv(s, c);
    DeviceInvariant.CreateInitiationKeeps(s1, c.pk, ephemeral, stamp, index);
    InitiationKeepsKeypairs(s1, c.pk, ephemeral, stamp, index);
    SessionKeepsInv(s2, c);
  }

  /**
   The session begun with the response is still there after a new initiation, which no longer waits for that response.
   */
  predicate StillSession(s: State, c: Checked, ephemeral: nat, stamp: seq<nat>, index: nat)
    requires c.pk in s.peers
  {
    var s2 := CreateInitiation(BeginSession(Written(s, c), c.pk).0, c.pk, ephemeral, stamp, index).0;
    HasSession(s2, c) && !StillWaiting(s2, c)
  }

  lemma StillHasSession(s: State, c: Checked, ephemeral: nat, stamp: seq<nat>, index: nat)
    requires Inv(s) && c.pk in s.peers && c.pk.Pub? && s.peers[c.pk].handshake.localIndex != 0
    requires ephemeral != c.h.localEphemeral
    ensures StillSession(s, c, ephemeral, stamp, index)
  {
    SessionKeepsInv(s, c);
    InitiationKeepsKeypairs(BeginSession(Written(s, c), c.pk).0, c.pk, ephemeral, stamp, index);
    WriteDecidesKeys(s, c);
  }

  lemma WaitingHasIndex(s: State, msg: Response)
    requires Inv(s) && Found(s, msg).Some?
    ensures var c := Found(s, msg).value; c.pk in s.peers && c.pk.Pub? && s.peers[c.pk].handshake.localIndex != 0
  {
    assert PeerHolds(s, s.table[msg.receiver].peer);
  }

  lemma SessionKeepsInv(s: State, c: Checked)
    requires Inv(s) && c.pk in s.peers && c.pk.Pub? && s.peers[c.pk].handshake.localIndex != 0
    ensures Inv(BeginSession(Written(s, c), c.pk).0)
  {
    CommitResponseKeeps(s, c.pk, c.hash, c.chainKey, c.msg.sender);
    DeviceInvariant.BeginSessionKeeps(Written(s, c), c.pk);
  }

  lemma InitiationKeepsKeypairs(s: State, pk: PublicKey, ephemeral: nat, stamp: seq<nat>, index: nat)
    requires Inv(s) && pk in s.peers && pk.Pub?
    ensures var s' := CreateInitiation(s, pk, ephemeral, stamp, index).0;
            && pk in s'.peers && s'.peers[pk].keypairs == s.peers[pk].keypairs && s'.nextKeypair == s.nextKeypair
            && s'.peers[pk].handshake.localIndex == index && s'.peers[pk].handshake.localEphemeral == ephemeral
  {}
}
