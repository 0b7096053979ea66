/**
 Session keys are fresh: over every run of a device in which each ephemeral key is drawn once, no two keypairs it
 derives share a send key or a receive key. A chain key is peeled layer by layer to find the device's own ephemeral in
 it.
 */
module KeyFreshness {
  import opened Common
  import opened Noise
  import opened Device
  import opened DeviceInvariant

  // ---- What a chain key was mixed from ---------------------------------------------------------

  /** The key a derivation started from, and what it mixed in. */
  function Under(t: Term): Term {
    if t.Hmac? && t.key.Hmac? then t.key.key else Zeros
  }

  function MixedIn(t: Term): Term {
    if t.Hmac? && t.key.Hmac? then t.key.input else Zeros
  }

  /** The initiator's ephemeral in the chain key after the first message. */
  function FirstMark(chainKey: Term): Term {
    MixedIn(Under(Under(chainKey)))
  }

  function AfterFirst(chainKey: Term): Term {
    Under(Under(Under(Under(chainKey))))
  }

  /** The responder's ephemeral in the chain key after the second message, over which that of the first still lies. */
  function SecondMark(chainKey: Term): Term {
    MixedIn(Under(Under(Under(chainKey))))
  }

  lemma FirstMessageMarks(ephemeral: Term, es: Term, ss: Term)
    ensures FirstMark(Kdf1(Kdf1(Kdf1(INITIAL_CHAIN_KEY, ephemeral), es), ss)) == ephemeral
  {}

  // ---- Runs ------------------------------------------------------------------------------------

  /** The ephemeral key a step draws. */
  function Drawn(a: Action): Option<nat> {
    match a
    case ACreateInitiation(_, ephemeral, _, _) => Some(ephemeral)
    case ACreateResponse(_, ephemeral, _) => Some(ephemeral)
    case _ => None
  }

  ghost predicate DrawnOnce(trace: seq<Action>) {
    forall i, j | 0 <= i < j < |trace| && Drawn(trace[i]).Some? :: Drawn(trace[i]) != Drawn(trace[j])
  }

  ghost function AllDrawn(trace: seq<Action>): set<nat> {
    set i | 0 <= i < |trace| && Drawn(trace[i]).Some? :: Drawn(trace[i]).value
  }

  /** The keypair a step derives. */
  function DerivedBy(s: State, a: Action): seq<Keypair> {
    if a.ABeginSession? && a.pk in s.peers
       && BeginSession(s, a.pk).1 then [Derive(s.peers[a.pk].handshake, s.nextKeypair)] else []
  }

  /** All keypairs a run derives, in order. */
  function Derived(identity: nat, trace: seq<Action>): seq<Keypair> {
    if trace == [] then []
    else
      var before := trace[..|trace| - 1];
      Derived(identity, before) + if Run(identity, before).Some? then
        DerivedBy(Run(identity, before).value, trace[|trace| - 1]) else []
  }

  // ---- Invariant -------------------------------------------------------------------------------

  /** The handshake holds an ephemeral of its own that a session may still be derived from. */
  predicate Live(h: Handshake) {
    h.state == InitiationCreated || h.state == ResponseConsumed || h.state == ResponseCreated
  }

  /** The device's own ephemeral lies where it should in the chain key. */
  predicate Marked(h: Handshake) {
    match h.state
    case InitiationCreated => FirstMark(h.chainKey) == Key(Pub(h.localEphemeral))
    case ResponseConsumed => FirstMark(AfterFirst(h.chainKey)) == Key(Pub(h.localEphemeral))
    case ResponseCreated => SecondMark(h.chainKey) == Key(Pub(h.localEphemeral))
    case _ => true
  }

  /** The device's own ephemeral in the keys of a keypair. */
  function Mark(k: Keypair): Term {
    var chainKey := Under(k.sendKey);
    if k.isInitiator then FirstMark(AfterFirst(chainKey)) else SecondMark(chainKey)
  }

  /** Which of the two derived keys is for sending. */
  predicate KeysByRole(k: Keypair) {
    var (t0, t1) := Kdf2(Under(k.sendKey), Octets([]));
    if k.isInitiator then k.sendKey == t0 && k.recvKey == t1 else k.sendKey == t1 && k.recvKey == t0
  }

  ghost predicate PeersMarked(s: State, drawn: set<nat>) {
    forall pk | pk in s.peers ::
      Marked(s.peers[pk].handshake) && (Live(s.peers[pk].handshake) ==> s.peers[pk].handshake.localEphemeral in drawn)
  }

  /** No two handshakes hold the same ephemeral. */
  ghost predicate Apart(s: State) {
    forall pk, q | pk in s.peers && q in s.peers && pk != q && Live(s.peers[pk].handshake)
                   && Live(s.peers[q].handshake) ::
      s.peers[pk].handshake.localEphemeral != s.peers[q].handshake.localEphemeral
  }

  /** No session was derived yet from an ephemeral that a handshake holds. */
  ghost predicate Unused(s: State, derived: seq<Keypair>) {
    forall pk, i | pk in s.peers && Live(s.peers[pk].handshake) && 0 <= i < |derived| ::
      Mark(derived[i]) != Key(Pub(s.peers[pk].handshake.localEphemeral))
  }

  ghost predicate FromDrawn(k: Keypair, drawn: set<nat>) {
    exists e :: e in drawn && Mark(k) == Key(Pub(e))
  }

  ghost predicate DerivedFine(derived: seq<Keypair>, drawn: set<nat>) {
    && (forall i | 0 <= i < |derived| :: KeysByRole(derived[i]) && FromDrawn(derived[i], drawn))
    && (forall i, j | 0 <= i < j < |derived| :: Mark(derived[i]) != Mark(derived[j]))
  }

  ghost predicate KeyInv(s: State, derived: seq<Keypair>, drawn: set<nat>) {
    PeersMarked(s, drawn) && Apart(s) && Unused(s, derived) && DerivedFine(derived, drawn)
  }

  /** A step on one peer keeps all this if it leaves that peer's ephemeral alone or puts in a new one. */
  lemma OnePeer(s: State, s': State, pk: PublicKey, derived: seq<Keypair>, drawn: set<nat>, drawn': set<nat>)
    requires KeyInv(s, derived, drawn) && drawn <= drawn'
    requires pk in s.peers && pk in s'.peers && s'.peers == s.peers[pk := s'.peers[pk]]
    requires Marked(s'.peers[pk].handshake)
    requires var h, h' := s.peers[pk].handshake, s'.peers[pk].handshake;
             Live(h') ==> (Live(h) && h'.localEphemeral == h.localEphemeral) || h'.localEphemeral in drawn' - drawn
    ensures KeyInv(s', derived, drawn')
  {
    var h' := s'.peers[pk].handshake;
    forall q | q in s'.peers && q != pk ensures s'.peers[q] == s.peers[q] {}
    forall i | 0 <= i < |derived| ensures Live(h') ==> Mark(derived[i]) != Key(Pub(h'.localEphemeral)) {
      assert FromDrawn(derived[i], drawn);
    }
  }

  lemma CreateInitiationMarks(s: State, pk: PublicKey, ephemeral: nat, stamp: seq<nat>, index: nat)
    requires Inv(s) && pk in s.peers
    ensures var h := CreateInitiation(s, pk, ephemeral, stamp, index).0.peers[pk].handshake;
            Marked(h) && (Live(h) ==> h.localEphemeral == ephemeral)
  {
    var h := s.peers[pk].handshake;
    if pk.Pub? {
      var es := SharedSecret(ephemeral, pk).value;
      FirstMessageMarks(Key(Pub(ephemeral)), es, h.staticStatic);
    }
  }

  lemma CreateResponseMarks(s: State, pk: PublicKey, ephemeral: nat, index: nat)
    requires pk in s.peers && Marked(s.peers[pk].handshake)
    ensures var (s', msg) := CreateResponse(s, pk, ephemeral, index);
            var h := s'.peers[pk].handshake;
            Marked(h) && (Live(h) ==> h.localEphemeral == ephemeral || h == s.peers[pk].handshake)
  {}

  lemma CheckedMarks(identity: nat, h: Handshake, msg: Response)
    requires Marked(h) && CheckResponse(identity, h, msg).Some?
    ensures FirstMark(AfterFirst(CheckResponse(identity, h, msg).value.1)) == Key(Pub(h.localEphemeral))
  {}

  /** Steps that put in no ephemeral and consume no message. */
  predicate Plain(a: Action) {
    a.AReceive? || a.AZeroAndFlushAll? || a.AExpire? || a.AStart? || a.AStop?
  }

  lemma PlainStep(s: State, a: Action)
    requires Enabled(s, a) && Plain(a)
    ensures var s' := Apply(s, a);
            && a.pk in s'.peers && s'.peers == s.peers[a.pk := s'.peers[a.pk]]
            && (var h, h' := s.peers[a.pk].handshake, s'.peers[a.pk].handshake; h' == h || h'.state == Zeroed)
  {}

  lemma PlainKeeps(s: State, a: Action, derived: seq<Keypair>, drawn: set<nat>)
    requires KeyInv(s, derived, drawn) && Enabled(s, a) && Plain(a)
    ensures KeyInv(Apply(s, a), derived, drawn)
  {
    PlainStep(s, a);
    OnePeer(s, Apply(s, a), a.pk, derived, drawn, drawn);
  }

  lemma CreateInitiationKeeps(s: State, pk: PublicKey, ephemeral: nat, stamp: seq<nat>, index: nat,
                              derived: seq<Keypair>, drawn: set<nat>)
    requires Inv(s) && KeyInv(s, derived, drawn) && pk in s.peers && ephemeral !in drawn
    ensures KeyInv(CreateInitiation(s, pk, ephemeral, stamp, index).0, derived, drawn + {ephemeral})
  {
    CreateInitiationMarks(s, pk, ephemeral, stamp, index);
    OnePeer(s, CreateInitiation(s, pk, ephemeral, stamp, index).0, pk, derived, drawn, drawn + {ephemeral});
  }

  lemma CreateResponseKeeps(s: State, pk: PublicKey, ephemeral: nat, index: nat, derived: seq<Keypair>, drawn: set<nat>)
    requires KeyInv(s, derived, drawn) && pk in s.peers && ephemeral !in drawn
    ensures KeyInv(CreateResponse(s, pk, ephemeral, index).0, derived, drawn + {ephemeral})
  {
    CreateResponseMarks(s, pk, ephemeral, index);
    OnePeer(s, CreateResponse(s, pk, ephemeral, index).0, pk, derived, drawn, drawn + {ephemeral});
  }

  lemma ConsumeInitiationKeeps(s: State, msg: Initiation, now: nat, derived: seq<Keypair>, drawn: set<nat>)
    requires KeyInv(s, derived, drawn)
    ensures KeyInv(ConsumeInitiation(s, msg, now).0, derived, drawn)
  {
    var (s', from) := ConsumeInitiation(s, msg, now);
    if from.Some? {
      OnePeer(s, s', from.value, derived, drawn, drawn);
    }
  }

  function DrawnAfter(drawn: set<nat>, a: Action): set<nat> {
    if Drawn(a).Some? then drawn + {Drawn(a).value} else drawn
  }

  /** Every step but a derivation touches one peer, and draws the ephemeral it puts in. */
  lemma StepKeeps(s: State, a: Action, derived: seq<Keypair>, drawn: set<nat>)
    requires Inv(s) && KeyInv(s, derived, drawn) && Enabled(s, a) && !a.ABeginSession?
    requires Drawn(a).Some? ==> Drawn(a).value !in drawn
    ensures KeyInv(Apply(s, a), derived, DrawnAfter(drawn, a))
  {
    match a
    case ANewPeer(pk, psk) => NewPeerKeeps(s, pk, psk, derived, drawn);
    case ACreateInitiation(pk, ephemeral, stamp, index) =>
      CreateInitiationKeeps(s, pk, ephemeral, stamp, index, derived, drawn);
    case ACreateResponse(pk, ephemeral, index) => CreateResponseKeeps(s, pk, ephemeral, index, derived, drawn);
    case AConsumeInitiation(msg, now) => ConsumeInitiationKeeps(s, msg, now, derived, drawn);
    case AConsumeResponse(msg) => ConsumeResponseKeeps(s, msg, derived, drawn);
    case _ => PlainKeeps(s, a, derived, drawn);
  }

  lemma NewPeerKeeps(s: State, pk: PublicKey, psk: Term, derived: seq<Keypair>, drawn: set<nat>)
    requires KeyInv(s, derived, drawn)
    ensures KeyInv(NewPeer(s, pk, psk), derived, drawn)
  {}

  lemma ConsumeResponseKeeps(s: State, msg: Response, derived: seq<Keypair>, drawn: set<nat>)
    requires KeyInv(s, derived, drawn)
    ensures KeyInv(ConsumeResponse(s, msg).0, derived, drawn)
  {
    var (s', from) := ConsumeResponse(s, msg);
    if from.Some? {
      var pk := s.table[msg.receiver].handshake.value;
      CheckedMarks(s.identity, s.peers[pk].handshake, msg);
      OnePeer(s, s', pk, derived, drawn, drawn);
    }
  }

  lemma DeriveMarks(h: Handshake, id: nat)
    requires Marked(h) && (h.state == ResponseConsumed || h.state == ResponseCreated)
    ensures var k := Derive(h, id);
            KeysByRole(k) && Under(k.sendKey) == h.chainKey && Mark(k) == Key(Pub(h.localEphemeral))
  {}

  lemma BeginSessionKeeps(s: State, pk: PublicKey, derived: seq<Keypair>, drawn: set<nat>)
    requires KeyInv(s, derived, drawn) && pk in s.peers
    ensures KeyInv(BeginSession(s, pk).0, derived + DerivedBy(s, ABeginSession(pk)), drawn)
  {
    var (s', ok) := BeginSession(s, pk);
    var h := s.peers[pk].handshake;
    if ok {
      var k := Derive(h, s.nextKeypair);
      DeriveMarks(h, s.nextKeypair);
      OnePeer(s, s', pk, derived, drawn, drawn);
      assert FromDrawn(k, drawn);
      var derived' := derived + [k];
      forall q, i | q in s'.peers && Live(s'.peers[q].handshake) && 0 <= i < |derived'|
        ensures Mark(derived'[i]) != Key(Pub(s'.peers[q].handshake.localEphemeral))
      {
        assert s'.peers[q] == s.peers[q] && q != pk;
      }
    } else {
      assert derived + [] == derived;
    }
  }

  lemma {:induction false} EveryRunIsFresh(identity: nat, trace: seq<Action>)
    requires Run(identity, trace).Some? && DrawnOnce(trace)
    ensures KeyInv(Run(identity, trace).value, Derived(identity, trace), AllDrawn(trace))
  {
    if trace != [] {
      var n := |trace| - 1;
      var before, a := trace[..n], trace[n];
      EveryRunIsFresh(identity, before);
      EveryRun(identity, before);
      var s := Run(identity, before).value;
      DrawnStep(trace);
      if a.ABeginSession? {
        BeginSessionKeeps(s, a.pk, Derived(identity, before), AllDrawn(before));
      } else {
        StepKeeps(s, a, Derived(identity, before), AllDrawn(before));
        assert Derived(identity, before) + [] == Derived(identity, before);
      }
    }
  }

  lemma DrawnStep(trace: seq<Action>)
    requires trace != [] && DrawnOnce(trace)
    ensures var (before, a) := (trace[..|trace| - 1], trace[|trace| - 1]);
            && AllDrawn(trace) == DrawnAfter(AllDrawn(before), a)
            && (Drawn(a).Some? ==> Drawn(a).value !in AllDrawn(before))
            && DrawnOnce(before)
  {
    var before, a := trace[..|trace| - 1], trace[|trace| - 1];
    forall e | e in AllDrawn(trace) ensures e in DrawnAfter(AllDrawn(before), a) {
      var i :| 0 <= i < |trace| && Drawn(trace[i]) == Some(e);
      if i < |before| {
        assert Drawn(before[i]) == Some(e);
      }
    }
    forall e | e in AllDrawn(before) ensures e in AllDrawn(trace) {
      var i :| 0 <= i < |before| && Drawn(before[i]) == Some(e);
      assert Drawn(trace[i]) == Some(e);
    }
    if Drawn(a).Some? {
      assert Drawn(trace[|trace| - 1]).value in AllDrawn(trace);
    }
  }

  // ---- What it is for --------------------------------------------------------------------------

  ghost predicate DistinctKeys(derived: seq<Keypair>) {
    forall i, j | 0 <= i < j < |derived| ::
      derived[i].sendKey != derived[j].sendKey && derived[i].recvKey != derived[j].recvKey
  }

  /**
   Over every run that draws each ephemeral once, the keypairs derived have pairwise distinct send keys and receive
   keys.
   */
  lemma DerivedKeysDistinct(identity: nat, trace: seq<Action>)
    requires Run(identity, trace).Some? && DrawnOnce(trace)
    ensures DistinctKeys(Derived(identity, trace))
  {
    EveryRunIsFresh(identity, trace);
    var derived := Derived(identity, trace);
    forall i, j | 0 <= i < j < |derived|
      ensures derived[i].sendKey != derived[j].sendKey && derived[i].recvKey != derived[j].recvKey
    {
      MarksTellKeysApart(derived[i], derived[j]);
    }
  }

  lemma MarksTellKeysApart(k: Keypair, k': Keypair)
    requires KeysByRole(k) && KeysByRole(k') && Mark(k) != Mark(k')
    ensures k.sendKey != k'.sendKey && k.recvKey != k'.recvKey
  {}

  /** Keypairs are numbered in the order they are derived, and a peer's slots hold only derived ones. */
  ghost predicate Numbered(s: State, derived: seq<Keypair>) {
    && s.nextKeypair == |derived|
    && (forall i | 0 <= i < |derived| :: derived[i].id == i)
    && (forall pk, k | pk in s.peers && k in Slots(s.peers[pk]) :: k in derived)
  }

  lemma {:induction false} SlotsHoldDerived(identity: nat, trace: seq<Action>)
    requires Run(identity, trace).Some?
    ensures Numbered(Run(identity, trace).value, Derived(identity, trace))
  {
    if trace != [] {
      var before, a := trace[..|trace| - 1], trace[|trace| - 1];
      SlotsHoldDerived(identity, before);
      var s := Run(identity, before).value;
      SlotsStep(s, a);
      NumberedStep(s, Apply(s, a), Derived(identity, before), DerivedBy(s, a));
    }
  }

  /** At most one new keypair, with the next number; the slots hold nothing else that is new. */
  ghost predicate Adds(s: State, s': State, new': seq<Keypair>) {
    && |new'| <= 1 && s'.nextKeypair == s.nextKeypair + |new'|
    && (forall k | k in new' :: k.id == s.nextKeypair)
    && (forall pk, k | pk in s'.peers && k in Slots(s'.peers[pk]) ::
          k in new' || (pk in s.peers && k in Slots(s.peers[pk])))
  }

  lemma NumberedStep(s: State, s': State, derived: seq<Keypair>, new': seq<Keypair>)
    requires Numbered(s, derived) && Adds(s, s', new')
    ensures Numbered(s', derived + new')
  {
    forall i | 0 <= i < |derived + new'| ensures (derived + new')[i].id == i {
      assert i >= |derived| ==> (derived + new')[i] == new'[0] && new'[0] in new';
    }
  }

  lemma BeginSessionAdds(s: State, pk: PublicKey)
    requires pk in s.peers
    ensures Adds(s, BeginSession(s, pk).0, DerivedBy(s, ABeginSession(pk)))
  {}

  lemma SlotsStep(s: State, a: Action)
    requires Enabled(s, a)
    ensures Adds(s, Apply(s, a), DerivedBy(s, a))
  {
    if a.ABeginSession? {
      BeginSessionAdds(s, a.pk);
    } else {
      var s' := Apply(s, a);
      SlotsShrink(s, a);
      assert DerivedBy(s, a) == [];
    }
  }

  /** A peer's keypairs after a step are those it had, but for a packet that promotes one and for zeroing. */
  lemma KeypairsStep(s: State, a: Action, pk: PublicKey)
    requires Enabled(s, a) && !a.ABeginSession? && pk in Apply(s, a).peers
    ensures var kps' := Apply(s, a).peers[pk].keypairs;
            || kps' == Keypairs(None, None, None)
            || (pk in s.peers && kps' == s.peers[pk].keypairs)
            || (pk in s.peers && kps' == Keypairs(s.peers[pk].keypairs.next, s.peers[pk].keypairs.current, None))
  {
    match a
    case ANewPeer(_, _) =>
    case ACreateInitiation(_, _, _, _) =>
    case AConsumeInitiation(_, _) =>
    case ACreateResponse(_, _, _) =>
    case AConsumeResponse(_) =>
    case AReceive(_, _, _, _, _) =>
    case AZeroAndFlushAll(_) =>
    case AExpire(_) =>
    case AStart(_) =>
    case AStop(_) =>
  }

  lemma SlotsShrink(s: State, a: Action)
    requires Enabled(s, a) && !a.ABeginSession?
    ensures var s' := Apply(s, a);
            s'.nextKeypair == s.nextKeypair && forall pk, k | pk in s'.peers && k in Slots(s'.peers[pk]) ::
              pk in s.peers && k in Slots(s.peers[pk])
  {
    forall pk | pk in Apply(s, a).peers
      ensures forall k | k in Slots(Apply(s, a).peers[pk]) :: pk in s.peers && k in Slots(s.peers[pk])
    {
      KeypairsStep(s, a, pk);
    }
    CountStep(s, a);
  }

  lemma CountStep(s: State, a: Action)
    requires Enabled(s, a) && !a.ABeginSession?
    ensures Apply(s, a).nextKeypair == s.nextKeypair
  {}
}
