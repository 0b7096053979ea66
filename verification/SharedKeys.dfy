/**
 When two sessions share a key, over every run of internal/transport/noise-protocol.go with its checks and writes apart
 and each ephemeral key drawn once: exactly when both follow writes of one response to one initiation.
 */
module SharedKeys {
  import opened Common
  import opened Noise
  import opened Device
  import opened KeyFreshness
  import opened SplitHandshake

  // ---- What is known of responses and sessions -------------------------------------------------

  /** The response was checked against a handshake as its initiation left it. */
  ghost predicate Known(identity: nat, log: Log, c: Checked) {
    && c.pk.Pub? && c.h.localEphemeral in log.born
    && log.born[c.h.localEphemeral].pk == c.pk && SameForCheck(c.h, log.born[c.h.localEphemeral].h)
    && Marked(c.h) && CheckResponse(identity, c.h, c.msg) == Some((c.hash, c.chainKey))
  }

  /** The ephemeral that a responder put into the keys of a session. */
  function Own(k: Keypair): Term {
    SecondMark(Under(k.sendKey))
  }

  ghost predicate OwnDrawn(k: Keypair, drawn: set<nat>) {
    exists e :: e in drawn && Own(k) == Key(Pub(e))
  }

  /** A session has the keys of the response it was derived from, or else of an ephemeral that this device drew. */
  ghost predicate SessionFine(identity: nat, log: Log, k: Keypair, cause: Option<Checked>) {
    if cause.Some? then
      Known(identity, log, cause.value) && (k.sendKey, k.recvKey) == Kdf2(cause.value.chainKey, Octets([]))
    else
      OwnDrawn(k, log.drawn) && (k.recvKey, k.sendKey) == Kdf2(Under(k.sendKey), Octets([]))
  }

  ghost predicate SessionsFine(identity: nat, log: Log) {
    && |log.causes| == |log.derived|
    && (forall i | 0 <= i < |log.derived| :: SessionFine(identity, log, log.derived[i], log.causes[i]))
    && (forall i, j | 0 <= i < j < |log.derived| && log.causes[i].None? && log.causes[j].None? ::
          Own(log.derived[i]) != Own(log.derived[j]))
  }

  ghost predicate SourcesFine(identity: nat, log: Log) {
    forall pk | pk in log.source :: Known(identity, log, log.source[pk])
  }

  /** No session was answered with this ephemeral yet. */
  ghost predicate Unanswered(log: Log, ephemeral: nat)
    requires |log.causes| == |log.derived|
  {
    forall i | 0 <= i < |log.derived| && log.causes[i].None? :: Own(log.derived[i]) != Key(Pub(ephemeral))
  }

  ghost predicate Answers(log: Log, h: Handshake)
    requires |log.causes| == |log.derived|
  {
    && SecondMark(h.chainKey) == Key(Pub(h.localEphemeral)) && h.localEphemeral in log.drawn
    && Unanswered(log, h.localEphemeral)
  }

  ghost predicate Waits(log: Log, pk: PublicKey, h: Handshake) {
    && Marked(h) && h.localEphemeral in log.born
    && log.born[h.localEphemeral].pk == pk && SameForCheck(h, log.born[h.localEphemeral].h)
  }

  /** A handshake in each of its states. */
  ghost predicate PeerTraced(identity: nat, log: Log, pk: PublicKey, h: Handshake)
    requires |log.causes| == |log.derived|
  {
    && h.remoteStatic == pk && h.staticStatic == StaticStatic(identity, pk)
    && (h.state != Zeroed ==> pk.Pub?)
    && (h.state == InitiationCreated ==> Waits(log, pk, h))
    && (h.state == ResponseConsumed ==> pk in log.source && h.chainKey == log.source[pk].chainKey)
    && (h.state == ResponseCreated ==> Answers(log, h))
  }

  ghost predicate PeersTraced(s: State, log: Log)
    requires |log.causes| == |log.derived|
  {
    forall pk | pk in s.peers :: PeerTraced(s.identity, log, pk, s.peers[pk].handshake)
  }

  /** No two handshakes answer with the same ephemeral. */
  ghost predicate AnswersApart(s: State) {
    forall pk, q | pk in s.peers && q in s.peers && pk != q
                   && s.peers[pk].handshake.state == ResponseCreated && s.peers[q].handshake.state == ResponseCreated ::
      s.peers[pk].handshake.localEphemeral != s.peers[q].handshake.localEphemeral
  }

  ghost predicate LogFine(identity: nat, log: Log) {
    SessionsFine(identity, log) && SourcesFine(identity, log) && forall e | e in log.born :: e in log.drawn
  }

  ghost predicate WorkersFine(w: World) {
    && (forall k | k in w.checked :: Known(w.device.identity, w.log, w.checked[k]))
    && (forall k | k in w.tested :: w.tested[k].pk.Pub?)
  }

  ghost predicate Traced(w: World) {
    LogFine(w.device.identity, w.log) && PeersTraced(w.device, w.log) && AnswersApart(w.device) && WorkersFine(w)
  }

  // ---- Two sessions ----------------------------------------------------------------------------

  /** Both follow a write of a response with the same ephemeral to an initiation with the same ephemeral. */
  predicate SameResponse(cause: Option<Checked>, cause': Option<Checked>) {
    && cause.Some? && cause'.Some?
    && cause.value.h.localEphemeral == cause'.value.h.localEphemeral
    && cause.value.msg.ephemeral == cause'.value.msg.ephemeral
  }

  /** The chain key tells both ephemerals. */
  lemma CheckedKey(identity: nat, h: Handshake, msg: Response)
    requires Marked(h) && CheckResponse(identity, h, msg).Some?
    ensures var ck := CheckResponse(identity, h, msg).value.1;
            FirstMark(AfterFirst(ck)) == Key(Pub(h.localEphemeral)) && SecondMark(ck) == Key(msg.ephemeral)
  {}

  /** The two ephemerals decide the rest: chain key, tag and peer. */
  lemma SameEphemerals(identity: nat, log: Log, c: Checked, c': Checked)
    requires Known(identity, log, c) && Known(identity, log, c')
    requires c.h.localEphemeral == c'.h.localEphemeral && c.msg.ephemeral == c'.msg.ephemeral
    ensures c.chainKey == c'.chainKey && c.msg.empty == c'.msg.empty && c.pk == c'.pk
  {}

  lemma KeysOfTwo(identity: nat, log: Log, k: Keypair, cause: Option<Checked>, k': Keypair, cause': Option<Checked>)
    requires SessionFine(identity, log, k, cause) && SessionFine(identity, log, k', cause')
    requires cause.None? && cause'.None? ==> Own(k) != Own(k')
    ensures k.sendKey == k'.sendKey <==> SameResponse(cause, cause')
    ensures k.recvKey == k'.recvKey <==> SameResponse(cause, cause')
  {
    if cause.Some? && cause'.Some? {
      var c, c' := cause.value, cause'.value;
      CheckedKey(identity, c.h, c.msg);
      CheckedKey(identity, c'.h, c'.msg);
      if SameResponse(cause, cause') {
        SameEphemerals(identity, log, c, c');
      }
    }
  }

  // ---- Every step keeps this -------------------------------------------------------------------

  /** Nothing that was noted of ephemerals is lost. */
  ghost predicate Grows(log: Log, log': Log) {
    log.drawn <= log'.drawn && forall e | e in log.born :: e in log'.born && log'.born[e] == log.born[e]
  }

  lemma KnownGrows(identity: nat, log: Log, log': Log, c: Checked)
    requires Known(identity, log, c) && Grows(log, log')
    ensures Known(identity, log', c)
  {}

  lemma SessionGrows(identity: nat, log: Log, log': Log, k: Keypair, cause: Option<Checked>)
    requires SessionFine(identity, log, k, cause) && Grows(log, log')
    ensures SessionFine(identity, log', k, cause)
  {
    if cause.None? {
      var e :| e in log.drawn && Own(k) == Key(Pub(e));
      assert e in log'.drawn;
    }
  }

  /** Only ephemerals are added. */
  lemma LogGrows(identity: nat, log: Log, log': Log)
    requires LogFine(identity, log) && Grows(log, log') && forall e | e in log'.born :: e in log'.drawn
    requires log'.source == log.source && log'.derived == log.derived && log'.causes == log.causes
    ensures LogFine(identity, log')
  {
    forall i | 0 <= i < |log'.derived| ensures SessionFine(identity, log', log'.derived[i], log'.causes[i]) {
      SessionGrows(identity, log, log', log.derived[i], log.causes[i]);
    }
    forall pk | pk in log'.source ensures Known(identity, log', log'.source[pk]) {
      KnownGrows(identity, log, log', log.source[pk]);
    }
  }

  lemma WorkersGrow(w: World, w': World)
    requires WorkersFine(w) && Grows(w.log, w'.log) && w'.device.identity == w.device.identity
    requires forall k | k in w'.checked :: k in w.checked && w.checked[k] == w'.checked[k]
    requires forall k | k in w'.tested :: k in w.tested && w.tested[k] == w'.tested[k]
    ensures WorkersFine(w')
  {
    forall k | k in w'.checked ensures Known(w'.device.identity, w'.log, w'.checked[k]) {
      KnownGrows(w.device.identity, w.log, w'.log, w'.checked[k]);
    }
  }

  /** A handshake that does not change, while another may be written to. */
  lemma OtherPeer(identity: nat, log: Log, log': Log, pk: PublicKey, h: Handshake)
    requires |log.causes| == |log.derived| && PeerTraced(identity, log, pk, h) && Grows(log, log')
    requires log'.derived == log.derived && log'.causes == log.causes
    requires pk in log.source ==> pk in log'.source && log'.source[pk] == log.source[pk]
    ensures PeerTraced(identity, log', pk, h)
  {}

  /** A step on one peer that derives nothing; an ephemeral it answers with is a new one. */
  lemma OnePeer(s: State, s': State, log: Log, log': Log, pk: PublicKey)
    requires |log.causes| == |log.derived| && PeersTraced(s, log) && AnswersApart(s) && Grows(log, log')
    requires log'.derived == log.derived && log'.causes == log.causes
    requires forall q | q in log.source && q != pk :: q in log'.source && log'.source[q] == log.source[q]
    requires s'.identity == s.identity && pk in s'.peers && s'.peers == s.peers[pk := s'.peers[pk]]
    requires PeerTraced(s.identity, log', pk, s'.peers[pk].handshake)
    requires s'.peers[pk].handshake.state == ResponseCreated ==>
               (pk in s.peers && s'.peers[pk].handshake == s.peers[pk].handshake)
               || s'.peers[pk].handshake.localEphemeral !in log.drawn
    ensures PeersTraced(s', log') && AnswersApart(s')
  {
    forall q | q in s'.peers && q != pk ensures q in s.peers && s'.peers[q] == s.peers[q] {}
    forall q | q in s'.peers ensures PeerTraced(s'.identity, log', q, s'.peers[q].handshake) {
      if q != pk {
        OtherPeer(s.identity, log, log', q, s.peers[q].handshake);
      }
    }
  }

  // ---- Creating messages -----------------------------------------------------------------------

  lemma InitiateTraced(identity: nat, log: Log, pk: PublicKey, h: Handshake, ephemeral: nat, stamp: seq<nat>,
                       index: nat)
    requires |log.causes| == |log.derived| && PeerTraced(identity, log, pk, h) && ephemeral !in log.drawn
    ensures var (h', msg) := Initiate(identity, h, ephemeral, stamp, index);
            var log1 := log.(drawn := log.drawn + {ephemeral});
            var log' := if msg.Some? then log1.(born := log.born[ephemeral := Born(pk, h')]) else log1;
            PeerTraced(identity, log', pk, h') && (msg.Some? ==> h'.state == InitiationCreated)
            && (msg.None? ==> h'.state == h.state == Zeroed)
  {
    if pk.Pub? {
      FirstMessageMarks(Key(Pub(ephemeral)), SharedSecret(ephemeral, pk).value, h.staticStatic);
    }
  }

  lemma CreateInitiationTraced(w: World, a: Action)
    requires Traced(w) && Possible(w, Atomic(a)) && a.ACreateInitiation?
    ensures Traced(Next(w, Atomic(a)))
  {
    var s, w' := w.device, Next(w, Atomic(a));
    assert PeerTraced(s.identity, w.log, a.pk, s.peers[a.pk].handshake);
    InitiateTraced(s.identity, w.log, a.pk, s.peers[a.pk].handshake, a.ephemeral, a.stamp, a.index);
    LogGrows(s.identity, w.log, w'.log);
    WorkersGrow(w, w');
    OnePeer(s, w'.device, w.log, w'.log, a.pk);
  }

  lemma NewIsUnanswered(identity: nat, log: Log, ephemeral: nat)
    requires SessionsFine(identity, log) && ephemeral !in log.drawn
    ensures Unanswered(log, ephemeral)
  {
    forall i | 0 <= i < |log.derived| && log.causes[i].None? ensures Own(log.derived[i]) != Key(Pub(ephemeral)) {
      assert SessionFine(identity, log, log.derived[i], log.causes[i]);
    }
  }

  lemma RespondTraced(identity: nat, log: Log, pk: PublicKey, h: Handshake, ephemeral: nat, index: nat)
    requires |log.causes| == |log.derived| && PeerTraced(identity, log, pk, h) && Unanswered(log, ephemeral)
    requires h.state == InitiationConsumed
    ensures var (h', msg) := Respond(h, ephemeral, index);
            && PeerTraced(identity, log.(drawn := log.drawn + {ephemeral}), pk, h')
            && (h'.state == ResponseCreated ==> h'.localEphemeral == ephemeral)
  {}

  lemma CreateResponseTraced(w: World, a: Action)
    requires Traced(w) && Possible(w, Atomic(a)) && a.ACreateResponse?
    ensures Traced(Next(w, Atomic(a)))
  {
    var s, w' := w.device, Next(w, Atomic(a));
    var h := s.peers[a.pk].handshake;
    LogGrows(s.identity, w.log, w'.log);
    WorkersGrow(w, w');
    assert PeerTraced(s.identity, w.log, a.pk, h);
    if h.state == InitiationConsumed {
      NewIsUnanswered(s.identity, w.log, a.ephemeral);
      RespondTraced(s.identity, w.log, a.pk, h, a.ephemeral, a.index);
    } else {
      OtherPeer(s.identity, w.log, w'.log, a.pk, h);
    }
    OnePeer(s, w'.device, w.log, w'.log, a.pk);
  }

  // ---- Sessions --------------------------------------------------------------------------------

  lemma DeriveTraced(identity: nat, log: Log, pk: PublicKey, h: Handshake, id: nat)
    requires LogFine(identity, log) && PeerTraced(identity, log, pk, h)
    requires h.state == ResponseConsumed || h.state == ResponseCreated
    ensures var cause := if h.state == ResponseConsumed then Some(log.source[pk]) else None;
            SessionFine(identity, log, Derive(h, id), cause)
            && (cause.None? ==> Own(Derive(h, id)) == Key(Pub(h.localEphemeral)))
  {
    if h.state == ResponseCreated {
      assert h.localEphemeral in log.drawn && Own(Derive(h, id)) == Key(Pub(h.localEphemeral));
    }
  }

  lemma AddSession(identity: nat, log: Log, k: Keypair, cause: Option<Checked>)
    requires LogFine(identity, log) && SessionFine(identity, log, k, cause)
    requires cause.None? ==> forall i | 0 <= i < |log.derived| && log.causes[i].None? :: Own(log.derived[i]) != Own(k)
    ensures LogFine(identity, log.(derived := log.derived + [k], causes := log.causes + [cause]))
  {
    var log' := log.(derived := log.derived + [k], causes := log.causes + [cause]);
    forall i | 0 <= i < |log'.derived| ensures SessionFine(identity, log', log'.derived[i], log'.causes[i]) {
      if i < |log.derived| {
        SessionGrows(identity, log, log', log.derived[i], log.causes[i]);
      } else {
        SessionGrows(identity, log, log', k, cause);
      }
    }
    forall pk | pk in log'.source ensures Known(identity, log', log'.source[pk]) {
      KnownGrows(identity, log, log', log.source[pk]);
    }
  }

  /** A handshake of another peer: what it answers with is not what the new session was answered with. */
  lemma OtherAfterSession(identity: nat, log: Log, q: PublicKey, h: Handshake, k: Keypair, cause: Option<Checked>)
    requires |log.causes| == |log.derived| && PeerTraced(identity, log, q, h)
    requires h.state == ResponseCreated && cause.None? ==> Own(k) != Key(Pub(h.localEphemeral))
    ensures PeerTraced(identity, log.(derived := log.derived + [k], causes := log.causes + [cause]), q, h)
  {}

  lemma PeersAfterSession(s: State, s': State, log: Log, pk: PublicKey, k: Keypair, cause: Option<Checked>)
    requires |log.causes| == |log.derived| && PeersTraced(s, log) && AnswersApart(s) && pk in s.peers
    requires s'.identity == s.identity && pk in s'.peers && s'.peers == s.peers[pk := s'.peers[pk]]
    requires var (h, h') := (s.peers[pk].handshake, s'.peers[pk].handshake);
             && h'.state == Zeroed && h'.remoteStatic == h.remoteStatic && h'.staticStatic == h.staticStatic
             && (cause.None? ==> h.state == ResponseCreated && Own(k) == Key(Pub(h.localEphemeral)))
    ensures PeersTraced(s', log.(derived := log.derived + [k], causes := log.causes + [cause])) && AnswersApart(s')
  {
    var log' := log.(derived := log.derived + [k], causes := log.causes + [cause]);
    assert PeerTraced(s.identity, log, pk, s.peers[pk].handshake);
    forall q | q in s'.peers && q != pk ensures q in s.peers && s'.peers[q] == s.peers[q] {}
    forall q | q in s'.peers ensures PeerTraced(s.identity, log', q, s'.peers[q].handshake) {
      if q != pk {
        OtherAfterSession(s.identity, log, q, s.peers[q].handshake, k, cause);
      }
    }
  }

  lemma BeginSessionTraced(w: World, a: Action)
    requires Traced(w) && Possible(w, Atomic(a)) && a.ABeginSession?
    ensures Traced(Next(w, Atomic(a)))
  {
    var s, w', pk := w.device, Next(w, Atomic(a)), a.pk;
    var h := s.peers[pk].handshake;
    assert PeerTraced(s.identity, w.log, pk, h);
    if BeginSession(s, pk).1 {
      var k := Derive(h, s.nextKeypair);
      var cause := if h.state == ResponseConsumed then Some(w.log.source[pk]) else None;
      DeriveTraced(s.identity, w.log, pk, h, s.nextKeypair);
      AddSession(s.identity, w.log, k, cause);
      assert w'.log == w.log.(derived := w.log.derived + [k], causes := w.log.causes + [cause]);
      PeersAfterSession(s, w'.device, w.log, pk, k, cause);
      WorkersGrow(w, w');
    }
  }

  // ---- The other steps -------------------------------------------------------------------------

  lemma PlainTraced(w: World, a: Action)
    requires Traced(w) && Possible(w, Atomic(a)) && Plain(a)
    ensures Traced(Next(w, Atomic(a)))
  {
    var s, w' := w.device, Next(w, Atomic(a));
    PlainStep(s, a);
    PlainKeepsKeys(s, a);
    assert PeerTraced(s.identity, w.log, a.pk, s.peers[a.pk].handshake);
    OnePeer(s, w'.device, w.log, w'.log, a.pk);
  }

  lemma PlainKeepsKeys(s: State, a: Action)
    requires Enabled(s, a) && Plain(a)
    ensures var (h, s') := (s.peers[a.pk].handshake, Apply(s, a));
            && s'.identity == s.identity && a.pk in s'.peers
            && s'.peers[a.pk].handshake.remoteStatic == h.remoteStatic
            && s'.peers[a.pk].handshake.staticStatic == h.staticStatic
  {}

  lemma NewPeerTraced(w: World, a: Action)
    requires Traced(w) && Possible(w, Atomic(a)) && a.ANewPeer?
    ensures Traced(Next(w, Atomic(a)))
  {
    var s, w' := w.device, Next(w, Atomic(a));
    if w'.device != s {
      OnePeer(s, w'.device, w.log, w'.log, a.newPk);
    }
  }

  lemma CheckTraced(w: World, worker: nat, msg: Response)
    requires Traced(w) && Possible(w, Check(worker, msg))
    ensures Traced(Next(w, Check(worker, msg)))
  {
    var c := Found(w.device, msg);
    if c.Some? {
      assert PeerTraced(w.device.identity, w.log, c.value.pk, w.device.peers[c.value.pk].handshake);
      assert Known(w.device.identity, w.log, c.value);
    }
  }

  lemma TestTraced(w: World, worker: nat, msg: Initiation, now: nat)
    requires Traced(w) && Possible(w, Test(worker, msg, now))
    ensures Traced(Next(w, Test(worker, msg, now)))
  {
    var t := Seen(w.device, msg, now);
    if t.Some? {
      assert PeerTraced(w.device.identity, w.log, t.value.pk, w.device.peers[t.value.pk].handshake);
    }
  }

  function WithSource(log: Log, c: Checked): Log {
    log.(source := log.source[c.pk := c])
  }

  lemma SourcesWritten(identity: nat, log: Log, c: Checked, pk: PublicKey)
    requires SourcesFine(identity, log) && Known(identity, log, c) && pk in WithSource(log, c).source
    ensures Known(identity, WithSource(log, c), WithSource(log, c).source[pk])
  {
    KnownGrows(identity, log, WithSource(log, c), if pk == c.pk then c else log.source[pk]);
  }

  lemma SessionsWritten(identity: nat, log: Log, c: Checked)
    requires SessionsFine(identity, log)
    ensures SessionsFine(identity, WithSource(log, c))
  {
    forall i | 0 <= i < |log.derived| ensures SessionFine(identity, WithSource(log, c), log.derived[i], log.causes[i]) {
      SessionGrows(identity, log, WithSource(log, c), log.derived[i], log.causes[i]);
    }
  }

  lemma SourceWritten(identity: nat, log: Log, c: Checked)
    requires LogFine(identity, log) && Known(identity, log, c)
    ensures LogFine(identity, WithSource(log, c))
  {
    SessionsWritten(identity, log, c);
    forall pk | pk in WithSource(log, c).source {
      SourcesWritten(identity, log, c, pk);
    }
  }

  lemma WrittenTraced(identity: nat, log: Log, h: Handshake, c: Checked)
    requires |log.causes| == |log.derived| && PeerTraced(identity, log, c.pk, h) && c.pk.Pub?
    ensures PeerTraced(identity, WithSource(log, c), c.pk,
                       h.(state := ResponseConsumed, hash := c.hash, chainKey := c.chainKey,
                       remoteIndex := c.msg.sender))
  {}

  lemma PeersWritten(s: State, log: Log, c: Checked)
    requires |log.causes| == |log.derived| && PeersTraced(s, log) && AnswersApart(s) && c.pk in s.peers && c.pk.Pub?
    ensures PeersTraced(Written(s, c), WithSource(log, c)) && AnswersApart(Written(s, c))
  {
    assert PeerTraced(s.identity, log, c.pk, s.peers[c.pk].handshake);
    WrittenTraced(s.identity, log, s.peers[c.pk].handshake, c);
    OnePeer(s, Written(s, c), log, WithSource(log, c), c.pk);
  }

  lemma WriteTraced(w: World, worker: nat)
    requires Traced(w) && Possible(w, Write(worker))
    ensures Traced(Next(w, Write(worker)))
  {
    var c, w' := w.checked[worker], Next(w, Write(worker));
    assert Known(w.device.identity, w.log, c);
    assert w'.log == WithSource(w.log, c);
    SourceWritten(w.device.identity, w.log, c);
    PeersWritten(w.device, w.log, c);
    WorkersGrow(w, w');
  }

  lemma TakeTraced(w: World, worker: nat, now: nat)
    requires Traced(w) && Possible(w, Take(worker, now))
    ensures Traced(Next(w, Take(worker, now)))
  {
    var s, t, w' := w.device, w.tested[worker], Next(w, Take(worker, now));
    assert PeerTraced(s.identity, w.log, t.pk, s.peers[t.pk].handshake);
    WorkersGrow(w, w');
    OnePeer(s, w'.device, w.log, w'.log, t.pk);
  }

  lemma StepTraced(w: World, a: Step)
    requires Traced(w) && Possible(w, a)
    ensures Traced(Next(w, a))
  {
    match a
    case Check(worker, msg) => CheckTraced(w, worker, msg);
    case Write(worker) => WriteTraced(w, worker);
    case Test(worker, msg, now) => TestTraced(w, worker, msg, now);
    case Take(worker, now) => TakeTraced(w, worker, now);
    case Atomic(b) => AtomicTraced(w, b);
  }

  lemma AtomicTraced(w: World, a: Action)
    requires Traced(w) && Possible(w, Atomic(a))
    ensures Traced(Next(w, Atomic(a)))
  {
    match a
    case ANewPeer(_, _) => NewPeerTraced(w, a);
    case ACreateInitiation(_, _, _, _) => CreateInitiationTraced(w, a);
    case ACreateResponse(_, _, _) => CreateResponseTraced(w, a);
    case ABeginSession(_) => BeginSessionTraced(w, a);
    case _ => PlainTraced(w, a);
  }

  lemma {:induction false} EveryRunTraced(identity: nat, trace: seq<Step>)
    requires RunSplit(identity, trace).Some?
    ensures Traced(RunSplit(identity, trace).value)
  {
    if trace != [] {
      var before, a := trace[..|trace| - 1], trace[|trace| - 1];
      EveryRunTraced(identity, before);
      StepTraced(RunSplit(identity, before).value, a);
    }
  }

  /** With no guard anywhere: two sessions of a run share a key exactly if both follow writes of one response. */
  lemma SharedExactly(identity: nat, trace: seq<Step>, i: nat, j: nat)
    requires RunSplit(identity, trace).Some? && i < j < |RunSplit(identity, trace).value.log.derived|
    ensures var log := RunSplit(identity, trace).value.log;
            && |log.causes| == |log.derived|
            && (var (k, k', same) := (log.derived[i], log.derived[j], SameResponse(log.causes[i], log.causes[j]));
                && (k.sendKey == k'.sendKey <==> same) && (k.recvKey == k'.recvKey <==> same)
                && (same ==> log.causes[i].value.pk == log.causes[j].value.pk
                             && log.causes[i].value.msg.empty == log.causes[j].value.msg.empty))
  {
    EveryRunTraced(identity, trace);
    var log := RunSplit(identity, trace).value.log;
    assert SessionFine(identity, log, log.derived[i], log.causes[i])
           && SessionFine(identity, log, log.derived[j], log.causes[j]) by {
      IdentityKept(identity, trace);
    }
    KeysOfTwo(identity, log, log.derived[i], log.causes[i], log.derived[j], log.causes[j]);
    if SameResponse(log.causes[i], log.causes[j]) {
      SameEphemerals(identity, log, log.causes[i].value, log.causes[j].value);
    }
  }

  lemma {:induction false} IdentityKept(identity: nat, trace: seq<Step>)
    requires RunSplit(identity, trace).Some?
    ensures RunSplit(identity, trace).value.device.identity == identity
  {
    if trace != [] {
      var before, a := trace[..|trace| - 1], trace[|trace| - 1];
      IdentityKept(identity, before);
      StepKeepsIdentity(RunSplit(identity, before).value, a);
    }
  }

  lemma StepKeepsIdentity(w: World, a: Step)
    requires Possible(w, a)
    ensures Next(w, a).device.identity == w.device.identity
  {}
}
