/**
 Retransmission of handshake initiations: internal/transport/timers.go and SendHandshakeInitiation of send.go.
 Times are nanoseconds; the zero time is `None`. Every instant at which the code looks at the clock or acts is
 a free parameter, and so is the jitter.
 */
module Retransmit {
  import opened Common

  const SECOND: nat := 1_000_000_000
  const MAX_TIMER_HANDSHAKES: nat := 18

  /**
   Latencies: of the expired timer, up to the look at the clock, up to the packet leaving, up to the timer being armed.
   */
  datatype Delays = Delays(late: nat, check: nat, send: nat, arm: nat, jitter: nat)

  /** When an initiation was begun, and how often the time of the last handshake had been set back by then. */
  datatype Begun = Begun(at: nat, resets: nat)

  /**
   `deadline` is that of the armed retransmission timer, `begun` and `sent` are the initiations begun and those that
   left.
   */
  datatype State = State(now: nat, active: bool, attempts: nat, lastSent: Option<int>, deadline: Option<nat>,
                         resets: nat,
                         begun: seq<Begun>, sent: seq<nat>, staged: seq<nat>, zeroing: bool)

  function Milliseconds(n: nat): nat {
    n * 1_000_000
  }

  function Max(a: nat, b: nat): nat {
    if a < b then b else a
  }

  predicate TooSoon(s: State, at: nat) {
    s.lastSent.Some? && at - s.lastSent.value < REKEY_TIMEOUT
  }

  function SendInitiation(s: State, isRetry: bool, d: Delays): State {
    var s1 := s.(now := s.now + d.check, attempts := if isRetry then s.attempts else 0);
    if TooSoon(s, s1.now) then s1
    else
      var leaves := s1.now + d.send;
      s1.(lastSent := Some(s1.now), begun := s.begun + [Begun(s1.now, s.resets)], sent := s.sent + [leaves],
      now := leaves + d.arm,
      deadline := if s.active then Some(leaves + d.arm + REKEY_TIMEOUT + Milliseconds(d.jitter)) else s.deadline)
  }

  /** The retransmission timer expires. */
  function Expire(s: State, d: Delays): State
    requires s.deadline.Some?
  {
    var s1 := s.(now := Max(s.now, s.deadline.value) + d.late, deadline := None);
    if s.attempts > MAX_TIMER_HANDSHAKES then
      s1.(staged := [], zeroing := s.zeroing || s.active)
    else
      SendInitiation(s1.(attempts := s.attempts + 1), true, d)
  }

  // ---- An unanswered handshake -----------------------------------------------------------------

  /** The timer runs on for as long as it is armed and delays are given. */
  function Unanswered(s: State, ds: seq<Delays>): State {
    if ds == [] then s
    else
      var before := Unanswered(s, ds[..|ds| - 1]);
      if before.deadline.None? then before else Expire(before, ds[|ds| - 1])
  }

  predicate Apart(times: seq<nat>, first: nat) {
    forall i | first < i < |times| :: times[i - 1] + REKEY_TIMEOUT <= times[i]
  }

  /** The timer that was armed after an initiation left at `sent`, with these latencies and jitter. */
  function Armed(sent: nat, d: Delays): nat {
    sent + d.arm + REKEY_TIMEOUT + Milliseconds(d.jitter)
  }

  /**
   After `k` expirations, of which `k <= 19` have sent, the last with latencies `d`: the timer is armed for the next.
   */
  predicate Waiting(s: State, base: nat, k: nat, d: Delays) {
    && s.active && s.attempts == k
    && |s.sent| == |s.begun| == base + k + 1
    && s.lastSent.Some? && s.lastSent.value <= s.sent[base + k]
    && s.deadline == Some(Armed(s.sent[base + k], d)) && s.now <= s.deadline.value
    && Apart(s.sent, base)
  }

  /**
   A retry is never turned down as too soon, leaves as soon as the timer and the latencies let it, and is the last.
   */
  lemma ExpireWaits(s: State, base: nat, k: nat, d: Delays, d': Delays)
    requires Waiting(s, base, k, d) && k <= MAX_TIMER_HANDSHAKES
    ensures Waiting(Expire(s, d'), base, k + 1, d') && Expire(s, d').staged == s.staged
    ensures Expire(s, d').sent == s.sent + [Armed(s.sent[base + k], d) + d'.late + d'.check + d'.send]
  {
    var s' := Expire(s, d');
    assert s'.sent[..|s.sent|] == s.sent;
    forall i | base < i < |s'.sent| ensures s'.sent[i - 1] + REKEY_TIMEOUT <= s'.sent[i] {}
  }

  /** Each initiation from `base` on leaves when the timer armed after the one before it runs out, but for latencies. */
  ghost predicate OnTime(sent: seq<nat>, base: nat, all: seq<Delays>) {
    |sent| - base <= |all| && forall i, j | 0 <= i && j == i + 1 && base + j < |sent| ::
      sent[base + j] == Armed(sent[base + i], all[i]) + all[j].late + all[j].check + all[j].send
  }

  /** The course of an unanswered handshake from `s` on, up to `r`: latencies `all` of the first and of the retries. */
  ghost predicate Course(s: State, r: State, all: seq<Delays>) {
    var base := |s.sent|;
    && |all| > 0 && |r.sent| == base + (if |all| <= 20 then |all| else 20)
    && r.sent[base] == s.now + all[0].check + all[0].send
    && Apart(r.sent, base) && OnTime(r.sent, base, all)
    && (|all| <= 20 ==> Waiting(r, base, |all| - 1, all[|all| - 1]) && r.staged == s.staged)
    && (|all| > 20 ==> r.deadline.None? && r.staged == [] && r.zeroing)
  }

  lemma CourseRetries(s: State, r: State, all: seq<Delays>, d: Delays)
    requires Course(s, r, all) && |all| < 20
    ensures Course(s, Expire(r, d), all + [d])
  {
    ExpireWaits(r, |s.sent|, |all| - 1, all[|all| - 1], d);
    OnTimeAppend(r.sent, |s.sent|, all, Expire(r, d).sent, d);
  }

  lemma CourseEnds(s: State, r: State, all: seq<Delays>, d: Delays)
    requires Course(s, r, all) && |all| >= 20
    ensures Course(s, if r.deadline.None? then r else Expire(r, d), all + [d])
  {}

  /**
   With no other trigger, an initiation that is never answered is sent MAX_TIMER_HANDSHAKES + 2 times in all, each at
   least REKEY_TIMEOUT after the one before and no later than jitter and latencies make it. The expiration after that
   empties the staged queue and leaves the timer unarmed; until then the queue is untouched and the timer armed.
   */
  lemma {:induction false} UnansweredHandshake(s: State, first: Delays, ds: seq<Delays>)
    requires s.active && !TooSoon(s, s.now + first.check) && |s.sent| == |s.begun|
    ensures Course(s, Unanswered(SendInitiation(s, false, first), ds), [first] + ds)
  {
    if ds == [] {
      assert [first] + ds == [first];
    } else {
      var n := |ds| - 1;
      var r := Unanswered(SendInitiation(s, false, first), ds[..n]);
      UnansweredHandshake(s, first, ds[..n]);
      assert [first] + ds == ([first] + ds[..n]) + [ds[n]];
      if n < 19 {
        CourseRetries(s, r, [first] + ds[..n], ds[n]);
      } else {
        CourseEnds(s, r, [first] + ds[..n], ds[n]);
      }
    }
  }

  lemma OnTimeAppend(sent: seq<nat>, base: nat, all: seq<Delays>, sent': seq<nat>, d: Delays)
    requires base < |sent| && OnTime(sent, base, all) && |sent| - base == |all|
    requires sent' == sent + [Armed(sent[|sent| - 1], all[|all| - 1]) + d.late + d.check + d.send]
    ensures OnTime(sent', base, all + [d])
  {}

  // ---- Every run -------------------------------------------------------------------------------

  datatype Event =
    | Trigger(d: Delays) // a packet without a session, a keepalive timer, an old session
    | Timer(d: Delays) // the retransmission timer expires
    | Respond // a handshake response is sent: it counts as a handshake for the rate
    | Complete // a handshake is completed
    | Start // the peer is started: the time of the last handshake is set back
    | Stop // and stopped
    | ExpireKeypairs // sets the time of the last handshake back, too
    | Wait(n: nat)

  /** The last handshake is said to have been a second longer ago than it takes. */
  function SetBack(s: State): State {
    s.(lastSent := Some(s.now - REKEY_TIMEOUT - SECOND), resets := s.resets + 1)
  }

  function Next(s: State, e: Event): State {
    match e
    case Trigger(d) => SendInitiation(s, false, d)
    case Timer(d) => if s.deadline.None? then s else Expire(s, d)
    case Respond => s.(lastSent := Some(s.now))
    case Complete => s.(deadline := if s.active then None else s.deadline, attempts := 0)
    case Start => if s.active then s else SetBack(s).(active := true, attempts := 0)
    case Stop => if s.active then s.(active := false, deadline := None, zeroing := false, staged := []) else s
    case ExpireKeypairs => SetBack(s)
    case Wait(n) => s.(now := s.now + n)
  }

  function Run(s: State, events: seq<Event>): State {
    if events == [] then s else Next(Run(s, events[..|events| - 1]), events[|events| - 1])
  }

  /** In order, and far apart unless the time of the last handshake was set back in between. */
  predicate Follows(x: Begun, y: Begun) {
    x.at <= y.at && x.resets <= y.resets && (x.resets == y.resets ==> x.at + REKEY_TIMEOUT <= y.at)
  }

  predicate ApartUnlessReset(begun: seq<Begun>) {
    forall i, j | 0 <= i < j < |begun| :: Follows(begun[i], begun[j])
  }

  lemma ApartAppend(begun: seq<Begun>, y: Begun)
    requires ApartUnlessReset(begun) && (begun != [] ==> Follows(begun[|begun| - 1], y))
    ensures ApartUnlessReset(begun + [y])
  {
    forall i | 0 <= i < |begun| ensures Follows(begun[i], y) {
      assert i < |begun| - 1 ==> Follows(begun[i], begun[|begun| - 1]);
    }
  }

  /** Unless it was set back since, the time of the last handshake is not before that of the last initiation. */
  predicate LastFine(begun: seq<Begun>, lastSent: Option<int>, resets: nat, now: nat) {
    && (lastSent.Some? ==> lastSent.value <= now)
    && (begun != [] ==>
          var last := begun[|begun| - 1];
          && last.at <= now && last.resets <= resets
          && (last.resets == resets ==> lastSent.Some? && last.at <= lastSent.value))
  }

  predicate Fine(s: State) {
    s.attempts <= MAX_TIMER_HANDSHAKES + 1 && ApartUnlessReset(s.begun)
    && LastFine(s.begun, s.lastSent, s.resets, s.now)
  }

  /** A new initiation that does not come too soon follows the last one as it should. */
  lemma BegunFine(begun: seq<Begun>, lastSent: Option<int>, resets: nat, now: nat, at: nat, later: nat)
    requires ApartUnlessReset(begun) && LastFine(begun, lastSent, resets, now) && now <= at <= later
    requires lastSent.Some? ==> at - lastSent.value >= REKEY_TIMEOUT
    ensures ApartUnlessReset(begun + [Begun(at, resets)])
            && LastFine(begun + [Begun(at, resets)], Some(at), resets, later)
  {
    ApartAppend(begun, Begun(at, resets));
  }

  lemma SendFine(s: State, isRetry: bool, d: Delays)
    requires Fine(s)
    ensures Fine(SendInitiation(s, isRetry, d))
  {
    var s' := SendInitiation(s, isRetry, d);
    if !TooSoon(s, s.now + d.check) {
      BegunFine(s.begun, s.lastSent, s.resets, s.now, s.now + d.check, s'.now);
    }
  }

  lemma ExpireFine(s: State, d: Delays)
    requires Fine(s) && s.deadline.Some?
    ensures Fine(Expire(s, d))
  {
    if s.attempts <= MAX_TIMER_HANDSHAKES {
      var s1 := s.(now := Max(s.now, s.deadline.value) + d.late, deadline := None, attempts := s.attempts + 1);
      assert Fine(s1);
      SendFine(s1, true, d);
      assert Expire(s, d) == SendInitiation(s1, true, d);
    }
  }

  lemma StepFine(s: State, e: Event)
    requires Fine(s)
    ensures Fine(Next(s, e))
  {
    match e
    case Trigger(d) => SendFine(s, false, d);
    case Timer(d) => if s.deadline.Some? { ExpireFine(s, d); }
    case Respond =>
    case Complete =>
    case Start =>
    case Stop =>
    case ExpireKeypairs =>
    case Wait(_) =>
  }

  /**
   Whatever triggers them, initiations are begun at least REKEY_TIMEOUT apart whenever the peer was not started and its
   keypairs were not expired in between; and attempts stay bounded.
   */
  lemma {:induction false} EveryRun(s: State, events: seq<Event>)
    requires s.begun == [] && s.lastSent.None? && s.attempts == 0
    ensures Fine(Run(s, events))
  {
    if events != [] {
      var n := |events| - 1;
      EveryRun(s, events[..n]);
      StepFine(Run(s, events[..n]), events[n]);
    }
  }

  /** After either of the two, the next initiation is begun as soon as it is asked for, whenever the last one was. */
  lemma ResetLetsBegin(s: State, e: Event, d: Delays)
    requires e == ExpireKeypairs || (e == Start && !s.active)
    ensures SendInitiation(Next(s, e), false, d).begun == s.begun + [Begun(s.now + d.check, s.resets + 1)]
  {}

  const AT_ONCE := Delays(0, 0, 0, 0, 0)

  /** So a peer that is stopped and started again begins two initiations at the same time. */
  lemma StoppedAndStarted(s: State)
    requires s.begun == [] && s.lastSent.None? && !s.active
    ensures var events := [Start, Trigger(AT_ONCE), Stop, Start, Trigger(AT_ONCE)];
            Run(s, events).begun == [Begun(s.now, s.resets + 1), Begun(s.now, s.resets + 2)]
  {
    var e1: seq<Event> := [Start];
    var e2 := e1 + [Trigger(AT_ONCE)];
    var e3 := e2 + [Stop];
    var e4 := e3 + [Start];
    var e5 := e4 + [Trigger(AT_ONCE)];
    assert e5 == [Start, Trigger(AT_ONCE), Stop, Start, Trigger(AT_ONCE)];
    assert e5[..4] == e4 && e4[..3] == e3 && e3[..2] == e2 && e2[..1] == e1 && e1[..0] == [];
    assert Run(s, []) == s;
    assert Run(s, e1) == Next(s, Start);
    ResetLetsBegin(s, Start, AT_ONCE);
    assert Run(s, e2) == SendInitiation(Next(s, Start), false, AT_ONCE);
    assert Run(s, e3) == Next(Run(s, e2), Stop);
    ResetLetsBegin(Run(s, e3), Start, AT_ONCE);
  }

  /**
   Exactly when an expiration re-arms the timer. In an unanswered handshake the second condition always holds until the
   attempts are used up; a response sent in the meantime can break it, and then nothing is sent and nothing is armed.
   */
  lemma ExpireReArms(s: State, d: Delays)
    requires s.active && s.deadline.Some?
    ensures var at := Max(s.now, s.deadline.value) + d.late + d.check;
            var s' := Expire(s, d);
            && (s'.deadline.Some? <==> s.attempts <= MAX_TIMER_HANDSHAKES && !TooSoon(s, at))
            && (s'.deadline.None? ==> s'.sent == s.sent)
            && (s'.staged != s.staged ==> s.attempts > MAX_TIMER_HANDSHAKES)
  {}

  // ---- After a completed handshake -------------------------------------------------------------

  /** The retransmission timer of a peer that is not running is not armed. */
  predicate Disarmed(s: State) {
    !s.active ==> s.deadline.None?
  }

  lemma {:induction false} StaysDisarmed(s: State, events: seq<Event>)
    requires Disarmed(s)
    ensures Disarmed(Run(s, events))
  {
    if events != [] {
      StaysDisarmed(s, events[..|events| - 1]);
    }
  }

  predicate NoTrigger(events: seq<Event>) {
    forall i | 0 <= i < |events| :: !events[i].Trigger?
  }

  lemma {:induction false} StaysQuiet(s: State, events: seq<Event>)
    requires s.deadline.None? && NoTrigger(events)
    ensures var r := Run(s, events);
            r.deadline.None? && r.sent == s.sent && r.begun == s.begun
  {
    if events != [] {
      StaysQuiet(s, events[..|events| - 1]);
    }
  }

  /**
   After any run, once a handshake is completed, no initiation is begun or sent until something other than the
   retransmission timer asks for one, and its attempts are counted from the start again.
   */
  lemma QuietAfterComplete(s: State, before: seq<Event>, after: seq<Event>)
    requires Disarmed(s) && NoTrigger(after)
    ensures var (r, r') := (Run(s, before), Run(Next(Run(s, before), Complete), after));
            r'.sent == r.sent && r'.begun == r.begun && r'.deadline.None? && Next(r, Complete).attempts == 0
  {
    StaysDisarmed(s, before);
    StaysQuiet(Next(Run(s, before), Complete), after);
  }

  /** A response that was sent counts as a handshake: no initiation is begun for REKEY_TIMEOUT after it. */
  lemma RespondHoldsBack(s: State, wait: nat, isRetry: bool, d: Delays)
    requires wait + d.check < REKEY_TIMEOUT
    ensures var s' := Next(Next(s, Respond), Wait(wait));
            SendInitiation(s', isRetry, d).begun == s.begun && SendInitiation(s', isRetry, d).sent == s.sent
  {}

  /** After any run, a peer that is stopped has nothing staged and sends no retry. */
  lemma StopSilences(s: State, before: seq<Event>, after: seq<Event>)
    requires Disarmed(s) && NoTrigger(after) && Run(s, before).active
    ensures var (r, r') := (Next(Run(s, before), Stop), Run(Next(Run(s, before), Stop), after));
            !r.active && r.staged == [] && !r.zeroing && r'.sent == Run(s, before).sent
  {
    StaysQuiet(Next(Run(s, before), Stop), after);
  }

  // ---- As the peer runs it ---------------------------------------------------------------------

  class Peer {
    var now: nat
    var active: bool
    var attempts: nat
    var lastSent: Option<int>
    var deadline: Option<nat>
    var staged: seq<nat>
    var zeroing: bool
    var resets: nat
    var begun: seq<Begun>
    var sent: seq<nat>

    function Value(): State
      reads this
    {
      State(now, active, attempts, lastSent, deadline, resets, begun, sent, staged, zeroing)
    }

    constructor (s: State)
      ensures Value() == s
    {
      now, active, attempts, lastSent, deadline := s.now, s.active, s.attempts, s.lastSent, s.deadline;
      staged, zeroing, resets, begun, sent := s.staged, s.zeroing, s.resets, s.begun, s.sent;
    }

    /**
     The clock is read again under the write lock; the second look decides. The timer is armed by the clock at that
     moment.
     */
    method SendHandshakeInitiation(isRetry: bool, d: Delays)
      modifies this
      ensures Value() == SendInitiation(old(Value()), isRetry, d)
    {
      if !isRetry {
        attempts := 0;
      }
      now := now + d.check;
      if lastSent.Some? && now - lastSent.value < REKEY_TIMEOUT {
        return;
      }
      lastSent := Some(now);
      begun := begun + [Begun(now, resets)];
      now := now + d.send;
      sent := sent + [now];
      now := now + d.arm;
      if active {
        deadline := Some(now + REKEY_TIMEOUT + Milliseconds(d.jitter));
      }
    }

    method ExpiredRetransmitHandshake(d: Delays)
      requires deadline.Some?
      modifies this
      ensures Value() == Expire(old(Value()), d)
    {
      now := Max(now, deadline.value) + d.late;
      deadline := None;
      if attempts > MAX_TIMER_HANDSHAKES {
        staged := [];
        if active && !zeroing {
          zeroing := true;
        }
      } else {
        attempts := attempts + 1;
        SendHandshakeInitiation(true, d);
      }
    }
  }
}
