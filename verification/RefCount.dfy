/**
 Reference counts of the decryption and handshake queues: internal/transport/transport.go, receive.go and channels.go.
 `Up`, `Down` and `Close` exclude one another through the state mutex; `UpdatePort` does not take it. Updating and
 closing the bind exclude one another through the net mutex. Receive routines release their references one by one as
 they exit.
 */
module RefCount {
  datatype Mode = Down | Up | Closed

  /** What the holder of the state mutex is doing. */
  datatype StateOp =
    | NoOp
    | Upping // the mode is Up; the bind is to be updated
    | UpFailed // the bind could not be updated; the mode is to go Down
    | Downing // the mode is Down; the bind is to be closed
    | Closing // the mode is Closed; the bind is to be closed
    | ClosingDecryption // the bind is closed; the transport's own reference to the decryption queue is next
    | ClosingHandshake // and then that to the handshake queue

  /** What the holder of the net mutex is doing; `forUp` when it is `Up`, otherwise it is `UpdatePort`. */
  datatype NetOp =
    | NetFree
    | Updating(forUp: bool) // waits for the old receivers, then looks at the mode
    | Opening(forUp: bool, receivers: nat, added: nat) // has opened; `added` of the three counts are raised
    | ClosingBind // waits for the receivers

  /**
   `running` receive routines may write to both queues; `leaving1` have released the decryption queue, `leaving2` the
   handshake queue as well. The counts of the three wait groups may be any number: that they stay right is the claim.
   */
  datatype State = State(mode: Mode, op: StateOp, net: NetOp,
                         running: nat, leaving1: nat, leaving2: nat,
                         stopping: int, decryption: int, handshake: int,
                         decryptionClosed: bool, handshakeClosed: bool)

  /** A new transport is down and holds one reference to each queue. */
  predicate Initial(s: State) {
    && s.mode.Down? && s.op.NoOp? && s.net.NetFree?
    && s.running == s.leaving1 == s.leaving2 == 0
    && s.stopping == 0 && s.decryption == 1 && s.handshake == 1
    && !s.decryptionClosed && !s.handshakeClosed
  }

  /** Steps of `Up`, `Down` and `Close` under the state mutex. */
  datatype StateStep = BeginUp | BeginDown | BeginClose | GoDown | ReleaseDecryption | ReleaseHandshake

  predicate StateEnabled(s: State, a: StateStep) {
    match a
    case BeginUp => s.op.NoOp? && s.mode.Down?
    case BeginDown => s.op.NoOp? && s.mode.Up?
    case BeginClose => s.op.NoOp? && !s.mode.Closed?
    case GoDown => s.op.UpFailed?
    case ReleaseDecryption => s.op.ClosingDecryption?
    case ReleaseHandshake => s.op.ClosingHandshake?
  }

  function StateNext(s: State, a: StateStep): State {
    match a
    case BeginUp => s.(mode := Up, op := Upping)
    case BeginDown => s.(mode := Down, op := Downing)
    case BeginClose => s.(mode := Closed, op := Closing)
    case GoDown => s.(mode := Down, op := Downing)
    case ReleaseDecryption => s.(decryption := s.decryption - 1, op := ClosingHandshake)
    case ReleaseHandshake => s.(handshake := s.handshake - 1, op := NoOp)
  }

  /** Steps under the net mutex up to a decision. Waiting for the old receivers comes before looking at the mode. */
  datatype NetStep =
    | LockForUp | LockForPort | LockForClose
    | UpdateFails // closing the old sockets or opening the new ones failed
    | UpdateNotUp // the transport is not up: nothing to open
    | UpdateOpens(receivers: nat)
    | BindClosed

  predicate NetEnabled(s: State, a: NetStep) {
    match a
    case LockForUp => s.net.NetFree? && s.op.Upping?
    case LockForPort => s.net.NetFree?
    case LockForClose => s.net.NetFree? && (s.op.Downing? || s.op.Closing?)
    case UpdateFails => s.net.Updating? && s.stopping == 0
    case UpdateNotUp => s.net.Updating? && s.stopping == 0 && !s.mode.Up?
    case UpdateOpens(_) => s.net.Updating? && s.stopping == 0 && s.mode.Up?
    case BindClosed => s.net.ClosingBind? && s.stopping == 0
  }

  function NetNext(s: State, a: NetStep): State
    requires NetEnabled(s, a)
  {
    match a
    case LockForUp => s.(net := Updating(true))
    case LockForPort => s.(net := Updating(false))
    case LockForClose => s.(net := ClosingBind)
    case UpdateFails => s.(net := NetFree, op := if s.net.forUp then UpFailed else s.op)
    case UpdateNotUp => s.(net := NetFree, op := if s.net.forUp then NoOp else s.op)
    case UpdateOpens(k) => s.(net := Opening(s.net.forUp, k, 0))
    case BindClosed => s.(net := NetFree, op := if s.op.Closing? then ClosingDecryption else NoOp)
  }

  /**
   Steps of an update that has opened the bind: raise the counts of stopping, decryption and handshake, then start.
   */
  function OpenNext(s: State): State
    requires s.net.Opening?
  {
    var Opening(forUp, k, added) := s.net;
    match added
    case 0 => s.(net := Opening(forUp, k, 1), stopping := s.stopping + k)
    case 1 => s.(net := Opening(forUp, k, 2), decryption := s.decryption + k)
    case 2 => s.(net := Opening(forUp, k, 3), handshake := s.handshake + k)
    case _ => s.(net := NetFree, op := if forUp then NoOp else s.op, running := s.running + k)
  }

  /** Steps of a receive routine on its way out, and of the goroutines that close a queue whose count is zero. */
  datatype OutStep = Leave1 | Leave2 | Leave3 | CloseDecryption | CloseHandshake

  predicate OutEnabled(s: State, a: OutStep) {
    match a
    case Leave1 => s.running > 0
    case Leave2 => s.leaving1 > 0
    case Leave3 => s.leaving2 > 0
    case CloseDecryption => s.decryption == 0 && !s.decryptionClosed
    case CloseHandshake => s.handshake == 0 && !s.handshakeClosed
  }

  function OutNext(s: State, a: OutStep): State
    requires OutEnabled(s, a)
  {
    match a
    case Leave1 => s.(running := s.running - 1, leaving1 := s.leaving1 + 1, decryption := s.decryption - 1)
    case Leave2 => s.(leaving1 := s.leaving1 - 1, leaving2 := s.leaving2 + 1, handshake := s.handshake - 1)
    case Leave3 => s.(leaving2 := s.leaving2 - 1, stopping := s.stopping - 1)
    case CloseDecryption => s.(decryptionClosed := true)
    case CloseHandshake => s.(handshakeClosed := true)
  }

  datatype Step = OfState(state: StateStep) | OfNet(net: NetStep) | OfOpen | OfOut(out: OutStep)

  predicate Enabled(s: State, a: Step) {
    match a
    case OfState(b) => StateEnabled(s, b)
    case OfNet(b) => NetEnabled(s, b)
    case OfOpen => s.net.Opening?
    case OfOut(b) => OutEnabled(s, b)
  }

  function Next(s: State, a: Step): State
    requires Enabled(s, a)
  {
    match a
    case OfState(b) => StateNext(s, b)
    case OfNet(b) => NetNext(s, b)
    case OfOpen => OpenNext(s)
    case OfOut(b) => OutNext(s, b)
  }

  predicate Moves(s: State, a: Step, s': State) {
    Enabled(s, a) && s' == Next(s, a)
  }

  /** The states of a run, one step apart. */
  predicate Behaviour(states: seq<State>, trace: seq<Step>) {
    && |states| == |trace| + 1
    && Initial(states[0])
    && forall i {:trigger trace[i]} | 0 <= i < |trace| :: Moves(states[i], trace[i], states[i + 1])
  }

  // ---- Invariant -------------------------------------------------------------------------------

  /** The transport's own reference, which `Close` releases. */
  function OwnDecryption(s: State): int {
    if s.mode.Closed? && (s.op.ClosingHandshake? || s.op.NoOp?) then 0 else 1
  }

  function OwnHandshake(s: State): int {
    if s.mode.Closed? && s.op.NoOp? then 0 else 1
  }

  /** References raised for routines that are not started yet. */
  function Raised(s: State, count: nat): nat {
    if s.net.Opening? && s.net.added >= count then s.net.receivers else 0
  }

  predicate Counts(s: State) {
    && s.stopping == s.running + s.leaving1 + s.leaving2 + Raised(s, 1)
    && s.decryption == OwnDecryption(s) + s.running + Raised(s, 2)
    && s.handshake == OwnHandshake(s) + s.running + s.leaving1 + Raised(s, 3)
  }

  /** `Close` has closed the bind; from then on nothing is received and nothing is opened. */
  predicate Shut(s: State) {
    s.mode.Closed? && !s.op.Closing?
  }

  /** Who may hold which mutex in which mode. */
  predicate Modes(s: State) {
    && (s.op.Upping? || s.op.UpFailed? ==> s.mode.Up?)
    && (s.op.Downing? ==> s.mode.Down?)
    && (s.op.Closing? || s.op.ClosingDecryption? || s.op.ClosingHandshake? ==> s.mode.Closed?)
    && (s.net.ClosingBind? ==> s.op.Downing? || s.op.Closing?)
    && ((s.net.Updating? || s.net.Opening?) && s.net.forUp ==> s.op.Upping?)
  }

  predicate Inv(s: State) {
    && Counts(s)
    && Modes(s)
    && (Shut(s) ==> s.stopping == 0 && !s.net.Opening?)
    && (s.decryptionClosed ==> s.decryption == 0)
    && (s.handshakeClosed ==> s.handshake == 0)
  }

  lemma StateKeeps(s: State, a: StateStep)
    requires Inv(s) && StateEnabled(s, a)
    ensures Inv(StateNext(s, a))
  {}

  lemma NetKeeps(s: State, a: NetStep)
    requires Inv(s) && NetEnabled(s, a)
    ensures Inv(NetNext(s, a))
  {}

  lemma OpenKeeps(s: State)
    requires Inv(s) && s.net.Opening?
    ensures Inv(OpenNext(s))
  {}

  lemma OutKeeps(s: State, a: OutStep)
    requires Inv(s) && OutEnabled(s, a)
    ensures Inv(OutNext(s, a))
  {}

  lemma StepKeeps(s: State, a: Step, s': State)
    requires Inv(s) && Moves(s, a, s')
    ensures Inv(s')
  {
    match a
    case OfState(b) => StateKeeps(s, b);
    case OfNet(b) => NetKeeps(s, b);
    case OfOpen => OpenKeeps(s);
    case OfOut(b) => OutKeeps(s, b);
  }

  lemma Starts(s: State)
    requires Initial(s)
    ensures Inv(s)
  {}

  lemma {:induction false} EveryState(states: seq<State>, trace: seq<Step>, i: nat)
    requires Behaviour(states, trace) && i <= |trace|
    ensures Inv(states[i])
  {
    if i == 0 {
      Starts(states[0]);
    } else {
      EveryState(states, trace, i - 1);
      assert Moves(states[i - 1], trace[i - 1], states[i - 1 + 1]);
      StepKeeps(states[i - 1], trace[i - 1], states[i]);
    }
  }

  // ---- What it is for --------------------------------------------------------------------------

  /**
   Over every interleaving: as long as no update is in progress each count is the number of routines that hold a
   reference, plus one until `Close` releases it; and while a routine may still write, neither queue is closed.
   */
  lemma QueuesOutliveReceivers(states: seq<State>, trace: seq<Step>, i: nat)
    requires Behaviour(states, trace) && i <= |trace|
    ensures var s := states[i];
            && (!s.net.Opening? ==>
                  s.decryption == OwnDecryption(s) + s.running
                  && s.handshake == OwnHandshake(s) + s.running + s.leaving1)
            && (s.running > 0 ==> !s.decryptionClosed && !s.handshakeClosed)
            && (s.leaving1 > 0 ==> !s.handshakeClosed)
            && (s.decryptionClosed || s.handshakeClosed ==> s.mode.Closed? && !s.net.Opening?)
  {
    EveryState(states, trace, i);
  }

  /**
   No count is raised from zero or lowered below it, so no wait group is reused after it was waited for; closed stays
   closed.
   */
  lemma CountsNeverReused(states: seq<State>, trace: seq<Step>, i: nat)
    requires Behaviour(states, trace) && i < |trace|
    ensures var (s, s') := (states[i], states[i + 1]);
            && s'.stopping >= 0 && s'.decryption >= 0 && s'.handshake >= 0
            && (s'.decryption > s.decryption ==> s.decryption > 0 && !s.decryptionClosed)
            && (s'.handshake > s.handshake ==> s.handshake > 0 && !s.handshakeClosed)
            && (s.decryptionClosed ==> s'.decryptionClosed && s'.decryption == 0)
            && (s.handshakeClosed ==> s'.handshakeClosed && s'.handshake == 0)
  {
    EveryState(states, trace, i);
    EveryState(states, trace, i + 1);
    assert Moves(states[i], trace[i], states[i + 1]);
  }

  /** `Close` returns with every receive routine gone and both counts at zero, so the queues do get closed. */
  lemma CloseReleasesQueues(states: seq<State>, trace: seq<Step>, i: nat)
    requires Behaviour(states, trace) && i <= |trace| && states[i].mode.Closed? && states[i].op.NoOp?
    ensures var s := states[i];
            s.running == s.leaving1 == s.leaving2 == 0 && s.decryption == 0 && s.handshake == 0
  {
    EveryState(states, trace, i);
  }

  // ---- Operations come to an end ---------------------------------------------------------------

  /** An operation is under way. */
  predicate Busy(s: State) {
    !s.op.NoOp? || !s.net.NetFree?
  }

  /** A step that goes on with what is under way, and begins nothing. */
  predicate Finishing(a: Step) {
    a != OfState(BeginUp) && a != OfState(BeginDown) && a != OfState(BeginClose) && a != OfNet(LockForPort)
  }

  function OpenRank(added: nat): nat {
    if added < 3 then 3 - added else 0
  }

  /** How far the holder of the state mutex has got. */
  function OpRank(s: State): nat {
    match s.op
    case NoOp => 0
    case Upping =>
      if s.net.Updating? && s.net.forUp then 19
      else if s.net.Opening? && s.net.forUp then 15 + OpenRank(s.net.added) else 20
    case UpFailed => 14
    case Downing => if s.net.ClosingBind? then 11 else 12
    case Closing => if s.net.ClosingBind? then 9 else 10
    case ClosingDecryption => 8
    case ClosingHandshake => 7
  }

  /** How far a change of the port has got. */
  function PortRank(s: State): nat {
    match s.net
    case Updating(forUp) => if forUp then 0 else 5
    case Opening(forUp, _, added) => if forUp then 0 else 1 + OpenRank(added)
    case _ => 0
  }

  /** What the receive routines and the goroutines that close queues still have to do. */
  function LeavingRank(s: State): nat {
    3 * s.running + 2 * s.leaving1 + s.leaving2 + (if s.decryptionClosed then 0 else 1)
    + if s.handshakeClosed then 0 else 1
  }

  predicate Nearer(s': State, s: State) {
    || OpRank(s') < OpRank(s)
    || (OpRank(s') == OpRank(s) && PortRank(s') < PortRank(s))
    || (OpRank(s') == OpRank(s) && PortRank(s') == PortRank(s) && LeavingRank(s') < LeavingRank(s))
  }

  /** In every reachable state: every step that begins nothing brings the end nearer, and one of them is possible. */
  lemma OperationsEnd(states: seq<State>, trace: seq<Step>, i: nat)
    requires Behaviour(states, trace) && i <= |trace|
    ensures var s := states[i];
            && (forall a | Finishing(a) && Enabled(s, a) :: Nearer(Next(s, a), s))
            && (Busy(s) ==> exists a :: Finishing(a) && Enabled(s, a))
  {
    EveryState(states, trace, i);
    var s := states[i];
    forall a | Finishing(a) && Enabled(s, a) ensures Nearer(Next(s, a), s) {
      ComesNearer(s, a);
    }
    if Busy(s) {
      var a := GoesOn(s);
    }
  }

  lemma ComesNearer(s: State, a: Step)
    requires Inv(s) && Finishing(a) && Enabled(s, a)
    ensures Nearer(Next(s, a), s)
  {
    match a
    case OfState(b) =>
    case OfNet(b) =>
    case OfOpen =>
    case OfOut(b) =>
  }

  lemma GoesOn(s: State) returns (a: Step)
    requires Inv(s) && Busy(s)
    ensures Finishing(a) && Enabled(s, a)
  {
    if s.net.Opening? {
      a := OfOpen;
    } else if !s.net.NetFree? && s.stopping > 0 {
      a := OfOut(if s.running > 0 then Leave1 else if s.leaving1 > 0 then Leave2 else Leave3);
    } else if s.net.Updating? {
      a := OfNet(UpdateFails);
    } else if s.net.ClosingBind? {
      a := OfNet(BindClosed);
    } else {
      match s.op
      case Upping => a := OfNet(LockForUp);
      case UpFailed => a := OfState(GoDown);
      case ClosingDecryption => a := OfState(ReleaseDecryption);
      case ClosingHandshake => a := OfState(ReleaseHandshake);
      case _ => a := OfNet(LockForClose);
    }
  }

  /** Going up, from any state in which nothing is under way: the routines run, with a reference each to both queues. */
  lemma UpStarts(s: State, k: nat)
    requires Inv(s) && !Busy(s) && s.mode.Down? && s.stopping == 0
    ensures var s1 := Next(s, OfState(BeginUp));
            var s2 := Next(s1, OfNet(LockForUp));
            var s3 := Next(s2, OfNet(UpdateOpens(k)));
            var s7 := OpenNext(OpenNext(OpenNext(OpenNext(s3))));
            && s7.mode.Up? && !Busy(s7) && s7.running == k
            && s7.decryption == s.decryption + k && s7.handshake == s.handshake + k && s7.stopping == k
  {}
}
