/**
 Timer of internal/transport/timers.go under concurrency: any number of goroutines started by expirations, of callers
 of `Mod` (the expiration function among them), of `Del` and of `DelSync`. What is done under the modifying lock is one
 step.
 */
module TimerSync {

  /** Who holds the running lock. */
  datatype Holder =
    | Nobody
    | Checking // an expiration, before it looks at the pending flag
    | Expiring // an expiration, in the expiration function
    | Leaving // an expiration, about to release the lock
    | Deleting // DelSync, before its second Del
    | Deleted // DelSync, about to release the lock and return

  /**
   `fired` goroutines wait for the running lock, `deleters` callers of DelSync do after their first Del.
   `mods` and `expirations` count what has happened; `quiet` holds from a second Del up to the next Mod.
   */
  datatype State = State(pending: bool, armed: bool, fired: nat, deleters: nat, holder: Holder,
                         mods: nat, expirations: nat, quiet: bool)

  const Initial := State(false, false, 0, 0, Nobody, 0, 0, false)

  datatype Step =
    | Mod | Del
    | Fire // the runtime starts the goroutine of an armed timer
    | Lock | Check | Finish | Unlock // of an expiration
    | DelSyncBegin | DelSyncLock | DelSyncDel | DelSyncReturn

  predicate Enabled(s: State, a: Step) {
    match a
    case Mod => true
    case Del => true
    case Fire => s.armed
    case Lock => s.holder.Nobody? && s.fired > 0
    case Check => s.holder.Checking?
    case Finish => s.holder.Expiring?
    case Unlock => s.holder.Leaving?
    case DelSyncBegin => true
    case DelSyncLock => s.holder.Nobody? && s.deleters > 0
    case DelSyncDel => s.holder.Deleting?
    case DelSyncReturn => s.holder.Deleted?
  }

  function Next(s: State, a: Step): State
    requires Enabled(s, a)
  {
    match a
    case Mod => s.(pending := true, armed := true, mods := s.mods + 1, quiet := false)
    case Del => s.(pending := false, armed := false)
    case Fire => s.(armed := false, fired := s.fired + 1)
    case Lock => s.(holder := Checking, fired := s.fired - 1)
    case Check =>
      if s.pending then s.(holder := Expiring, pending := false, expirations := s.expirations + 1)
      else s.(holder := Leaving)
    case Finish => s.(holder := Leaving)
    case Unlock => s.(holder := Nobody)
    case DelSyncBegin => s.(pending := false, armed := false, deleters := s.deleters + 1)
    case DelSyncLock => s.(holder := Deleting, deleters := s.deleters - 1)
    case DelSyncDel => s.(holder := Deleted, pending := false, armed := false, quiet := true)
    case DelSyncReturn => s.(holder := Nobody)
  }

  predicate Moves(s: State, a: Step, s': State) {
    Enabled(s, a) && s' == Next(s, a)
  }

  predicate Behaviour(states: seq<State>, trace: seq<Step>) {
    && |states| == |trace| + 1
    && states[0] == Initial
    && forall i {:trigger trace[i]} | 0 <= i < |trace| :: Moves(states[i], trace[i], states[i + 1])
  }

  predicate Inv(s: State) {
    && (s.quiet ==> !s.pending && !s.armed && !s.holder.Expiring?)
    && s.expirations + (if s.pending then 1 else 0) <= s.mods
  }

  lemma StepKeeps(s: State, a: Step, s': State)
    requires Inv(s) && Moves(s, a, s')
    ensures Inv(s')
  {}

  lemma {:induction false} EveryState(states: seq<State>, trace: seq<Step>, i: nat)
    requires Behaviour(states, trace) && i <= |trace|
    ensures Inv(states[i])
  {
    if i > 0 {
      EveryState(states, trace, i - 1);
      assert Moves(states[i - 1], trace[i - 1], states[i - 1 + 1]);
      StepKeeps(states[i - 1], trace[i - 1], states[i]);
    }
  }

  /** Each Mod is good for at most one expiration. */
  lemma ExpiresAtMostOncePerMod(states: seq<State>, trace: seq<Step>, i: nat)
    requires Behaviour(states, trace) && i <= |trace|
    ensures states[i].expirations + (if states[i].pending then 1 else 0) <= states[i].mods
  {
    EveryState(states, trace, i);
  }

  /** Whether a step takes back what a Mod has asked for: an expiration that looks at it has it, too. */
  predicate Revokes(a: Step) {
    a.Del? || a.DelSyncBegin? || a.DelSyncDel? || a.Check?
  }

  /** Step `k` is a Mod, and nothing has taken it back up to step `i`. */
  ghost predicate AskedAt(trace: seq<Step>, k: nat, i: nat) {
    k < i <= |trace| && trace[k].Mod? && forall m | k < m < i :: !Revokes(trace[m])
  }

  ghost predicate Asked(trace: seq<Step>, i: nat) {
    exists k: nat :: AskedAt(trace, k, i)
  }

  lemma AskedStep(trace: seq<Step>, i: nat)
    requires i < |trace|
    ensures Asked(trace, i + 1) <==> trace[i].Mod? || (Asked(trace, i) && !Revokes(trace[i]))
  {
    if trace[i].Mod? {
      assert AskedAt(trace, i, i + 1);
    }
    if Asked(trace, i) && !Revokes(trace[i]) {
      var k: nat :| AskedAt(trace, k, i);
      assert AskedAt(trace, k, i + 1);
    }
    if Asked(trace, i + 1) {
      var k: nat :| AskedAt(trace, k, i + 1);
      assert k < i ==> AskedAt(trace, k, i);
    }
  }

  lemma {:induction false} PendingIsAsked(states: seq<State>, trace: seq<Step>, i: nat)
    requires Behaviour(states, trace) && i <= |trace|
    ensures states[i].pending <==> Asked(trace, i)
  {
    if i > 0 {
      PendingIsAsked(states, trace, i - 1);
      AskedStep(trace, i - 1);
      assert Moves(states[i - 1], trace[i - 1], states[i - 1 + 1]);
    }
  }

  /**
   The expiration function is run exactly if, when the goroutine of a firing gets to look, there was a Mod since the
   last Del, DelSync or other such look.
   */
  lemma ExpiresExactly(states: seq<State>, trace: seq<Step>, i: nat)
    requires Behaviour(states, trace) && i < |trace| && trace[i].Check?
    ensures states[i + 1].holder.Expiring? <==> Asked(trace, i)
    ensures states[i + 1].expirations == states[i].expirations + (if Asked(trace, i) then 1 else 0)
  {
    PendingIsAsked(states, trace, i);
    assert Moves(states[i], trace[i], states[i + 1]);
  }

  lemma {:induction false} StaysQuiet(states: seq<State>, trace: seq<Step>, from: nat, to: nat)
    requires Behaviour(states, trace) && from <= to <= |trace| && states[from].quiet
    requires forall k | from <= k < to :: !trace[k].Mod?
    ensures states[to].quiet && states[to].expirations == states[from].expirations
  {
    EveryState(states, trace, to);
    if from < to {
      StaysQuiet(states, trace, from, to - 1);
      EveryState(states, trace, to - 1);
      assert Moves(states[to - 1], trace[to - 1], states[to - 1 + 1]);
    }
  }

  /**
   From the second Del of a DelSync on, so in particular once it has returned, and up to the next Mod, no expiration
   function of the timer runs and none starts, though goroutines of earlier firings may still come and though the
   expiration function may re-arm its timer at any time while it runs.
   */
  lemma DelSyncIsFinal(states: seq<State>, trace: seq<Step>, deleted: nat, to: nat)
    requires Behaviour(states, trace) && deleted < to <= |trace| && trace[deleted].DelSyncDel?
    requires forall k | deleted < k < to :: !trace[k].Mod?
    ensures !states[to].holder.Expiring? && !states[to].pending && !states[to].armed
    ensures states[to].expirations == states[deleted].expirations
  {
    assert Moves(states[deleted], trace[deleted], states[deleted + 1]);
    StaysQuiet(states, trace, deleted + 1, to);
    EveryState(states, trace, to);
  }

  /**
   What the pending flag does not promise: a goroutine of an earlier firing that was held up takes the flag of a later
   Mod, so the expiration function runs ahead of the new deadline while the timer is still armed.
   */
  lemma MayExpireEarly()
    ensures exists states: seq<State> ::
              && Behaviour(states, [Mod, Fire, Mod, Lock, Check])
              && states[5].holder.Expiring? && states[5].armed && !states[5].pending
  {
    var trace := [Mod, Fire, Mod, Lock, Check];
    var s1 := Next(Initial, trace[0]);
    var s2 := Next(s1, trace[1]);
    var s3 := Next(s2, trace[2]);
    var s4 := Next(s3, trace[3]);
    var s5 := Next(s4, trace[4]);
    assert Behaviour([Initial, s1, s2, s3, s4, s5], trace);
  }
}
