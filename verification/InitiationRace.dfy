/**
 The timestamp of a peer when several handshake workers consume its initiations at once: `ConsumeMessageInitiation` of
 internal/transport/noise-protocol.go tests for replay and flood under the read lock and writes under the write lock,
 and lets go of the lock in between.
 */
module InitiationRace {
  import opened Common
  import Device
  import DeviceRuns
  import Tai64n

  /** A stamp that passed the test, and how many initiations had been accepted then. */
  datatype Tested = Tested(stamp: Tai64n.Bytes, seen: nat)

  /** An accepted initiation; `newer` when it was still newer than the recorded one as it was written. */
  datatype Accepted = Accepted(stamp: Tai64n.Bytes, seen: nat, newer: bool)

  datatype State = State(last: Tai64n.Bytes, lastConsumption: Option<nat>, tested: map<nat, Tested>,
                         accepted: seq<Accepted>)

  datatype Step = Test(worker: nat, stamp: Tai64n.Bytes, now: nat) | Write(worker: nat, now: nat)

  predicate Enabled(s: State, a: Step) {
    match a
    case Test(w, stamp, _) => w !in s.tested && |stamp| == 12
    case Write(w, _) => w in s.tested
  }

  function Next(s: State, a: Step): State
    requires Enabled(s, a)
  {
    match a
    case Test(w, stamp, now) =>
      var replay := !Tai64n.After(stamp, s.last);
      var flood := s.lastConsumption.Some? && now - s.lastConsumption.value <= Device.INITIATION_RATE;
      if replay || flood then s else s.(tested := s.tested[w := Tested(stamp, |s.accepted|)])
    case Write(w, now) =>
      var t := s.tested[w];
      var newer := Tai64n.After(t.stamp, s.last);
      State(Device.Newest(t.stamp, s.last), Device.Latest(now, s.lastConsumption), s.tested - {w},
            s.accepted + [Accepted(t.stamp, t.seen, newer)])
  }

  function Run(trace: seq<Step>): Option<State> {
    if trace == [] then Some(State(Device.NO_TIMESTAMP, None, map[], []))
    else
      var before := Run(trace[..|trace| - 1]);
      var a := trace[|trace| - 1];
      if before.None? || !Enabled(before.value, a) then None else Some(Next(before.value, a))
  }

  // ---- Invariant -------------------------------------------------------------------------------

  predicate AtLeast(a: Tai64n.Bytes, b: Tai64n.Bytes) {
    a == b || Tai64n.After(a, b)
  }

  lemma {:induction false} Total(a: Tai64n.Bytes, b: Tai64n.Bytes)
    requires |a| == |b|
    ensures AtLeast(a, b) || Tai64n.After(b, a)
    ensures Tai64n.After(a, b) ==> !AtLeast(b, a)
  {
    if a != [] {
      Total(a[1..], b[1..]);
      assert a == [a[0]] + a[1..] && b == [b[0]] + b[1..];
    }
  }

  /** Newer than the first `seen` accepted ones. */
  ghost predicate NewerThan(accepted: seq<Accepted>, stamp: Tai64n.Bytes, seen: nat) {
    seen <= |accepted| && forall i | 0 <= i < seen :: Tai64n.After(stamp, accepted[i].stamp)
  }

  /** The recorded stamp is one of the accepted ones, if there are any, and none of them is newer. */
  ghost predicate Newest(last: Tai64n.Bytes, accepted: seq<Accepted>) {
    && |last| == 12
    && (if accepted == [] then last == Device.NO_TIMESTAMP
        else exists i :: 0 <= i < |accepted| && accepted[i].stamp == last)
    && (forall i | 0 <= i < |accepted| :: AtLeast(last, accepted[i].stamp))
  }

  /** The `newer` flag says whether an initiation is newer than all accepted before it. */
  ghost predicate Flagged(accepted: seq<Accepted>) {
    forall j | 0 <= j < |accepted| ::
      && accepted[j].seen <= j && NewerThan(accepted, accepted[j].stamp, accepted[j].seen)
      && (accepted[j].newer <==> NewerThan(accepted, accepted[j].stamp, j))
  }

  ghost predicate Inv(s: State) {
    && Newest(s.last, s.accepted)
    && Flagged(s.accepted)
    && (forall w | w in s.tested ::
          && |s.tested[w].stamp| == 12 && NewerThan(s.accepted, s.tested[w].stamp, s.tested[w].seen)
          && (s.accepted == [] ==> Tai64n.After(s.tested[w].stamp, Device.NO_TIMESTAMP)))
  }

  /** Newer than the recorded one is newer than all of them. */
  lemma NewerIsNewest(last: Tai64n.Bytes, accepted: seq<Accepted>, stamp: Tai64n.Bytes)
    requires Newest(last, accepted) && (accepted == [] ==> Tai64n.After(stamp, Device.NO_TIMESTAMP))
    ensures Tai64n.After(stamp, last) <==> NewerThan(accepted, stamp, |accepted|)
  {
    if Tai64n.After(stamp, last) {
      forall i | 0 <= i < |accepted| ensures Tai64n.After(stamp, accepted[i].stamp) {
        if last != accepted[i].stamp {
          DeviceRuns.AfterTransitive(stamp, last, accepted[i].stamp);
        }
      }
    }
  }

  lemma TestKeeps(s: State, a: Step)
    requires Inv(s) && a.Test? && Enabled(s, a)
    ensures Inv(Next(s, a)) && Next(s, a).last == s.last
  {
    if Tai64n.After(a.stamp, s.last) {
      NewerIsNewest(s.last, s.accepted, a.stamp);
    }
  }

  lemma AppendNewest(last: Tai64n.Bytes, accepted: seq<Accepted>, x: Accepted)
    requires Newest(last, accepted) && |x.stamp| == 12
    requires accepted == [] ==> x.newer
    requires x.newer <==> Tai64n.After(x.stamp, last)
    ensures Newest(if x.newer then x.stamp else last, accepted + [x])
  {
    var accepted', last' := accepted + [x], if x.newer then x.stamp else last;
    Total(last, x.stamp);
    if x.newer {
      assert accepted'[|accepted|].stamp == last';
      NewerIsNewest(last, accepted, x.stamp);
    } else {
      var i :| 0 <= i < |accepted| && accepted[i].stamp == last;
      assert accepted'[i].stamp == last';
    }
    forall i | 0 <= i < |accepted'| ensures AtLeast(last', accepted'[i].stamp) {}
  }

  lemma AppendKeepsNewer(accepted: seq<Accepted>, x: Accepted, stamp: Tai64n.Bytes, seen: nat)
    requires seen <= |accepted|
    ensures NewerThan(accepted + [x], stamp, seen) <==> NewerThan(accepted, stamp, seen)
  {
    var accepted' := accepted + [x];
    assert forall i | 0 <= i < seen :: accepted'[i] == accepted[i];
  }

  lemma AppendFlagged(accepted: seq<Accepted>, x: Accepted)
    requires Flagged(accepted) && NewerThan(accepted, x.stamp, x.seen)
    requires x.newer <==> NewerThan(accepted, x.stamp, |accepted|)
    ensures Flagged(accepted + [x])
  {
    var accepted' := accepted + [x];
    forall j | 0 <= j < |accepted'|
      ensures accepted'[j].seen <= j && NewerThan(accepted', accepted'[j].stamp, accepted'[j].seen)
      ensures accepted'[j].newer <==> NewerThan(accepted', accepted'[j].stamp, j)
    {
      var y := accepted'[j];
      assert y == if j < |accepted| then accepted[j] else x;
      AppendKeepsNewer(accepted, x, y.stamp, y.seen);
      AppendKeepsNewer(accepted, x, y.stamp, j);
    }
  }

  lemma WriteKeeps(s: State, a: Step)
    requires Inv(s) && a.Write? && Enabled(s, a)
    ensures Inv(Next(s, a)) && AtLeast(Next(s, a).last, s.last)
  {
    var t := s.tested[a.worker];
    var x := Accepted(t.stamp, t.seen, Tai64n.After(t.stamp, s.last));
    NewerIsNewest(s.last, s.accepted, t.stamp);
    AppendNewest(s.last, s.accepted, x);
    AppendFlagged(s.accepted, x);
    forall w | w in s.tested ensures NewerThan(s.accepted + [x], s.tested[w].stamp, s.tested[w].seen) {
      AppendKeepsNewer(s.accepted, x, s.tested[w].stamp, s.tested[w].seen);
    }
  }

  lemma {:induction false} EveryRun(trace: seq<Step>)
    requires Run(trace).Some?
    ensures Inv(Run(trace).value)
  {
    if trace != [] {
      var s, a := Run(trace[..|trace| - 1]).value, trace[|trace| - 1];
      EveryRun(trace[..|trace| - 1]);
      if a.Test? {
        TestKeeps(s, a);
      } else {
        WriteKeeps(s, a);
      }
    }
  }

  // ---- What it is for --------------------------------------------------------------------------

  /** However many workers race, the recorded stamp is the newest accepted one and never goes back. */
  lemma RecordNeverGoesBack(trace: seq<Step>)
    requires Run(trace).Some?
    ensures Newest(Run(trace).value.last, Run(trace).value.accepted)
    ensures trace != [] ==> AtLeast(Run(trace).value.last, Run(trace[..|trace| - 1]).value.last)
  {
    EveryRun(trace);
    if trace != [] {
      var s, a := Run(trace[..|trace| - 1]).value, trace[|trace| - 1];
      EveryRun(trace[..|trace| - 1]);
      if a.Write? {
        WriteKeeps(s, a);
      }
    }
  }

  /**
   Accepted stamps increase strictly if and only if every write found its stamp newer than the recorded one. Each is
   newer than what had been accepted before its own test in any case.
   */
  lemma IncreasingIfNewer(trace: seq<Step>)
    requires Run(trace).Some?
    ensures var acc := Run(trace).value.accepted;
            && ((forall i, j | 0 <= i < j < |acc| :: Tai64n.After(acc[j].stamp, acc[i].stamp)) <==>
                (forall j | 0 <= j < |acc| :: acc[j].newer))
            && (forall i, j | 0 <= j < |acc| && 0 <= i < acc[j].seen ::
                  i < j && Tai64n.After(acc[j].stamp, acc[i].stamp))
  {
    EveryRun(trace);
    var acc := Run(trace).value.accepted;
    assert Flagged(acc);
    if forall i, j | 0 <= i < j < |acc| :: Tai64n.After(acc[j].stamp, acc[i].stamp) {
      forall j | 0 <= j < |acc| ensures acc[j].newer {
        assert NewerThan(acc, acc[j].stamp, j);
      }
    }
  }

  /** Two workers may accept the same initiation. */
  lemma SameInitiationTwice(stamp: Tai64n.Bytes, now: nat)
    requires |stamp| == 12 && Tai64n.After(stamp, Device.NO_TIMESTAMP)
    ensures var trace := [Test(0, stamp, now), Test(1, stamp, now), Write(0, now), Write(1, now)];
            && Run(trace).Some? && |Run(trace).value.accepted| == 2
            && Run(trace).value.accepted[0].stamp == Run(trace).value.accepted[1].stamp == stamp
  {
    var t1 := [Test(0, stamp, now)];
    var t2 := t1 + [Test(1, stamp, now)];
    var t3 := t2 + [Write(0, now)];
    var t4 := t3 + [Write(1, now)];
    assert t1[..0] == [] && t2[..1] == t1 && t3[..2] == t2 && t4[..3] == t3;
    assert Run([]) == Some(State(Device.NO_TIMESTAMP, None, map[], []));
    assert Run(t1) == Some(State(Device.NO_TIMESTAMP, None, map[0 := Tested(stamp, 0)], []));
    assert Run(t2) == Some(State(Device.NO_TIMESTAMP, None, map[0 := Tested(stamp, 0), 1 := Tested(stamp, 0)], []));
    assert Run(t3).Some? && Run(t3).value.tested == map[1 := Tested(stamp, 0)];
    assert t4 == [Test(0, stamp, now), Test(1, stamp, now), Write(0, now), Write(1, now)];
  }
}
