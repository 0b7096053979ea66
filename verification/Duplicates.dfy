/**
 A response that arrives twice while internal/transport/noise-protocol.go checks it, from two fresh devices on: the
 state that the duplicates of `SplitHandshake.dfy` start from is reached, and so are two sessions with the same keys.
 */
module Duplicates {
  import opened Common
  import opened Noise
  import opened Device
  import opened DeviceInvariant
  import opened SplitHandshake
  import Agreement
  import Tai64n

  /** A device that has just got to know one peer. */
  function Met(identity: nat, pk: PublicKey, psk: Term): State {
    Device.Start(NewPeer(Initial(identity), pk, psk), pk)
  }

  function Opening(pk: PublicKey, psk: Term, ephemeral: nat, stamp: seq<nat>, index: nat): seq<Step> {
    [Atomic(ANewPeer(pk, psk)), Atomic(AStart(pk)), Atomic(ACreateInitiation(pk, ephemeral, stamp, index))]
  }

  lemma MetRun(identity: nat, pk: PublicKey, psk: Term)
    ensures Run(identity, [ANewPeer(pk, psk), AStart(pk)]) == Some(Met(identity, pk, psk))
    ensures Inv(Met(identity, pk, psk))
  {
    OneMore(identity, [], [ANewPeer(pk, psk)]);
    assert [] + [ANewPeer(pk, psk)] == [ANewPeer(pk, psk)];
    OneMore(identity, [ANewPeer(pk, psk)], [AStart(pk)]);
    assert [ANewPeer(pk, psk)] + [AStart(pk)] == [ANewPeer(pk, psk), AStart(pk)];
    EveryRun(identity, [ANewPeer(pk, psk), AStart(pk)]);
  }

  lemma MetSplit(identity: nat, pk: PublicKey, psk: Term)
    ensures RunSplit(identity, [Atomic(ANewPeer(pk, psk)), Atomic(AStart(pk))]) ==
            Some(SplitHandshake.Start(identity).(device := Met(identity, pk, psk)))
  {
    var w := SplitHandshake.Start(identity);
    FromStep(w, [], Atomic(ANewPeer(pk, psk)));
    assert [] + [Atomic(ANewPeer(pk, psk))] == [Atomic(ANewPeer(pk, psk))];
    FromStep(w, [Atomic(ANewPeer(pk, psk))], Atomic(AStart(pk)));
    assert [Atomic(ANewPeer(pk, psk))] + [Atomic(AStart(pk))] == [Atomic(ANewPeer(pk, psk)), Atomic(AStart(pk))];
  }

  lemma InitiationFromMet(identity: nat, pk: PublicKey, psk: Term, ephemeral: nat, stamp: seq<nat>, index: nat)
    requires |stamp| == 12 && index != 0
    ensures var (w, a) :=
              (SplitHandshake.Start(identity).(device := Met(identity, pk, psk)),
               ACreateInitiation(pk, ephemeral, stamp, index));
            && Possible(w, Atomic(a)) && Next(w, Atomic(a)).checked == map[]
            && Next(w, Atomic(a)).log.drawn == {ephemeral}
            && Next(w, Atomic(a)).device == CreateInitiation(w.device, pk, ephemeral, stamp, index).0
  {}

  lemma OpeningRun(identity: nat, pk: PublicKey, psk: Term, ephemeral: nat, stamp: seq<nat>, index: nat)
    requires |stamp| == 12 && index != 0
    ensures var w := RunSplit(identity, Opening(pk, psk, ephemeral, stamp, index));
            && w.Some? && w.value.checked == map[] && w.value.log.drawn == {ephemeral}
            && w.value.device == CreateInitiation(Met(identity, pk, psk), pk, ephemeral, stamp, index).0
  {
    var a := Atomic(ACreateInitiation(pk, ephemeral, stamp, index));
    var before := [Atomic(ANewPeer(pk, psk)), Atomic(AStart(pk))];
    var w := SplitHandshake.Start(identity).(device := Met(identity, pk, psk));
    MetSplit(identity, pk, psk);
    InitiationFromMet(identity, pk, psk, ephemeral, stamp, index);
    FromStep(SplitHandshake.Start(identity), before, a);
    assert before + [a] == Opening(pk, psk, ephemeral, stamp, index);
  }

  lemma MetReady(a: nat, b: nat, psk: Term, stamp: seq<nat>, now: nat, ia: nat, ib: nat)
    requires |stamp| == 12 && Tai64n.After(stamp, NO_TIMESTAMP) && ia != 0 && ib != 0
    ensures var (s, t) := (Met(a, Pub(b), psk), Met(b, Pub(a), psk));
            && Agreement.Ready(s, t, stamp, now) && FreshIndex(s, Pub(b), ia) && FreshIndex(t, Pub(a), ib)
            && s.identity == a && t.identity == b
  {}

  lemma FoundIfConsumed(s: State, msg: Response)
    requires Inv(s)
    ensures ConsumeResponse(s, msg).1 == if Found(s, msg).Some? then Some(Found(s, msg).value.pk) else None
    ensures Found(s, msg).Some? ==>
              Found(s, msg).value.pk in s.peers && Found(s, msg).value.h == s.peers[Found(s, msg).value.pk].handshake
  {}

  lemma CreatedWith(s: State, pk: PublicKey, ephemeral: nat, stamp: seq<nat>, index: nat)
    requires pk in s.peers
    ensures CreateInitiation(s, pk, ephemeral, stamp, index).0.peers[pk].handshake.localEphemeral == ephemeral
  {}

  /** The states alone: what the other device answers is found right. */
  lemma Answered(a: nat, b: nat, psk: Term, ea: nat, eb: nat, ia: nat, ib: nat, stamp: seq<nat>, now: nat)
    returns (initiation: Initiation, response: Response, s: State, r: State)
    requires |stamp| == 12 && Tai64n.After(stamp, NO_TIMESTAMP) && ia != 0 && ib != 0
    ensures CreateInitiation(Met(a, Pub(b), psk), Pub(b), ea, stamp, ia) == (s, Some(initiation)) && Inv(s)
    ensures ConsumeInitiation(Met(b, Pub(a), psk), initiation, now).0 == r
    ensures Pub(a) in r.peers && CreateResponse(r, Pub(a), eb, ib).1 == Some(response)
    ensures Found(s, response).Some? && Found(s, response).value.pk == Pub(b)
            && Found(s, response).value.h.localEphemeral == ea
  {
    var b2, a2, k, k';
    MetReady(a, b, psk, stamp, now, ia, ib);
    MetRun(a, Pub(b), psk);
    MetRun(b, Pub(a), psk);
    initiation, response, s, r, a2, b2, k, k' :=
      Agreement.HonestHandshake(Met(a, Pub(b), psk), Met(b, Pub(a), psk), ea, eb, ia, ib, stamp, now);
    FoundIfConsumed(s, response);
    assert s.peers[Pub(b)].handshake.localEphemeral == ea by {
      CreatedWith(Met(a, Pub(b), psk), Pub(b), ea, stamp, ia);
    }
  }

  /** Two devices that know each other: the one's opening leads to a state that waits for what the other answers. */
  lemma ResponseReachable(a: nat, b: nat, psk: Term, ea: nat, eb: nat, ia: nat, ib: nat, stamp: seq<nat>, now: nat)
    returns (initiation: Initiation, response: Response, w: World, r: State)
    requires |stamp| == 12 && Tai64n.After(stamp, NO_TIMESTAMP) && ia != 0 && ib != 0
    ensures RunSplit(a, Opening(Pub(b), psk, ea, stamp, ia)) == Some(w)
    ensures CreateInitiation(Met(a, Pub(b), psk), Pub(b), ea, stamp, ia) == (w.device, Some(initiation))
    ensures Run(b, [ANewPeer(Pub(a), psk), AStart(Pub(a)), AConsumeInitiation(initiation, now)]) == Some(r)
    ensures Pub(a) in r.peers && CreateResponse(r, Pub(a), eb, ib).1 == Some(response)
    ensures Found(w.device, response).Some? && Found(w.device, response).value.pk == Pub(b)
    ensures Found(w.device, response).value.h.localEphemeral == ea
    ensures w.checked == map[] && w.log.drawn == {ea} && Inv(w.device)
  {
    var s;
    initiation, response, s, r := Answered(a, b, psk, ea, eb, ia, ib, stamp, now);
    OpeningRun(a, Pub(b), psk, ea, stamp, ia);
    w := RunSplit(a, Opening(Pub(b), psk, ea, stamp, ia)).value;
    MetRun(b, Pub(a), psk);
    ConsumeAfterMet(b, Pub(a), psk, initiation, now);
  }

  lemma ConsumeAfterMet(identity: nat, pk: PublicKey, psk: Term, msg: Initiation, now: nat)
    ensures Run(identity, [ANewPeer(pk, psk), AStart(pk), AConsumeInitiation(msg, now)]) ==
            Some(ConsumeInitiation(Met(identity, pk, psk), msg, now).0)
  {
    var before, a := [ANewPeer(pk, psk), AStart(pk)], AConsumeInitiation(msg, now);
    MetRun(identity, pk, psk);
    OneMore(identity, before, [a]);
    assert before + [a] == [ANewPeer(pk, psk), AStart(pk), a];
  }

  /** So a device that is sent its answer twice gets from nothing to two sessions with the same keys. */
  lemma TwinsReachable(a: nat, b: nat, psk: Term, ea: nat, eb: nat, ia: nat, ib: nat, stamp: seq<nat>, now: nat)
    returns (response: Response, w: World)
    requires |stamp| == 12 && Tai64n.After(stamp, NO_TIMESTAMP) && ia != 0 && ib != 0
    ensures RunSplit(a, Opening(Pub(b), psk, ea, stamp, ia) + (OnceOfTwo(Pub(b), response) + Again(Pub(b)))) == Some(w)
    ensures Pub(b) in w.device.peers && Twins(w.device.peers[Pub(b)].keypairs)
  {
    var opening := Opening(Pub(b), psk, ea, stamp, ia);
    var initiation, w0, r;
    initiation, response, w0, r := ResponseReachable(a, b, psk, ea, eb, ia, ib, stamp, now);
    var rest := OnceOfTwo(Pub(b), response) + Again(Pub(b));
    DuplicateResponse(w0, response);
    FromJoined(SplitHandshake.Start(a), opening, rest);
    w := From(w0, rest).value;
  }

  lemma OnlyIndex(identity: nat, pk: PublicKey, psk: Term, ephemeral: nat, stamp: seq<nat>, index: nat, c: Checked,
                  other: nat)
    requires |stamp| == 12 && index != 0 && other != 0 && other != index && c.pk == pk
    ensures var s := CreateInitiation(Met(identity, pk, psk), pk, ephemeral, stamp, index).0;
            FreshIndex(BeginSession(Written(s, c), pk).0, pk, other)
  {}

  lemma RepeatReachable(a: nat, b: nat, psk: Term, ea: nat, eb: nat, ia: nat, ib: nat, stamp: seq<nat>, now: nat,
                        ephemeral: nat, later: seq<nat>, index: nat)
    returns (response: Response, w: World)
    requires |stamp| == 12 && Tai64n.After(stamp, NO_TIMESTAMP) && ia != 0 && ib != 0
    requires |later| == 12 && ephemeral != ea && index != 0 && index != ia
    ensures RunSplit(a, Opening(Pub(b), psk, ea, stamp, ia)) == Some(w)
    ensures MayRepeat(w, response, ephemeral, later, index) && Found(w.device, response).value.pk == Pub(b)
  {
    var initiation, r;
    initiation, response, w, r := ResponseReachable(a, b, psk, ea, eb, ia, ib, stamp, now);
    OnlyIndex(a, Pub(b), psk, ea, stamp, ia, Found(w.device, response).value, index);
  }

  /** Also with a new initiation before the second session, where the table is exact all along. */
  lemma ExactTwinsReachable(a: nat, b: nat, psk: Term, ea: nat, eb: nat, ia: nat, ib: nat, stamp: seq<nat>, now: nat,
                            ephemeral: nat, later: seq<nat>, index: nat)
    returns (response: Response, w1: World, w2: World, w3: World)
    requires |stamp| == 12 && Tai64n.After(stamp, NO_TIMESTAMP) && ia != 0 && ib != 0
    requires |later| == 12 && ephemeral != ea && index != 0 && index != ia
    ensures var pk := Pub(b);
            var once := Opening(pk, psk, ea, stamp, ia) + OnceOfTwo(pk, response);
            var between := once + [Atomic(ACreateInitiation(pk, ephemeral, later, index))];
            && RunSplit(a, once) == Some(w1) && RunSplit(a, between) == Some(w2)
            && RunSplit(a, between + Again(pk)) == Some(w3)
    ensures ExactThroughout(w1, w2, w3) && Pub(b) in w3.device.peers && Twins(w3.device.peers[Pub(b)].keypairs)
  {
    var w0;
    response, w0 := RepeatReachable(a, b, psk, ea, eb, ia, ib, stamp, now, ephemeral, later, index);
    w1, w2, w3 := DuplicateResponseAfterInitiation(w0, response, ephemeral, later, index);
    Joined(SplitHandshake.Start(a), w0, w1, w2, w3, Opening(Pub(b), psk, ea, stamp, ia), OnceOfTwo(Pub(b), response),
           [Atomic(ACreateInitiation(Pub(b), ephemeral, later, index))], Again(Pub(b)));
  }

  lemma Joined(w: World, w0: World, w1: World, w2: World, w3: World, t0: seq<Step>, t1: seq<Step>, t2: seq<Step>,
               t3: seq<Step>)
    requires From(w, t0) == Some(w0) && From(w0, t1) == Some(w1) && From(w1, t2) == Some(w2) && From(w2, t3) == Some(w3)
    ensures From(w, t0 + t1) == Some(w1) && From(w, t0 + t1 + t2) == Some(w2) && From(w, t0 + t1 + t2 + t3) == Some(w3)
  {
    FromJoined(w, t0, t1);
    FromJoined(w, t0 + t1, t2);
    FromJoined(w, t0 + t1 + t2, t3);
  }
}
