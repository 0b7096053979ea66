/**
 Initiations that a peer stamps at least a tick after its earlier ones (internal/transport/send.go keeps them
 RekeyTimeout apart) pass the replay test of internal/transport/noise-protocol.go over a whole run of the receiving
 device, whatever others send.
 */
module Initiations {
  import opened Common
  import opened Noise
  import opened Device
  import opened DeviceInvariant
  import opened DeviceRuns
  import Tai64n

  /** The message names `pk` as its sender; anyone can make one that does. */
  predicate From(identity: nat, msg: Initiation, pk: PublicKey) {
    msg.kind == INITIATION_TYPE && InitiatorOf(identity, msg) == Some(pk)
  }

  /** The stamp, if it opens under the two static keys, which only the two ends share. */
  function StampIn(identity: nat, msg: Initiation, pk: PublicKey): Option<Tai64n.Bytes>
    requires InitiatorOf(identity, msg).Some?
  {
    var ss := StaticStatic(identity, pk);
    var hash := MixHash(MixHash(MixHash(INITIAL_HASH, Key(Pub(identity))), Key(msg.ephemeral)), msg.sealedStatic);
    var (ck, _) := Kdf2(Kdf1(INITIAL_CHAIN_KEY, Key(msg.ephemeral)), SharedSecret(identity, msg.ephemeral).value);
    var (_, key) := Kdf2(ck, ss);
    var plain := Open(key, ZERO_NONCE, msg.sealedStamp, hash);
    if ss == Zeros || plain.None? || !plain.value.Octets? || |plain.value.b| != 12 then None else Some(plain.value.b)
  }

  /** A genuine initiation of `pk`: what it names and what it was stamped with are vouched for. */
  predicate Genuine(identity: nat, a: Action, pk: PublicKey) {
    a.AConsumeInitiation? && From(identity, a.initiation, pk) && StampIn(identity, a.initiation, pk).Some?
  }

  /** Accepted exactly if the peer runs, and the message is genuine, newer than the one on record and no flood. */
  lemma AcceptedIf(s: State, msg: Initiation, now: nat, pk: PublicKey)
    requires Inv(s) && pk in s.peers && From(s.identity, msg, pk)
    ensures var (h, stamp) := (s.peers[pk].handshake, StampIn(s.identity, msg, pk));
            && (ConsumeInitiation(s, msg, now).1 == Some(pk) <==>
                && s.peers[pk].running && stamp.Some? && Tai64n.After(stamp.value, h.lastTimestamp)
                && !(h.lastConsumption.Some? && now - h.lastConsumption.value <= INITIATION_RATE))
            && (ConsumeInitiation(s, msg, now).1 == Some(pk) ==>
                  stamp == Some(ConsumeInitiation(s, msg, now).0.peers[pk].handshake.lastTimestamp))
  {}

  lemma ConsumeStep(s: State, msg: Initiation, now: nat, pk: PublicKey)
    requires Inv(s) && pk in s.peers
    ensures var s' := ConsumeInitiation(s, msg, now).0;
            && pk in s'.peers
            && (LastTimestamp(s', pk) != LastTimestamp(s, pk) ==>
                  From(s.identity, msg, pk) && StampIn(s.identity, msg, pk) == Some(LastTimestamp(s', pk)))
  {
    if From(s.identity, msg, pk) {
      AcceptedIf(s, msg, now, pk);
    }
  }

  lemma OtherSteps(s: State, a: Action, pk: PublicKey)
    requires Enabled(s, a) && pk in s.peers && !a.AConsumeInitiation?
    ensures pk in Apply(s, a).peers && LastTimestamp(Apply(s, a), pk) == LastTimestamp(s, pk)
  {
    match a
    case ANewPeer(_, _) =>
    case ACreateInitiation(_, _, _, _) =>
    case ACreateResponse(_, _, _) =>
    case AConsumeResponse(_) =>
    case ABeginSession(_) =>
    case AReceive(_, _, _, _, _) =>
    case AZeroAndFlushAll(_) =>
    case AExpire(_) =>
    case AStart(_) =>
    case AStop(_) =>
  }

  lemma NewPeerStep(s: State, a: Action, pk: PublicKey)
    requires Enabled(s, a) && pk !in s.peers && pk in Apply(s, a).peers
    ensures LastTimestamp(Apply(s, a), pk) == NO_TIMESTAMP
  {
    match a
    case ANewPeer(_, _) =>
    case _ => assert false;
  }

  /** A step leaves the timestamp of a peer alone, or is a genuine initiation and sets it to the stamp of that. */
  lemma TimestampStep(s: State, a: Action, pk: PublicKey)
    requires Inv(s) && Enabled(s, a) && pk in s.peers
    ensures pk in Apply(s, a).peers
    ensures LastTimestamp(Apply(s, a), pk) != LastTimestamp(s, pk) ==>
              Genuine(s.identity, a, pk) && StampIn(s.identity, a.initiation, pk) ==
                                            Some(LastTimestamp(Apply(s, a), pk))
  {
    if a.AConsumeInitiation? {
      ConsumeStep(s, a.initiation, a.now, pk);
    } else {
      OtherSteps(s, a, pk);
    }
  }

  ghost predicate DeliveredBefore(identity: nat, trace: seq<Action>, n: nat, pk: PublicKey, stamp: Tai64n.Bytes) {
    exists k :: 0 <= k < n <= |trace| && Genuine(identity, trace[k], pk)
                && StampIn(identity, trace[k].initiation, pk) == Some(stamp)
  }

  /** The recorded timestamp is none at all or that of a genuine initiation delivered before. */
  lemma {:induction false} RecordedWasDelivered(identity: nat, trace: seq<Action>, pk: PublicKey, n: nat)
    requires n <= |trace| && Run(identity, trace[..n]).Some? && pk in Run(identity, trace[..n]).value.peers
    ensures var last := LastTimestamp(Run(identity, trace[..n]).value, pk);
            last == NO_TIMESTAMP || DeliveredBefore(identity, trace, n, pk, last)
  {
    if n > 0 {
      assert trace[..n][..n - 1] == trace[..n - 1] && trace[..n][n - 1] == trace[n - 1];
      var s, a := Run(identity, trace[..n - 1]).value, trace[n - 1];
      EveryRun(identity, trace[..n - 1]);
      if pk !in s.peers {
        NewPeerStep(s, a, pk);
      } else {
        TimestampStep(s, a, pk);
        RecordedWasDelivered(identity, trace, pk, n - 1);
        var last := LastTimestamp(s, pk);
        if DeliveredBefore(identity, trace, n - 1, pk, last) {
          var k :| 0 <= k < n - 1 && Genuine(identity, trace[k], pk)
                   && StampIn(identity, trace[k].initiation, pk) == Some(last);
          assert DeliveredBefore(identity, trace, n, pk, last);
        }
      }
    }
  }

  lemma NewerThanNone(t: Tai64n.Time)
    requires Tai64n.InRange(t) && t.unix >= 0
    ensures Tai64n.After(Tai64n.Stamp(t), NO_TIMESTAMP)
  {
    var none := Tai64n.Time(-Tai64n.BASE, 0);
    Tai64n.FieldSizes();
    assert Tai64n.Stamp(none) == NO_TIMESTAMP;
    Tai64n.StampMonotone(none, t);
  }

  /** Every genuine initiation before step `n` was stamped at least a tick before `t`, in whatever order they came. */
  ghost predicate AllEarlier(identity: nat, trace: seq<Action>, times: seq<Tai64n.Time>, n: nat, pk: PublicKey,
                             t: Tai64n.Time) {
    && n <= |trace| && n <= |times|
    && forall k | 0 <= k < n && Genuine(identity, trace[k], pk) ::
         && StampIn(identity, trace[k].initiation, pk) == Some(Tai64n.Stamp(times[k]))
         && Tai64n.InRange(times[k]) && times[k].Nanos() + Tai64n.TICK <= t.Nanos()
  }

  /**
   Whatever else arrived before it, forged, doubled, late, or turned down: a genuine initiation stamped at least a tick
   after every genuine one delivered before is no replay. It is accepted exactly if the peer runs and it is no flood.
   */
  lemma InOrderIsNoReplay(identity: nat, trace: seq<Action>, times: seq<Tai64n.Time>, pk: PublicKey, n: nat,
                          t: Tai64n.Time)
    requires n < |trace| && Run(identity, trace[..n]).Some? && pk in Run(identity, trace[..n]).value.peers
    requires Genuine(identity, trace[n], pk) && StampIn(identity, trace[n].initiation, pk) == Some(Tai64n.Stamp(t))
    requires Tai64n.InRange(t) && t.unix >= 0 && AllEarlier(identity, trace, times, n, pk, t)
    ensures var s := Run(identity, trace[..n]).value;
            var h := s.peers[pk].handshake;
            && Tai64n.After(Tai64n.Stamp(t), h.lastTimestamp)
            && (ConsumeInitiation(s, trace[n].initiation, trace[n].now).1 == Some(pk) <==>
                s.peers[pk].running
                && !(h.lastConsumption.Some? && trace[n].now - h.lastConsumption.value <= INITIATION_RATE))
  {
    var s := Run(identity, trace[..n]).value;
    var last := LastTimestamp(s, pk);
    EveryRun(identity, trace[..n]);
    RecordedWasDelivered(identity, trace, pk, n);
    if last == NO_TIMESTAMP {
      NewerThanNone(t);
    } else {
      var k :| 0 <= k < n && Genuine(identity, trace[k], pk)
               && StampIn(identity, trace[k].initiation, pk) == Some(last);
      Tai64n.StampMonotone(times[k], t);
    }
    AcceptedIf(s, trace[n].initiation, trace[n].now, pk);
  }

  predicate SameTick(t: Tai64n.Time, u: Tai64n.Time) {
    t.unix == u.unix && t.nano / Tai64n.TICK == u.nano / Tai64n.TICK
  }

  /**
   How far apart is needed: an initiation stamped after the one on record is a replay if and only if the two fall into
   one tick, and then it is turned down. Starting a peer and expiring its keypairs let two be begun that close.
   */
  lemma SameTickIsReplay(s: State, msg: Initiation, now: nat, pk: PublicKey, t: Tai64n.Time, u: Tai64n.Time)
    requires From(s.identity, msg, pk) && pk in s.peers && LastTimestamp(s, pk) == Tai64n.Stamp(t)
    requires msg.sealedStamp.Sealed? && msg.sealedStamp.plain == Octets(Tai64n.Stamp(u))
    requires Tai64n.InRange(t) && Tai64n.InRange(u) && t.Nanos() <= u.Nanos()
    ensures Tai64n.After(msg.sealedStamp.plain.b, LastTimestamp(s, pk)) <==> !SameTick(t, u)
    ensures SameTick(t, u) ==> ConsumeInitiation(s, msg, now) == (s, None)
  {
    Tai64n.StampOrder(t, u);
    Tai64n.SecondsValue(t);
    Tai64n.SecondsValue(u);
    TickMonotone(t, u);
  }

  lemma TickMonotone(t: Tai64n.Time, u: Tai64n.Time)
    requires Tai64n.InRange(t) && Tai64n.InRange(u) && t.Nanos() <= u.Nanos()
    ensures t.unix <= u.unix && (t.unix == u.unix ==> t.nano / Tai64n.TICK <= u.nano / Tai64n.TICK)
  {}
}
