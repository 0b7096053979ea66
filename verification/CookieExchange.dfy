/**
 A cookie reply finds its way back: `SendHandshakeCookie` of internal/transport/send.go addresses it to the index in the
 message it answers, and `RoutineHandshake` of internal/transport/receive.go looks that index up in the device's table.
 */
module CookieExchange {
  import opened Common
  import opened Noise
  import opened Device
  import opened DeviceInvariant
  import opened Cookie

  /** A handshake message up to its first MAC begins with the index of its sender. */
  function Body(sender: nat, rest: Term): Term {
    Cat(Octets([sender]), rest)
  }

  function SenderIn(body: Term): nat {
    if body.Cat? && body.left.Octets? && |body.left.b| == 1 then body.left.b[0] else 0
  }

  type Generators = map<PublicKey, Generator>

  /** The reply goes to the generator of the running peer that its index leads to. */
  function Deliver(s: State, generators: Generators, r: Reply, now: nat): Generators {
    if r.receiver !in s.table then generators else
    var pk := s.table[r.receiver].peer;
    if pk !in s.peers || !s.peers[pk].running || pk !in generators then generators
    else generators[pk := AfterReply(generators[pk], r, now)]
  }

  method SendHandshakeCookie(checker: CookieChecker, p: Packet, src: Term, now: nat, drawn: Term, nonce: Term)
    returns (r: Reply)
    modifies checker
    ensures r.receiver == SenderIn(p.m.body)
    ensures r == ReplyOf(checker.Value(), p.m, SenderIn(p.m.body), src, nonce) && !Stale(checker.secretSet, now)
  {
    var sender := SenderIn(p.m.body);
    r := checker.CreateReply(p, sender, src, now, drawn, nonce);
  }

  /** The index is that of the peer's handshake or of one of its keypairs. */
  ghost predicate Holds(s: State, pk: PublicKey, index: nat)
    requires pk in s.peers
  {
    || (index != 0 && index == s.peers[pk].handshake.localIndex)
    || exists k :: k in Slots(s.peers[pk]) && k.localIndex == index
  }

  lemma IndexLeadsBack(s: State, pk: PublicKey, index: nat)
    requires Inv(s) && pk in s.peers && Holds(s, pk, index)
    ensures index in s.table && s.table[index].peer == pk
  {
    assert PeerHolds(s, pk);
  }

  /** A message is sent with the index under which its handshake is entered. */
  lemma MessageNamesIndex(s: State, pk: PublicKey, ephemeral: nat, stamp: seq<nat>, index: nat, rest: Term)
    requires pk in s.peers && index != 0
    ensures var (s', msg) := CreateInitiation(s, pk, ephemeral, stamp, index);
            msg.Some? ==> Holds(s', pk, SenderIn(Body(msg.value.sender, rest)))
    ensures var (s', msg) := CreateResponse(s, pk, ephemeral, index);
            msg.Some? ==> Holds(s', pk, SenderIn(Body(msg.value.sender, rest)))
  {}

  /**
   In every reachable state: for as long as the peer holds the index that its message was sent with, a reply to that
   message reaches the generator that stamped it and no other; it installs the checker's cookie for the message's
   source exactly if that message is the latest it stamped, and changes nothing otherwise.
   */
  lemma ReplyFindsHandshake(identity: nat, trace: seq<Action>, pk: PublicKey, generators: Generators, c: Checker,
                            m: Message, src: Term, nonce: Term, now: nat)
    requires Run(identity, trace).Some? && pk in Run(identity, trace).value.peers && pk in generators
    requires Run(identity, trace).value.peers[pk].running
    requires Holds(Run(identity, trace).value, pk, SenderIn(m.body))
    requires generators[pk].mac1Key == c.mac1Key && generators[pk].sealKey == c.sealKey
    ensures var (s, g) := (Run(identity, trace).value, generators[pk]);
            var r := ReplyOf(c, m, SenderIn(m.body), src, nonce);
            Deliver(s, generators, r, now) ==
            if g.hasLastMac1 && g.lastMac1 == m.mac1
            then generators[pk := g.(cookie := CookieFor(c, src), cookieSet := Some(now))] else generators
  {
    EveryRun(identity, trace);
    var s, g := Run(identity, trace).value, generators[pk];
    IndexLeadsBack(s, pk, SenderIn(m.body));
    assert generators[pk := g] == generators;
  }
}
