/**
 The staged queue of internal/transport/send.go: `StagePackets`, `SendStagedPackets` and `FlushStagedPackets` of one
 peer, run one call at a time. A container is the list of its elements; a queue is the list of its containers.
 */
module Staged {
  import opened Common

  const STAGED_SIZE := 128

  type Elem = nat
  type Container = seq<Elem>

  datatype Numbered = Numbered(elem: Elem, nonce: nat)

  function Flatten(q: seq<Container>): seq<Elem> {
    if q == [] then [] else q[0] + Flatten(q[1..])
  }

  /** The elements with consecutive nonces. */
  function Number(c: Container, nonce: nat): (r: seq<Numbered>)
    ensures |r| == |c| && forall i :: 0 <= i < |c| ==> r[i] == Numbered(c[i], nonce + i)
  {
    seq(|c|, i requires 0 <= i < |c| => Numbered(c[i], nonce + i))
  }

  /**
   What sending leaves: containers ready to be encrypted, what is still staged, the nonce, and whether a handshake was
   asked for.
   */
  datatype Outcome = Outcome(sent: seq<seq<Numbered>>, staged: seq<Container>, nonce: nat, handshake: bool)

  /**
   Sending container by container. The one that runs out of nonces goes to the back of the queue without its first
   elements.
   */
  function Drain(staged: seq<Container>, nonce: nat): Outcome
    requires nonce <= REJECT_AFTER
    decreases |staged|
  {
    if staged == [] then Outcome([], [], nonce, false) else
    var c, rest := staged[0], staged[1..];
    if c == [] then
      if rest != [] && nonce >= REJECT_AFTER then Outcome([], rest, nonce, true) else Drain(rest, nonce)
    else if nonce + |c| <= REJECT_AFTER then
      After([Number(c, nonce)], Drain(rest, nonce + |c|))
    else
      var room := REJECT_AFTER - nonce;
      Outcome(if room == 0 then [] else [Number(c[..room], nonce)], rest + [c[room..]], REJECT_AFTER, true)
  }

  /** Sending from the check of the keypair on. */
  function FromTop(staged: seq<Container>, nonce: nat): Outcome
    requires nonce <= REJECT_AFTER
  {
    if staged != [] && nonce >= REJECT_AFTER then Outcome([], staged, nonce, true) else Drain(staged, nonce)
  }

  function After(done: seq<seq<Numbered>>, o: Outcome): Outcome {
    o.(sent := done + o.sent)
  }

  // ---- What the outcome means ------------------------------------------------------------------

  function Elems(sent: seq<seq<Numbered>>): seq<Elem> {
    if sent == [] then [] else Plain(sent[0]) + Elems(sent[1..])
  }

  function Plain(c: seq<Numbered>): (r: seq<Elem>)
    ensures |r| == |c| && forall i :: 0 <= i < |c| ==> r[i] == c[i].elem
  {
    seq(|c|, i requires 0 <= i < |c| => c[i].elem)
  }

  /** All containers together are numbered one after the other. */
  ghost predicate Consecutive(sent: seq<seq<Numbered>>, nonce: nat) {
    sent == [] || (sent[0] == Number(Plain(sent[0]), nonce) && sent[0] != []
                   && Consecutive(sent[1..], nonce + |sent[0]|))
  }

  lemma {:induction false} FlattenAppend(q: seq<Container>, c: Container)
    ensures Flatten(q + [c]) == Flatten(q) + c
  {
    if q == [] {
      assert [c][1..] == [];
    } else {
      assert (q + [c])[1..] == q[1..] + [c];
      FlattenAppend(q[1..], c);
    }
  }

  /** Every element either is sent or stays staged, and none is lost or doubled. */
  ghost predicate Conserved(staged: seq<Container>, o: Outcome) {
    multiset(Elems(o.sent)) + multiset(Flatten(o.staged)) == multiset(Flatten(staged))
  }

  /**
   Whole containers were sent, and then possibly the first `n` elements of one more. What stays is staged in the order
   it was; but a container that was begun, or that was to be next, is behind the others now.
   */
  ghost predicate StaysFrom(staged: seq<Container>, o: Outcome, i: nat, n: nat) {
    || (i <= |staged| && Elems(o.sent) == Flatten(staged[..i]) && o.staged == staged[i..])
    || (i < |staged| && n < |staged[i]| && Elems(o.sent) == Flatten(staged[..i]) + staged[i][..n]
        && o.staged == staged[i + 1..] + [staged[i][n..]])
  }

  ghost predicate Stays(staged: seq<Container>, o: Outcome) {
    exists i: nat, n: nat :: StaysFrom(staged, o, i, n)
  }

  lemma StaysBehind(c: Container, rest: seq<Container>, o: Outcome, o': Outcome)
    requires Stays(rest, o) && Elems(o'.sent) == c + Elems(o.sent) && o'.staged == o.staged
    ensures Stays([c] + rest, o')
  {
    var i: nat, n: nat :| StaysFrom(rest, o, i, n);
    OneInFront(c, rest, i);
    if i < |rest| {
      OneInFront(c, rest, i + 1);
      if n < |rest[i]| {
        Associative(c, Flatten(rest[..i]), rest[i][..n]);
      }
    }
    assert StaysFrom([c] + rest, o', i + 1, n);
  }

  lemma Associative<T>(a: seq<T>, b: seq<T>, c: seq<T>)
    ensures a + (b + c) == a + b + c
    ensures a + [] == a && [] + c == c
  {}

  lemma OneInFront(c: Container, rest: seq<Container>, i: nat)
    requires i <= |rest|
    ensures Flatten(([c] + rest)[..i + 1]) == c + Flatten(rest[..i])
    ensures ([c] + rest)[i + 1..] == rest[i..] && (i < |rest| ==> ([c] + rest)[i + 1] == rest[i])
  {
    assert ([c] + rest)[..i + 1][1..] == rest[..i];
  }

  /**
   What is sent is the longest prefix of the staged elements that there are nonces for, numbered from `nonce` on. If
   anything stays staged then a handshake was asked for and the nonces are used up. The queue never needs more room
   than it had.
   */
  ghost predicate Right(staged: seq<Container>, nonce: nat, o: Outcome) {
    Longest(staged, nonce, o) && Conserved(staged, o) && Stays(staged, o)
  }

  ghost predicate Longest(staged: seq<Container>, nonce: nat, o: Outcome) {
    && Elems(o.sent) <= Flatten(staged)
    && Consecutive(o.sent, nonce)
    && o.nonce == nonce + |Elems(o.sent)| <= REJECT_AFTER
    && (o.staged != [] ==> o.handshake && o.nonce == REJECT_AFTER)
    && (o.handshake ==> o.staged != [])
    && |o.staged| <= |staged|
  }

  lemma {:induction false} DrainIsRight(staged: seq<Container>, nonce: nat)
    requires nonce <= REJECT_AFTER
    ensures Right(staged, nonce, Drain(staged, nonce))
    decreases |staged|
  {
    if staged == [] {
      assert StaysFrom(staged, Drain(staged, nonce), 0, 0);
    } else {
      var c, rest := staged[0], staged[1..];
      assert staged == [c] + rest;
      if c == [] && rest != [] && nonce >= REJECT_AFTER {
        assert Drain(staged, nonce) == Outcome([], rest, nonce, true);
        StopRight(rest, nonce);
        SkipRight(rest, nonce, Outcome([], rest, nonce, true));
      } else if c == [] {
        assert Drain(staged, nonce) == Drain(rest, nonce);
        DrainIsRight(rest, nonce);
        SkipRight(rest, nonce, Drain(rest, nonce));
      } else if nonce + |c| <= REJECT_AFTER {
        assert Drain(staged, nonce) == After([Number(c, nonce)], Drain(rest, nonce + |c|));
        DrainIsRight(rest, nonce + |c|);
        PrependRight(c, rest, nonce, Drain(rest, nonce + |c|));
      } else {
        RunOutRight(c, rest, nonce);
      }
    }
  }

  /** What `SendStagedPackets` leaves is right, whatever is staged and however many nonces are left. */
  lemma SendingIsRight(staged: seq<Container>, nonce: nat)
    requires nonce <= REJECT_AFTER
    ensures Right(staged, nonce, FromTop(staged, nonce))
  {
    if staged != [] && nonce >= REJECT_AFTER {
      StopRight(staged, nonce);
    } else {
      DrainIsRight(staged, nonce);
    }
  }

  lemma StopRight(staged: seq<Container>, nonce: nat)
    requires staged != [] && nonce == REJECT_AFTER
    ensures Right(staged, nonce, Outcome([], staged, nonce, true))
  {
    assert StaysFrom(staged, Outcome([], staged, nonce, true), 0, 0);
  }

  lemma SkipRight(rest: seq<Container>, nonce: nat, o: Outcome)
    requires Right(rest, nonce, o)
    ensures Right([[]] + rest, nonce, o)
  {
    assert ([[]] + rest)[1..] == rest && Flatten([[]] + rest) == Flatten(rest);
    StaysBehind([], rest, o, o);
  }

  lemma PrependRight(c: Container, rest: seq<Container>, nonce: nat, o: Outcome)
    requires c != [] && nonce + |c| <= REJECT_AFTER && Right(rest, nonce + |c|, o)
    ensures Right([c] + rest, nonce, After([Number(c, nonce)], o))
  {
    var o' := After([Number(c, nonce)], o);
    assert o'.sent[1..] == o.sent && ([c] + rest)[1..] == rest;
    assert Plain(Number(c, nonce)) == c;
    assert Elems(o'.sent) == c + Elems(o.sent) && Flatten([c] + rest) == c + Flatten(rest);
    PrependLongest(c, rest, nonce, o, o');
    PrependConserved(c, rest, o, o');
    StaysBehind(c, rest, o, o');
  }

  lemma PrependLongest(c: Container, rest: seq<Container>, nonce: nat, o: Outcome, o': Outcome)
    requires c != [] && nonce + |c| <= REJECT_AFTER && Longest(rest, nonce + |c|, o)
    requires o' == After([Number(c, nonce)], o) && o'.sent[1..] == o.sent && Plain(Number(c, nonce)) == c
    requires Elems(o'.sent) == c + Elems(o.sent) && Flatten([c] + rest) == c + Flatten(rest)
    ensures Longest([c] + rest, nonce, o')
  {}

  lemma PrependConserved(c: Container, rest: seq<Container>, o: Outcome, o': Outcome)
    requires Conserved(rest, o) && o'.staged == o.staged
    requires Elems(o'.sent) == c + Elems(o.sent) && Flatten([c] + rest) == c + Flatten(rest)
    ensures Conserved([c] + rest, o')
  {}

  lemma RunOutRight(c: Container, rest: seq<Container>, nonce: nat)
    requires nonce <= REJECT_AFTER < nonce + |c|
    ensures Right([c] + rest, nonce, Drain([c] + rest, nonce))
  {
    var room := REJECT_AFTER - nonce;
    var o := Drain([c] + rest, nonce);
    assert ([c] + rest)[1..] == rest;
    RunOutSends(c, nonce, room, o.sent);
    FlattenAppend(rest, c[room..]);
    assert Flatten([c] + rest) == c + Flatten(rest);
    RunOutConserved(c, rest, room, o);
    RunOutStays(c, rest, room, o);
  }

  lemma RunOutSends(c: Container, nonce: nat, room: nat, sent: seq<seq<Numbered>>)
    requires room <= |c| && sent == if room == 0 then [] else [Number(c[..room], nonce)]
    ensures Elems(sent) == c[..room] && Consecutive(sent, nonce)
  {
    if room > 0 {
      assert sent[1..] == [] && Plain(Number(c[..room], nonce)) == c[..room];
      assert Elems(sent) == c[..room] + [];
    }
  }

  lemma RunOutConserved(c: Container, rest: seq<Container>, room: nat, o: Outcome)
    requires room <= |c| && Elems(o.sent) == c[..room] && Flatten(o.staged) == Flatten(rest) + c[room..]
    requires Flatten([c] + rest) == c + Flatten(rest)
    ensures Conserved([c] + rest, o)
  {
    assert c == c[..room] + c[room..];
  }

  lemma RunOutStays(c: Container, rest: seq<Container>, room: nat, o: Outcome)
    requires room < |c| && Elems(o.sent) == c[..room] && o.staged == rest + [c[room..]]
    ensures Stays([c] + rest, o)
  {
    var staged := [c] + rest;
    assert staged[..0] == [] && [] + c[..room] == c[..room] && staged[1..] == rest;
    assert StaysFrom(staged, o, 0, room);
  }

  // ---- The mutable queue -----------------------------------------------------------------------

  /** A peer's queue: what is staged, what went on to encryption, what was given back, and the handshakes asked for. */
  datatype View = View(staged: seq<Container>, nonce: nat, sent: seq<seq<Numbered>>, released: seq<Elem>,
                       handshakes: nat)

  /** Elements that got a nonce go on when the peer is running and are given back when it is not. */
  function Finish(v: View, o: Outcome, running: bool): View {
    View(o.staged, o.nonce, if running then v.sent + o.sent else v.sent,
         if running then v.released else v.released + Elems(o.sent),
         v.handshakes + (if o.handshake then 1 else 0))
  }

  /** One call of `SendStagedPackets`. */
  function Send(v: View, isUp: bool, usable: bool, running: bool): View
    requires v.nonce <= REJECT_AFTER
  {
    if !isUp || v.staged == [] then v
    else if !usable then v.(handshakes := v.handshakes + 1)
    else Finish(v, FromTop(v.staged, v.nonce), running)
  }

  lemma FinishAfter(v: View, c: seq<Numbered>, o: Outcome, running: bool)
    ensures Finish(v, After([c], o), running) ==
            Finish(v.(sent := if running then v.sent + [c] else v.sent,
                   released := if running then v.released else v.released + Plain(c)), o, running)
  {
    assert ([c] + o.sent)[1..] == o.sent;
    Associative(v.sent, [c], o.sent);
    Associative(v.released, Plain(c), Elems(o.sent));
  }

  lemma FinishNothing(v: View, o: Outcome, running: bool)
    ensures Finish(v, After([], o), running) == Finish(v, o, running)
    ensures o.sent == [] ==>
              Finish(v, o, running) ==
              View(o.staged, o.nonce, v.sent, v.released, v.handshakes + (if o.handshake then 1 else 0))
  {
    Associative(v.sent, [], o.sent);
    Associative(v.released, [], []);
  }

  lemma {:induction false} ElemsConcat(a: seq<seq<Numbered>>, b: seq<seq<Numbered>>)
    ensures Elems(a + b) == Elems(a) + Elems(b)
  {
    if a == [] {
      assert a + b == b;
    } else {
      assert (a + b)[1..] == a[1..] + b;
      ElemsConcat(a[1..], b);
    }
  }

  /** Every element a peer holds: staged, numbered for encryption, or given back. */
  function Everything(v: View): multiset<Elem> {
    multiset(Flatten(v.staged)) + multiset(Elems(v.sent)) + multiset(v.released)
  }

  /** A call loses no element and doubles none: each ends in exactly one of the three places. */
  lemma SendConserves(v: View, isUp: bool, usable: bool, running: bool)
    requires v.nonce <= REJECT_AFTER
    ensures Everything(Send(v, isUp, usable, running)) == Everything(v)
  {
    if isUp && usable && v.staged != [] {
      SendingIsRight(v.staged, v.nonce);
      ElemsConcat(v.sent, FromTop(v.staged, v.nonce).sent);
    }
  }

  /**
   What one call does. Nothing if the device is down or nothing is staged. Without a keypair to send under it asks for
   one handshake and leaves all else as it is. With one, the longest prefix of the staged elements that there are
   nonces for is numbered from the old nonce on, and goes on to encryption if the peer is running and back to the pool
   otherwise; one handshake is asked for exactly if something stays staged.
   */
  lemma SendDoes(v: View, isUp: bool, usable: bool, running: bool)
    requires v.nonce <= REJECT_AFTER
    ensures var v' := Send(v, isUp, usable, running);
            if !isUp || v.staged == [] then v' == v
            else if !usable then
              && (v'.staged, v'.nonce, v'.sent, v'.released) == (v.staged, v.nonce, v.sent, v.released)
              && v'.handshakes == v.handshakes + 1
            else
              && SendsPrefix(v, v', running)
              && v'.handshakes == v.handshakes + (if v'.staged == [] then 0 else 1)
  {
    if isUp && v.staged != [] && usable {
      var o := FromTop(v.staged, v.nonce);
      SendingIsRight(v.staged, v.nonce);
      assert SendsExactly(v, Send(v, isUp, usable, running), running, o);
    }
  }

  ghost predicate SendsPrefix(v: View, v': View, running: bool) {
    exists o :: SendsExactly(v, v', running, o)
  }

  ghost predicate SendsExactly(v: View, v': View, running: bool, o: Outcome) {
    && Right(v.staged, v.nonce, o) && v'.staged == o.staged && v'.nonce == o.nonce
    && v'.sent == (if running then v.sent + o.sent else v.sent)
    && v'.released == (if running then v.released else v.released + Elems(o.sent))
  }

  /** What one container contributes, in each of the three ways it can go. */
  lemma DrainStep(staged: seq<Container>, nonce: nat)
    requires staged != [] && nonce <= REJECT_AFTER
    ensures var c, rest := staged[0], staged[1..];
            var room := if |c| <= REJECT_AFTER - nonce then |c| else REJECT_AFTER - nonce;
            var kept, apart := Number(c[..room], nonce), c[room..];
            Drain(staged, nonce) ==
            if kept == [] then After([], FromTop(if apart == [] then rest else rest + [apart], nonce))
            else if apart == [] then After([kept], Drain(rest, nonce + |c|))
            else After([kept], FromTop(rest + [apart], REJECT_AFTER))
  {
    var c, rest := staged[0], staged[1..];
    assert c[..|c|] == c;
  }

  /** What one container leaves, and whether the keypair has to be checked again. */
  function Round(v: View, running: bool): (View, bool)
    requires v.staged != [] && v.nonce <= REJECT_AFTER
  {
    var c, rest := v.staged[0], v.staged[1..];
    var room := if |c| <= REJECT_AFTER - v.nonce then |c| else REJECT_AFTER - v.nonce;
    var kept, apart := Number(c[..room], v.nonce), c[room..];
    var v1 := v.(staged := if apart == [] then rest else rest + [apart], nonce := v.nonce + room);
    if kept == [] then (v1, true)
    else if running then (v1.(sent := v.sent + [kept]), apart != [])
    else (v1.(released := v.released + Plain(kept)), apart != [])
  }

  lemma RoundFinish(v: View, running: bool, o: Outcome)
    requires v.staged != [] && v.nonce <= REJECT_AFTER
    ensures var c := v.staged[0];
            var room := if |c| <= REJECT_AFTER - v.nonce then |c| else REJECT_AFTER - v.nonce;
            var done := if room == 0 then [] else [Number(c[..room], v.nonce)];
            Finish(v, After(done, o), running) == Finish(Round(v, running).0, o, running)
  {
    var c := v.staged[0];
    var room := if |c| <= REJECT_AFTER - v.nonce then |c| else REJECT_AFTER - v.nonce;
    if room == 0 {
      FinishNothing(v, o, running);
    } else {
      FinishAfter(v, Number(c[..room], v.nonce), o, running);
    }
  }

  /** One container at a time comes to the outcome of the whole call. */
  lemma RoundLeaves(v: View, running: bool)
    requires v.staged != [] && v.nonce <= REJECT_AFTER
    ensures var (v', again) := Round(v, running);
            && v'.nonce <= REJECT_AFTER
            && Finish(v, Drain(v.staged, v.nonce), running) ==
               Finish(v', if again then FromTop(v'.staged, v'.nonce) else Drain(v'.staged, v'.nonce), running)
  {
    var (v', again) := Round(v, running);
    DrainStep(v.staged, v.nonce);
    RoundFinish(v, running, if again then FromTop(v'.staged, v'.nonce) else Drain(v'.staged, v'.nonce));
  }

  class Queue {
    var staged: seq<Container>
    var nonce: nat
    var sent: seq<seq<Numbered>> // put on the outbound and the encryption queue
    var released: seq<Elem> // given back to the pool
    var handshakes: nat // handshake initiations asked for

    function Value(): View
      reads this
    {
      View(staged, nonce, sent, released, handshakes)
    }

    ghost predicate Valid()
      reads this
    {
      |staged| <= STAGED_SIZE && nonce <= REJECT_AFTER
    }

    /** Drops the oldest container when the queue is full. */
    method StagePackets(c: Container)
      requires |staged| <= STAGED_SIZE
      modifies this`staged, this`released
      ensures if old(|staged|) < STAGED_SIZE
              then staged == old(staged) + [c] && released == old(released)
              else staged == old(staged)[1..] + [c] && released == old(released) + old(staged)[0]
    {
      while true
        invariant (staged == old(staged) && released == old(released)) ||
                  (old(|staged|) == STAGED_SIZE && staged == old(staged)[1..]
                   && released == old(released) + old(staged)[0])
        decreases |staged|
      {
        if |staged| < STAGED_SIZE {
          staged := staged + [c];
          return;
        }
        released := released + staged[0];
        staged := staged[1..];
      }
    }

    method FlushStagedPackets()
      modifies this`staged, this`released
      ensures staged == [] && released == old(released) + Flatten(old(staged))
    {
      while staged != []
        invariant released + Flatten(staged) == old(released) + Flatten(old(staged))
        decreases |staged|
      {
        assert Flatten(staged) == staged[0] + Flatten(staged[1..]);
        released := released + staged[0];
        staged := staged[1..];
      }
    }

    /** Takes a nonce for each element; those that get none are returned apart. */
    method NumberElems(c: Container) returns (kept: seq<Numbered>, apart: Container)
      requires nonce <= REJECT_AFTER
      modifies this`nonce
      ensures var room := if |c| <= REJECT_AFTER - old(nonce) then |c| else REJECT_AFTER - old(nonce);
              kept == Number(c[..room], old(nonce)) && apart == c[room..] && nonce == old(nonce) + room
    {
      kept, apart := [], [];
      for k := 0 to |c|
        invariant nonce <= REJECT_AFTER
        invariant var room := if k <= REJECT_AFTER - old(nonce) then k else REJECT_AFTER - old(nonce);
                  kept == Number(c[..room], old(nonce)) && apart == c[room..k] && nonce == old(nonce) + room
      {
        var taken := nonce;
        nonce := nonce + 1;
        if taken >= REJECT_AFTER {
          nonce := REJECT_AFTER;
          apart := apart + [c[k]];
        } else {
          kept := kept + [Numbered(c[k], taken)];
        }
      }
    }

    /** Queues numbered elements for encryption, or gives them back when the peer is not running. */
    method Dispatch(kept: seq<Numbered>, running: bool)
      modifies this`sent, this`released
      ensures sent == if running then old(sent) + [kept] else old(sent)
      ensures released == if running then old(released) else old(released) + Plain(kept)
    {
      if running {
        sent := sent + [kept];
      } else {
        released := released + Plain(kept);
      }
    }

    /**
     One container: numbered as far as there are nonces; the rest of it is staged again. `again`: check the keypair
     again.
     */
    method SendContainer(running: bool) returns (again: bool)
      requires Valid() && staged != []
      modifies this`staged, this`nonce, this`sent, this`released
      ensures Valid()
      ensures Finish(old(Value()), Drain(old(staged), old(nonce)), running) ==
              Finish(Value(), if again then FromTop(staged, nonce) else Drain(staged, nonce), running)
      ensures nonce == REJECT_AFTER || |staged| < |old(staged)|
      ensures |staged| <= |old(staged)| && (!again ==> |staged| < |old(staged)|)
    {
      var c := staged[0];
      RoundLeaves(Value(), running);
      staged := staged[1..];
      var kept, apart := NumberElems(c);
      if apart != [] {
        StagePackets(apart);
      }
      if kept == [] {
        assert (Value(), true) == Round(old(Value()), running);
        return true;
      }
      Dispatch(kept, running);
      again := apart != [];
      assert (Value(), again) == Round(old(Value()), running);
    }

    /** Container after container, until the queue is empty or the keypair has to be checked again. */
    method SendContainers(running: bool) returns (again: bool)
      requires Valid() && nonce < REJECT_AFTER && staged != []
      modifies this`staged, this`nonce, this`sent, this`released
      ensures Valid()
      ensures Finish(old(Value()), Drain(old(staged), old(nonce)), running) ==
              Finish(Value(), FromTop(staged, nonce), running)
      ensures !again ==> staged == []
      ensures nonce == REJECT_AFTER || |staged| < |old(staged)|
    {
      again := false;
      while !again && staged != []
        invariant Valid() && |staged| <= |old(staged)|
        invariant nonce == REJECT_AFTER || |staged| < |old(staged)| || (!again && staged == old(staged))
        invariant Finish(old(Value()), Drain(old(staged), old(nonce)), running) ==
                  Finish(Value(), if again then FromTop(staged, nonce) else Drain(staged, nonce), running)
        decreases !again, |staged|
      {
        again := SendContainer(running);
      }
    }

    /** `usable`: there is a current keypair and it is not too old. `running`: the peer is running. */
    method SendStagedPackets(isUp: bool, usable: bool, running: bool)
      requires Valid()
      modifies this
      ensures Valid()
      ensures Value() == Send(old(Value()), isUp, usable, running)
    {
      while true
        invariant Valid() && Send(Value(), isUp, usable, running) == Send(old(Value()), isUp, usable, running)
        decreases if nonce < REJECT_AFTER then |staged| + 1 else 0
      {
        if staged == [] || !isUp {
          return;
        }
        if !usable || nonce >= REJECT_AFTER {
          FinishNothing(Value(), FromTop(staged, nonce), running);
          handshakes := handshakes + 1;
          return;
        }
        var again := SendContainers(running);
        if staged == [] {
          FinishNothing(Value(), FromTop(staged, nonce), running);
          return;
        }
        assert again;
      }
    }
  }
}
