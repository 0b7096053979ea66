/**
 The send pipeline of internal/transport/send.go: containers of packets enter one peer's outbound queue and one shared
 encryption queue; workers encrypt in any order and at any speed; each peer's sequential sender transmits in queue
 order. The container's mutex, locked before it is queued and unlocked by its worker, is all that holds the sender
 back. The receive side (receive.go) has the same shape, with decryption in place of encryption and the sink in place
 of the wire.
 */
module Pipeline {
  import opened Common

  type PeerId = nat
  type Worker = nat
  type Id = nat // one use of a container, between taking it from the pool and giving it back

  datatype Container = Container(peer: PeerId, size: nat, encrypted: nat, locked: bool)

  /** What the sender did with a container, and how many of its elements were encrypted then. */
  datatype Taken = Taken(id: Id, encrypted: nat, transmitted: bool)

  datatype State = State(
    containers: map<Id, Container>,
    submitting: set<Id>, // in the outbound queue, not yet in the encryption queue
    encryption: seq<Id>,
    working: map<Worker, Id>,
    outbound: map<PeerId, seq<Id>>,
    sending: map<PeerId, Id>, // taken from the outbound queue, waiting for the mutex
    entered: map<PeerId, seq<Id>>, // history: the order in which containers entered the outbound queue
    taken: map<PeerId, seq<Taken>>) // history: what the sender took, in order

  datatype Step =
    | Push(id: Id, peer: PeerId, size: nat)
    | Submit(id: Id)
    | Take(worker: Worker)
    | Encrypt(worker: Worker)
    | Release(worker: Worker)
    | Dequeue(peer: PeerId)
    | Send(peer: PeerId, running: bool)

  function Get<T>(m: map<PeerId, seq<T>>, p: PeerId): seq<T> {
    if p in m then m[p] else []
  }

  predicate Enabled(s: State, a: Step) {
    match a
    case Push(id, _, _) => id !in s.containers
    case Submit(id) => id in s.submitting
    case Take(w) => w !in s.working && s.encryption != []
    case Encrypt(w) => w in s.working && s.working[w] in s.containers
                       && s.containers[s.working[w]].encrypted < s.containers[s.working[w]].size
    case Release(w) => w in s.working && s.working[w] in s.containers
                       && s.containers[s.working[w]].encrypted == s.containers[s.working[w]].size
    case Dequeue(p) => p !in s.sending && Get(s.outbound, p) != []
    case Send(p, _) => p in s.sending && s.sending[p] in s.containers && !s.containers[s.sending[p]].locked
  }

  function Next(s: State, a: Step): State
    requires Enabled(s, a)
  {
    match a
    case Push(id, p, size) =>
      s.(containers := s.containers[id := Container(p, size, 0, true)],
      submitting := s.submitting + {id},
      outbound := s.outbound[p := Get(s.outbound, p) + [id]],
      entered := s.entered[p := Get(s.entered, p) + [id]])
    case Submit(id) => s.(submitting := s.submitting - {id}, encryption := s.encryption + [id])
    case Take(w) => s.(encryption := s.encryption[1..], working := s.working[w := s.encryption[0]])
    case Encrypt(w) =>
      var c := s.containers[s.working[w]];
      s.(containers := s.containers[s.working[w] := c.(encrypted := c.encrypted + 1)])
    case Release(w) =>
      var c := s.containers[s.working[w]];
      s.(containers := s.containers[s.working[w] := c.(locked := false)], working := s.working - {w})
    case Dequeue(p) =>
      s.(outbound := s.outbound[p := s.outbound[p][1..]], sending := s.sending[p := s.outbound[p][0]])
    case Send(p, running) =>
      var id := s.sending[p];
      s.(containers := s.containers[id := s.containers[id].(locked := true)],
      sending := s.sending - {p},
      taken := s.taken[p := Get(s.taken, p) + [Taken(id, s.containers[id].encrypted, running)]])
  }

  const Initial := State(map[], {}, [], map[], map[], map[], map[], map[])

  function Run(trace: seq<Step>): Option<State> {
    if trace == [] then Some(Initial)
    else
      var before := Run(trace[..|trace| - 1]);
      var a := trace[|trace| - 1];
      if before.None? || !Enabled(before.value, a) then None else Some(Next(before.value, a))
  }

  // ---- Invariant -------------------------------------------------------------------------------

  /** On its way to a worker or with one. */
  ghost predicate Unfinished(s: State, id: Id) {
    id in s.submitting || id in s.encryption || id in s.working.Values
  }

  function Ids(taken: seq<Taken>): (r: seq<Id>)
    ensures |r| == |taken| && forall i :: 0 <= i < |r| ==> r[i] == taken[i].id
  {
    seq(|taken|, i requires 0 <= i < |taken| => taken[i].id)
  }

  /** The container the peer's sender holds, if any. */
  function InHand(s: State, p: PeerId): seq<Id> {
    if p in s.sending then [s.sending[p]] else []
  }

  /** An unfinished container is locked and at exactly one place; a container that nobody is to encrypt is encrypted. */
  ghost predicate Mutexes(s: State) {
    && (forall id :: Unfinished(s, id) ==> id in s.containers && s.containers[id].locked)
    && (forall id :: id in s.containers && !Unfinished(s, id) ==> s.containers[id].encrypted == s.containers[id].size)
    && (forall id :: id in s.submitting ==> id !in s.encryption && id !in s.working.Values)
    && (forall i :: 0 <= i < |s.encryption| ==> s.encryption[i] !in s.working.Values)
    && (forall i, j :: 0 <= i < j < |s.encryption| ==> s.encryption[i] != s.encryption[j])
    && (forall v, w :: v in s.working && w in s.working && s.working[v] == s.working[w] ==> v == w)
  }

  /** What entered a peer's queue is what its sender took, then what it holds, then what is queued. */
  ghost predicate Ordered(s: State, p: PeerId) {
    Get(s.entered, p) == Ids(Get(s.taken, p)) + InHand(s, p) + Get(s.outbound, p)
  }

  /** Everything that entered is known, and nothing enters twice, whichever peer it is for. */
  ghost predicate Entries(s: State) {
    && (forall p, i :: p in s.entered && 0 <= i < |s.entered[p]| ==>
                         s.entered[p][i] in s.containers && s.containers[s.entered[p][i]].peer == p)
    && (forall p, i, j :: p in s.entered && 0 <= i < j < |s.entered[p]| ==> s.entered[p][i] != s.entered[p][j])
  }

  /** Nothing that was taken is still to be encrypted, and it was encrypted when it was taken. */
  ghost predicate Finished(s: State, t: Taken) {
    t.id in s.containers && !Unfinished(s, t.id) && t.encrypted == s.containers[t.id].size
  }

  ghost predicate TakenFinished(s: State) {
    forall p, i :: p in s.taken && 0 <= i < |s.taken[p]| ==> Finished(s, s.taken[p][i])
  }

  ghost predicate Inv(s: State) {
    Mutexes(s) && (forall p :: Ordered(s, p)) && Entries(s) && TakenFinished(s)
  }

  // ---- Every step keeps it ---------------------------------------------------------------------

  lemma ValuesAdded(m: map<Worker, Id>, w: Worker, id: Id)
    requires w !in m
    ensures m[w := id].Values == m.Values + {id}
  {
    var m' := m[w := id];
    assert m'[w] == id;
    forall v | v in m ensures m[v] in m'.Values {
      assert m'[v] == m[v];
    }
  }

  lemma ValuesRemoved(m: map<Worker, Id>, w: Worker)
    requires w in m && forall v :: v in m && m[v] == m[w] ==> v == w
    ensures (m - {w}).Values == m.Values - {m[w]}
  {
    var m' := m - {w};
    forall v | v in m && v != w ensures m[v] in m'.Values {
      assert m'[v] == m[v];
    }
  }

  lemma MutexesKept(s: State, a: Step)
    requires Mutexes(s) && Entries(s) && Enabled(s, a)
    ensures Mutexes(Next(s, a))
    ensures forall id :: Unfinished(Next(s, a), id) <==>
                         (Unfinished(s, id) || (a.Push? && id == a.id)) && !(a.Release? && id == s.working[a.worker])
  {
    match a
    case Push(_, _, _) =>
    case Submit(id) =>
      assert forall x :: x in s.encryption + [id] <==> x in s.encryption || x == id;
    case Take(w) =>
      ValuesAdded(s.working, w, s.encryption[0]);
      assert s.encryption == [s.encryption[0]] + s.encryption[1..];
    case Encrypt(w) =>
    case Release(w) => ValuesRemoved(s.working, w);
    case Dequeue(_) =>
    case Send(_, _) =>
  }

  lemma QueueMoves<T>(t: seq<T>, h: seq<T>, o: seq<T>, x: T)
    ensures t + h + (o + [x]) == t + h + o + [x]
    ensures o != [] ==> t + [] + o == t + [o[0]] + o[1..]
    ensures t + [x] + [] + o == t + [x] + o
  {}

  lemma OrderKept(s: State, a: Step, p: PeerId)
    requires Enabled(s, a) && Ordered(s, p)
    ensures Ordered(Next(s, a), p)
  {
    var ids, inHand, queue := Ids(Get(s.taken, p)), InHand(s, p), Get(s.outbound, p);
    match a
    case Push(id, _, _) => QueueMoves(ids, inHand, queue, id);
    case Dequeue(_) => QueueMoves(ids, inHand, queue, 0);
    case Send(q, running) =>
      if p == q {
        var t := Taken(s.sending[p], s.containers[s.sending[p]].encrypted, running);
        assert Ids(Get(s.taken, p) + [t]) == ids + [t.id];
        QueueMoves(ids, inHand, queue, t.id);
      }
    case Submit(_) =>
    case Take(_) =>
    case Encrypt(_) =>
    case Release(_) =>
  }

  lemma EntriesKept(s: State, a: Step)
    requires Entries(s) && Enabled(s, a)
    ensures Entries(Next(s, a))
  {}

  lemma TakenKept(s: State, a: Step)
    requires Mutexes(s) && Entries(s) && TakenFinished(s) && Enabled(s, a)
    ensures TakenFinished(Next(s, a))
  {
    MutexesKept(s, a);
    var s' := Next(s, a);
    forall p, i | p in s'.taken && 0 <= i < |s'.taken[p]| ensures Finished(s', s'.taken[p][i]) {
      if p in s.taken && i < |s.taken[p]| {
        assert Finished(s, s.taken[p][i]);
      }
    }
  }

  lemma {:induction false} EveryRun(trace: seq<Step>)
    requires Run(trace).Some?
    ensures Inv(Run(trace).value)
  {
    if trace != [] {
      var s, a := Run(trace[..|trace| - 1]).value, trace[|trace| - 1];
      EveryRun(trace[..|trace| - 1]);
      MutexesKept(s, a);
      EntriesKept(s, a);
      TakenKept(s, a);
      forall p ensures Ordered(Next(s, a), p) {
        OrderKept(s, a, p);
      }
    }
  }

  // ---- What it is for --------------------------------------------------------------------------

  /**
   Under every interleaving of workers, each sender takes containers in exactly the order they entered its queue,
   each once, and has all elements of a container encrypted when it transmits it.
   */
  lemma PipelineSafety(trace: seq<Step>, p: PeerId)
    requires Run(trace).Some?
    ensures var s := Run(trace).value;
            && Ids(Get(s.taken, p)) <= Get(s.entered, p)
            && (forall i :: 0 <= i < |Get(s.taken, p)| ==>
                              var t := Get(s.taken, p)[i];
                              t.id in s.containers && t.encrypted == s.containers[t.id].size)
            && (forall i, j :: 0 <= i < j < |Get(s.taken, p)| ==> Get(s.taken, p)[i].id != Get(s.taken, p)[j].id)
  {
    EveryRun(trace);
    var s := Run(trace).value;
    assert Ordered(s, p);
    forall i | 0 <= i < |Get(s.taken, p)|
      ensures Finished(s, Get(s.taken, p)[i]) && Get(s.taken, p)[i].id == Get(s.entered, p)[i] {}
  }

  /** A worker only ever touches a container no sender has taken, and unlocks a mutex that is locked. */
  lemma WorkersStayClear(trace: seq<Step>, a: Step, p: PeerId, i: nat)
    requires Run(trace).Some? && (a.Encrypt? || a.Release?) && Enabled(Run(trace).value, a)
    requires i < |Get(Run(trace).value.taken, p)|
    ensures var s := Run(trace).value;
            && s.containers[s.working[a.worker]].locked
            && Get(s.taken, p)[i].id != s.working[a.worker]
  {
    EveryRun(trace);
    var s := Run(trace).value;
    assert s.working[a.worker] in s.working.Values;
    assert Unfinished(s, s.working[a.worker]);
    assert Finished(s, Get(s.taken, p)[i]);
  }

  /**
   The sender never waits for a mutex that no one will unlock: what it holds is with a worker, or on its way to one, or
   free.
   */
  lemma SenderNotStuck(trace: seq<Step>, p: PeerId)
    requires Run(trace).Some? && p in Run(trace).value.sending
    ensures var s := Run(trace).value;
            s.sending[p] in s.containers && (s.containers[s.sending[p]].locked ==> Unfinished(s, s.sending[p]))
  {
    NotStuck(trace, p);
  }

  /** What a sender is sending is in no queue, its own or another's. */
  lemma SentIsGone(s: State, p: PeerId, q: PeerId, id: Id)
    requires Inv(s) && q in s.sending
    requires id in if p == q then Get(s.outbound, p) else InHand(s, p) + Get(s.outbound, p)
    ensures id != s.sending[q]
  {
    assert Ordered(s, p) && Ordered(s, q);
    var sent := |Ids(Get(s.taken, q))|;
    assert Get(s.entered, q)[sent] == s.sending[q];
    var start := |Ids(Get(s.taken, p))|;
    if id in Get(s.outbound, p) {
      var i :| 0 <= i < |Get(s.outbound, p)| && Get(s.outbound, p)[i] == id;
      assert Get(s.entered, p)[start + |InHand(s, p)| + i] == id;
    } else {
      assert Get(s.entered, p)[start] == id;
    }
  }

  lemma {:induction false} NotStuck(trace: seq<Step>, p: PeerId)
    requires Run(trace).Some?
    ensures var s := Run(trace).value;
            forall id :: id in InHand(s, p) + Get(s.outbound, p) ==>
                           id in s.containers && (s.containers[id].locked ==> Unfinished(s, id))
  {
    EveryRun(trace);
    if trace != [] {
      var s, a := Run(trace[..|trace| - 1]).value, trace[|trace| - 1];
      EveryRun(trace[..|trace| - 1]);
      NotStuck(trace[..|trace| - 1], p);
      MutexesKept(s, a);
      var s' := Next(s, a);
      forall id | id in InHand(s', p) + Get(s'.outbound, p)
        ensures id in s'.containers && (s'.containers[id].locked ==> Unfinished(s', id))
      {
        assert id in InHand(s, p) + Get(s.outbound, p) || (a.Push? && id == a.id);
        if a.Send? {
          SentIsGone(s, p, a.peer, id);
        }
      }
    }
  }
}
