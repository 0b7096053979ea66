/**
 Containers on their way to the sink: they are decrypted in any order and at any speed, taken in queue order by the
 sequential receiver of internal/transport/receive.go, and the packets in them come out in the order they were queued.
 */
module Sink {
  import opened Common
  import opened Noise
  import opened Datapath
  import Pipeline

  type Contents = map<Pipeline.Id, seq<Inbound>>

  /** The elements of the containers, one container after the other. */
  function Elements(contents: Contents, ids: seq<Pipeline.Id>): seq<Inbound>
    requires forall i | 0 <= i < |ids| :: ids[i] in contents
  {
    if ids == [] then [] else Elements(contents, ids[..|ids| - 1]) + contents[ids[|ids| - 1]]
  }

  predicate AllKnown(keys: seq<Term>, contents: Contents) {
    forall id | id in contents :: Known(keys, contents[id])
  }

  lemma {:induction false} ElementsKnown(keys: seq<Term>, contents: Contents, ids: seq<Pipeline.Id>)
    requires AllKnown(keys, contents) && forall i | 0 <= i < |ids| :: ids[i] in contents
    ensures Known(keys, Elements(contents, ids))
  {
    if ids != [] {
      ElementsKnown(keys, contents, ids[..|ids| - 1]);
    }
  }

  /** What the receiver makes of the containers, one after the other, with the filters as each leaves them. */
  ghost function ReceiveEach(keys: seq<Term>, accepted: seq<set<nat>>, contents: Contents, ids: seq<Pipeline.Id>)
    : (r: (seq<set<nat>>, seq<Bytes>))
    requires |accepted| == |keys| && AllKnown(keys, contents) && forall i | 0 <= i < |ids| :: ids[i] in contents
    ensures |r.0| == |keys|
  {
    if ids == [] then (accepted, [])
    else
      var (seen, bufs) := ReceiveEach(keys, accepted, contents, ids[..|ids| - 1]);
      var (seen', more) := ReceiveAll(keys, seen, contents[ids[|ids| - 1]]);
      (seen', bufs + more)
  }

  lemma NextAppends(keys: seq<Term>, seen: seq<set<nat>>, bufs: seq<Bytes>, more: seq<Bytes>, e: Inbound)
    requires |seen| == |keys| && e.keypair < |keys|
    ensures var (seen', more') := ReceiveNext(keys, (seen, more), e);
            ReceiveNext(keys, (seen, bufs + more), e) == (seen', bufs + more')
  {
    var content := Receive(keys[e.keypair], seen[e.keypair], e.counter, e.box).2;
    assert bufs + more + [content] == bufs + (more + [content]);
  }

  lemma {:induction false} ReceiveAppend(keys: seq<Term>, accepted: seq<set<nat>>, a: seq<Inbound>, b: seq<Inbound>)
    requires |accepted| == |keys| && Known(keys, a) && Known(keys, b)
    ensures Known(keys, a + b)
    ensures var (seen, bufs) := ReceiveAll(keys, accepted, a);
            var (seen', more) := ReceiveAll(keys, seen, b);
            ReceiveAll(keys, accepted, a + b) == (seen', bufs + more)
    decreases |b|
  {
    var (seen, bufs) := ReceiveAll(keys, accepted, a);
    if b == [] {
      assert a + b == a && bufs + [] == bufs;
    } else {
      var front, e := b[..|b| - 1], b[|b| - 1];
      ReceiveAppend(keys, accepted, a, front);
      assert (a + b)[..|a + b| - 1] == a + front && (a + b)[|a + b| - 1] == e;
      var (seen', more) := ReceiveAll(keys, seen, front);
      NextAppends(keys, seen', bufs, more, e);
    }
  }

  /** Receiving container by container is receiving all their elements. */
  lemma {:induction false} EachIsAll(keys: seq<Term>, accepted: seq<set<nat>>, contents: Contents,
                                     ids: seq<Pipeline.Id>)
    requires |accepted| == |keys| && AllKnown(keys, contents) && forall i | 0 <= i < |ids| :: ids[i] in contents
    ensures Known(keys, Elements(contents, ids))
    ensures ReceiveEach(keys, accepted, contents, ids) == ReceiveAll(keys, accepted, Elements(contents, ids))
  {
    ElementsKnown(keys, contents, ids);
    if ids != [] {
      var front := ids[..|ids| - 1];
      EachIsAll(keys, accepted, contents, front);
      ReceiveAppend(keys, accepted, Elements(contents, front), contents[ids[|ids| - 1]]);
    }
  }

  lemma {:induction false} ElementsPrefix(contents: Contents, ids: seq<Pipeline.Id>, n: nat)
    requires n <= |ids| && forall i | 0 <= i < |ids| :: ids[i] in contents
    ensures Elements(contents, ids[..n]) <= Elements(contents, ids)
    decreases |ids|
  {
    if n < |ids| {
      assert ids[..|ids| - 1][..n] == ids[..n];
      ElementsPrefix(contents, ids[..|ids| - 1], n);
    } else {
      assert ids[..n] == ids;
    }
  }

  /**
   Under every interleaving of the workers: of all elements queued for a peer, in the order they were queued, the
   receiver has looked at a prefix, and the sink has got exactly the packets of that prefix that pass, in that order.
   */
  lemma SinkInOrder(trace: seq<Pipeline.Step>, p: Pipeline.PeerId, contents: Contents, keys: seq<Term>,
                    accepted: seq<set<nat>>)
    returns (looked: nat, positions: seq<nat>)
    requires Pipeline.Run(trace).Some? && |accepted| == |keys| && AllKnown(keys, contents)
    requires var entered := Pipeline.Get(Pipeline.Run(trace).value.entered, p);
             forall i | 0 <= i < |entered| :: entered[i] in contents
    ensures var s := Pipeline.Run(trace).value;
            var (entered, taken) := (Pipeline.Get(s.entered, p), Pipeline.Ids(Pipeline.Get(s.taken, p)));
            var queued := Elements(contents, entered);
            && taken <= entered && looked <= |queued| && Elements(contents, taken) == queued[..looked]
            && Known(keys, queued) && PositionsOf(keys, accepted, queued, looked, positions)
            && BuffersAt(keys, queued, positions, ReceiveEach(keys, accepted, contents, taken).1)
  {
    var s := Pipeline.Run(trace).value;
    var entered, taken := Pipeline.Get(s.entered, p), Pipeline.Ids(Pipeline.Get(s.taken, p));
    Pipeline.PipelineSafety(trace, p);
    assert taken == entered[..|taken|];
    ElementsPrefix(contents, entered, |taken|);
    ElementsKnown(keys, contents, entered);
    EachIsAll(keys, accepted, contents, taken);
    looked := |Elements(contents, taken)|;
    positions := ReceivesInOrder(keys, accepted, Elements(contents, entered), looked);
  }
}
