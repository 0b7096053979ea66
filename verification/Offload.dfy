/**
 Sending and receiving with offload are inverse: what one side coalesces the other side splits into the same datagrams.
 */
module Offload {
  import opened Common
  import opened Segments
  import Coalesce
  import Split

  /** The message arrived whole, with the segment size it was sent with. */
  predicate Arrived(m: Coalesce.Message, r: Split.Message) {
    && r.n == |m.buffer.data| <= |r.buffer| && r.buffer[..r.n] == m.buffer.data
    && r.gso == Some(if m.oob == [] then 0 else m.oob[0])
  }

  function Payloads(segments: seq<Split.Segment>): (r: seq<Bytes>)
    ensures |r| == |segments| && forall i :: 0 <= i < |r| ==> r[i] == segments[i].data
  {
    seq(|segments|, i requires 0 <= i < |segments| => segments[i].data)
  }

  lemma PayloadsAppend(a: seq<Split.Segment>, b: seq<Split.Segment>)
    ensures Payloads(a + b) == Payloads(a) + Payloads(b)
  {}

  /** The segment size of a message, if it is set, is at most its length. */
  predicate Segmented(m: Coalesce.Message) {
    m.oob == [] || m.oob[0] <= |m.buffer.data|
  }

  lemma SameCut(m: Coalesce.Message, r: Split.Message)
    requires Arrived(m, r) && Segmented(m)
    ensures Payloads(Split.SegmentsOf(r)) == Coalesce.Cut(m)
  {}

  lemma CarriesSegmented(m: Coalesce.Message, group: seq<Coalesce.Buffer>, maxPayload: nat)
    requires Coalesce.Carries(m, group, maxPayload)
    ensures Segmented(m) && |Coalesce.Cut(m)| <= Coalesce.MAX_DATAGRAMS
  {
    Coalesce.CutCarries(m, group, maxPayload);
    assert Concat(Coalesce.Datagrams(group)) == group[0].data + Concat(Coalesce.Datagrams(group)[1..]);
  }

  /** No datagram of these is empty. */
  predicate Full(bufs: seq<Coalesce.Buffer>) {
    forall i :: 0 <= i < |bufs| ==> bufs[i].data != []
  }

  lemma {:induction false} NothingToJoin(parts: seq<Bytes>)
    requires forall i :: 0 <= i < |parts| ==> parts[i] == []
    ensures Concat(parts) == []
  {
    if parts != [] {
      NothingToJoin(parts[1..]);
    }
  }

  /** In a message that has bytes, only a datagram that was appended can be empty. */
  lemma GroupFull(m: Coalesce.Message, group: seq<Coalesce.Buffer>, maxPayload: nat)
    requires Coalesce.Carries(m, group, maxPayload)
    ensures m.buffer.data == [] ==> !Full(group)
    ensures m.buffer.data != [] ==> (Full(group) <==> !Coalesce.Loses(group))
  {
    var parts := Coalesce.Datagrams(group);
    assert Concat(parts) == parts[0] + Concat(parts[1..]);
    if m.buffer.data != [] && |group| > 1 && parts[0] == [] {
      NothingToJoin(parts);
    }
    if |group| == 1 {
      assert parts[1..] == [];
    }
  }

  lemma PlanStep(m: Coalesce.Message, received: seq<Split.Message>, i: nat)
    requires Split.WellFormed(received) && i < |received| && m.buffer.data != [] && Segmented(m)
             && Arrived(m, received[i])
    ensures Payloads(Split.Plan(received, i)) == Coalesce.Cut(m) + Payloads(Split.Plan(received, i + 1))
  {
    PayloadsAppend(Split.SegmentsOf(received[i]), Split.Plan(received, i + 1));
    SameCut(m, received[i]);
  }

  /** A message that has bytes gives its group back, and what follows is in place, exactly if the group is full. */
  lemma MessageStep(m: Coalesce.Message, group: seq<Coalesce.Buffer>, maxPayload: nat, rest: seq<Bytes>,
                    rest': seq<Bytes>)
    requires Coalesce.Carries(m, group, maxPayload) && m.buffer.data != [] && |rest| <= |rest'|
    ensures |Coalesce.Cut(m) + rest| <= |group| + |rest'|
    ensures Coalesce.Cut(m) + rest == Coalesce.Datagrams(group) + rest' <==> Full(group) && rest == rest'
  {
    GroupFull(m, group, maxPayload);
    Coalesce.CutCarries(m, group, maxPayload);
    Coalesce.SameConcat(Coalesce.Cut(m), Coalesce.Datagrams(group), rest, rest');
  }

  function Flat(groups: seq<seq<Coalesce.Buffer>>): seq<Coalesce.Buffer> {
    if groups == [] then [] else groups[0] + Flat(groups[1..])
  }

  lemma FullAppend(a: seq<Coalesce.Buffer>, b: seq<Coalesce.Buffer>)
    ensures Full(a + b) <==> Full(a) && Full(b)
    ensures Coalesce.Datagrams(a + b) == Coalesce.Datagrams(a) + Coalesce.Datagrams(b)
  {
    if Full(a + b) {
      forall i | 0 <= i < |a| ensures a[i].data != [] {
        assert (a + b)[i] == a[i];
      }
      forall i | 0 <= i < |b| ensures b[i].data != [] {
        assert (a + b)[|a| + i] == b[i];
      }
    }
  }

  /** Each message holds one group, and they arrived one after the other from slot `first` on. */
  ghost predicate Arrives(sent: seq<Coalesce.Message>, groups: seq<seq<Coalesce.Buffer>>, maxPayload: nat,
                          received: seq<Split.Message>, first: nat) {
    && |sent| == |groups| && first + |sent| <= |received|
    && forall k: nat ::
         k < |sent| ==> Coalesce.Carries(sent[k], groups[k], maxPayload) && Arrived(sent[k], received[first + k])
  }

  lemma TailArrives(sent: seq<Coalesce.Message>, groups: seq<seq<Coalesce.Buffer>>, maxPayload: nat,
                    received: seq<Split.Message>, first: nat)
    requires sent != [] && Arrives(sent, groups, maxPayload, received, first)
    ensures Coalesce.Carries(sent[0], groups[0], maxPayload) && Arrived(sent[0], received[first])
    ensures Arrives(sent[1..], groups[1..], maxPayload, received, first + 1)
  {
    assert Coalesce.Carries(sent[0], groups[0], maxPayload) && Arrived(sent[0], received[first + 0]);
    forall k: nat | k < |sent[1..]|
      ensures Coalesce.Carries(sent[1..][k], groups[1..][k], maxPayload)
              && Arrived(sent[1..][k], received[first + 1 + k])
    {
      assert Coalesce.Carries(sent[k + 1], groups[k + 1], maxPayload)
             && Arrived(sent[k + 1], received[first + (k + 1)]);
    }
  }

  /** The plan is what is left of these datagrams: all of them exactly if none is empty, and never more. */
  ghost predicate Returns(plan: seq<Split.Segment>, bufs: seq<Coalesce.Buffer>) {
    |plan| <= |bufs| && (Payloads(plan) == Coalesce.Datagrams(bufs) <==> Full(bufs))
  }

  lemma ReturnsStep(m: Coalesce.Message, group: seq<Coalesce.Buffer>, maxPayload: nat, received: seq<Split.Message>,
                    i: nat,
                    rest: seq<Coalesce.Buffer>)
    requires Split.WellFormed(received) && i < |received| && Coalesce.Carries(m, group, maxPayload)
             && Arrived(m, received[i])
    requires Returns(Split.Plan(received, i + 1), rest)
    ensures Returns(Split.Plan(received, i), group + rest)
  {
    FullAppend(group, rest);
    if m.buffer.data == [] {
      GroupFull(m, group, maxPayload);
    } else {
      CarriesSegmented(m, group, maxPayload);
      PlanStep(m, received, i);
      MessageStep(m, group, maxPayload, Payloads(Split.Plan(received, i + 1)), Coalesce.Datagrams(rest));
    }
  }

  lemma {:induction false} PlanReturns(sent: seq<Coalesce.Message>, groups: seq<seq<Coalesce.Buffer>>, maxPayload: nat,
                                       received: seq<Split.Message>, first: nat)
    requires Split.WellFormed(received) && Arrives(sent, groups, maxPayload, received, first)
    requires Split.Stops(received, first + |sent|)
    ensures Returns(Split.Plan(received, first), Flat(groups))
    decreases |sent|
  {
    if sent != [] {
      TailArrives(sent, groups, maxPayload, received, first);
      PlanReturns(sent[1..], groups[1..], maxPayload, received, first + 1);
      ReturnsStep(sent[0], groups[0], maxPayload, received, first, Flat(groups[1..]));
    }
  }

  lemma AtMostStep(m: Coalesce.Message, group: seq<Coalesce.Buffer>, maxPayload: nat, received: seq<Split.Message>,
                   i: nat)
    requires Split.WellFormed(received) && i < |received| && Coalesce.Carries(m, group, maxPayload)
             && Arrived(m, received[i])
    requires Split.AtMost(received, i + 1, Coalesce.MAX_DATAGRAMS)
    ensures Split.AtMost(received, i, Coalesce.MAX_DATAGRAMS)
  {
    if m.buffer.data != [] {
      CarriesSegmented(m, group, maxPayload);
      SameCut(m, received[i]);
    }
  }

  lemma {:induction false} ArrivesAtMost(sent: seq<Coalesce.Message>, groups: seq<seq<Coalesce.Buffer>>,
                                         maxPayload: nat,
                                         received: seq<Split.Message>, first: nat)
    requires Split.WellFormed(received) && Arrives(sent, groups, maxPayload, received, first)
    requires Split.Stops(received, first + |sent|)
    ensures Split.AtMost(received, first, Coalesce.MAX_DATAGRAMS)
    decreases |sent|
  {
    if sent != [] {
      TailArrives(sent, groups, maxPayload, received, first);
      ArrivesAtMost(sent[1..], groups[1..], maxPayload, received, first + 1);
      AtMostStep(sent[0], groups[0], maxPayload, received, first);
    }
  }

  lemma {:induction false} FlatAppend(groups: seq<seq<Coalesce.Buffer>>, g: seq<Coalesce.Buffer>)
    ensures Flat(groups + [g]) == Flat(groups) + g
  {
    if groups == [] {
      assert [g][1..] == [];
    } else {
      assert (groups + [g])[1..] == groups[1..] + [g];
      FlatAppend(groups[1..], g);
    }
  }

  /** The groups of a partition put together are the datagrams they were cut from. */
  lemma {:induction false} FlatPrefix(groups: seq<seq<Coalesce.Buffer>>, bufs: seq<Coalesce.Buffer>, starts: seq<nat>,
                                      k: nat)
    requires |starts| == |groups| + 1 && starts[0] == 0 && k <= |groups|
    requires forall j: nat :: j < |groups| ==> Between(groups[j], bufs, starts, j)
    ensures starts[k] <= |bufs| && Flat(groups[..k]) == bufs[..starts[k]]
  {
    if k > 0 {
      FlatPrefix(groups, bufs, starts, k - 1);
      assert Between(groups[k - 1], bufs, starts, k - 1);
      FlatAppend(groups[..k - 1], groups[k - 1]);
      assert groups[..k] == groups[..k - 1] + [groups[k - 1]];
    }
  }

  ghost predicate Between(g: seq<Coalesce.Buffer>, bufs: seq<Coalesce.Buffer>, starts: seq<nat>, j: nat) {
    j + 1 < |starts| && starts[j] <= starts[j + 1] <= |bufs| && g == bufs[starts[j]..starts[j + 1]]
  }

  lemma {:induction false} PartitionGroups(sent: seq<Coalesce.Message>, bufs: seq<Coalesce.Buffer>, starts: seq<nat>,
                                           maxPayload: nat, k: nat)
    returns (groups: seq<seq<Coalesce.Buffer>>)
    requires Coalesce.Partition(sent, bufs, starts, maxPayload) && k <= |sent|
    ensures |groups| == k
    ensures forall j: nat ::
              j < k ==> Between(groups[j], bufs, starts, j) && Coalesce.Carries(sent[j], groups[j], maxPayload)
  {
    if k == 0 {
      groups := [];
    } else {
      groups := PartitionGroups(sent, bufs, starts, maxPayload, k - 1);
      assert Coalesce.CarriesGroup(sent, bufs, starts, k - 1, maxPayload);
      groups := groups + [bufs[starts[k - 1]..starts[k]]];
    }
  }

  /** The datagrams went out in these messages, and the messages arrived one after the other from slot `first` on. */
  ghost predicate Delivered(bufs: seq<Coalesce.Buffer>, sent: seq<Coalesce.Message>, starts: seq<nat>, maxPayload: nat,
                            received: seq<Split.Message>, first: nat) {
    && Coalesce.Partition(sent, bufs, starts, maxPayload) && starts[|sent|] == |bufs|
    && Split.WellFormed(received) && first + |sent| <= |received| && Split.Stops(received, first + |sent|)
    && forall k: nat :: k < |sent| ==> Arrived(sent[k], received[first + k])
  }

  lemma DeliveredArrives(bufs: seq<Coalesce.Buffer>, sent: seq<Coalesce.Message>, starts: seq<nat>, maxPayload: nat,
                         received: seq<Split.Message>, first: nat) returns (groups: seq<seq<Coalesce.Buffer>>)
    requires Delivered(bufs, sent, starts, maxPayload, received, first)
    ensures Arrives(sent, groups, maxPayload, received, first) && Flat(groups) == bufs
  {
    groups := PartitionGroups(sent, bufs, starts, maxPayload, |sent|);
    FlatPrefix(groups, bufs, starts, |sent|);
    assert groups[..|sent|] == groups && bufs[..|bufs|] == bufs;
  }

  /**
   Coalesce datagrams, let the messages arrive, and split them: the datagrams come back in order, if and only if none of
   them is empty. In the read position, the last two of 128 slots, the split succeeds.
   */
  lemma RoundTrip(bufs: seq<Coalesce.Buffer>, sent: seq<Coalesce.Message>, starts: seq<nat>, maxPayload: nat,
                  received: seq<Split.Message>, first: nat)
    requires Delivered(bufs, sent, starts, maxPayload, received, first)
    ensures Payloads(Split.GoalFrom(received, first, []).plan) == Coalesce.Datagrams(bufs) <==>
            forall i :: 0 <= i < |bufs| ==> bufs[i].data != []
    ensures first + 2 == |received| && |received| >= 2 * Coalesce.MAX_DATAGRAMS ==>
              Split.GoalFrom(received, first, []).fits
  {
    var groups := DeliveredArrives(bufs, sent, starts, maxPayload, received, first);
    PlanReturns(sent, groups, maxPayload, received, first);
    WholePlan(received, first);
    if first + 2 == |received| && |received| >= 2 * Coalesce.MAX_DATAGRAMS {
      ArrivesAtMost(sent, groups, maxPayload, received, first);
      Split.NeverOverflows(received, first, Coalesce.MAX_DATAGRAMS);
    }
  }

  lemma WholePlan(received: seq<Split.Message>, first: nat)
    requires Split.WellFormed(received)
    ensures Split.GoalFrom(received, first, []).plan == Split.Plan(received, first)
  {
    var plan := Split.Plan(received, first);
    assert [] + plan == plan;
  }

  /**
   An empty datagram that starts a message of its own is sent as it is, but the split stops there and nothing comes
   back.
   */
  lemma EmptyFirst(b: nat, addr: int, received: seq<Split.Message>, first: nat)
    requires Split.WellFormed(received) && first + 2 == |received|
    requires var empty, full := Coalesce.Buffer([], 1), Coalesce.Buffer([b], 1);
             Arrived(Coalesce.Message(empty, addr, []), received[first])
             && Arrived(Coalesce.Message(full, addr, []), received[first + 1])
    ensures var empty, full := Coalesce.Buffer([], 1), Coalesce.Buffer([b], 1);
            var (bufs, sent) := ([empty, full], [Coalesce.Message(empty, addr, []), Coalesce.Message(full, addr, [])]);
            && Coalesce.Partition(sent, bufs, [0, 1, 2], Coalesce.MAX_IPV4_PAYLOAD)
            && Coalesce.NoneLost(sent, bufs, [0, 1, 2], 0)
            && Coalesce.Stream(sent) == Coalesce.Datagrams(bufs)
            && Split.GoalFrom(received, first, []).plan == []
  {
    var empty, full := Coalesce.Buffer([], 1), Coalesce.Buffer([b], 1);
    var bufs, sent, starts := [empty, full], [Coalesce.Message(empty, addr, []), Coalesce.Message(full, addr, [])],
                              [0, 1, 2];
    SingleCarries(empty, addr);
    SingleCarries(full, addr);
    assert bufs[0..1] == [empty] && bufs[1..2] == [full];
    forall k: nat | k < |sent| ensures Coalesce.CarriesGroup(sent, bufs, starts, k, Coalesce.MAX_IPV4_PAYLOAD) {}
    assert Coalesce.NoneLost(sent, bufs, starts, 2) && Coalesce.NoneLost(sent, bufs, starts, 1);
    Coalesce.PartitionStream(sent, bufs, starts, Coalesce.MAX_IPV4_PAYLOAD, 0);
    assert bufs[0..2] == bufs && sent[0..] == sent;
    WholePlan(received, first);
  }

  lemma SingleCarries(b: Coalesce.Buffer, addr: int)
    requires |b.data| <= b.cap
    ensures Coalesce.Carries(Coalesce.Message(b, addr, []), [b], Coalesce.MAX_IPV4_PAYLOAD)
  {
    assert Coalesce.Datagrams([b]) == [b.data] && [b.data][1..] == [];
    assert Concat([b.data]) == b.data;
  }
}
