/** `coalesceMessages` of internal/conn/bind_std.go: a greedy merge of datagrams into offloaded messages, in place. */
module Coalesce {
  import opened Segments

  const MAX_IPV4_PAYLOAD := 0x1_0000 - 1 - 20 - 8
  const MAX_IPV6_PAYLOAD := 0x1_0000 - 1 - 8
  const MAX_DATAGRAMS := 64

  /** A slice: its bytes, and how many its backing array has room for. */
  datatype Buffer = Buffer(data: Bytes, cap: nat)

  /** A message to send; `oob` lists the segment sizes written into its control data. */
  datatype Message = Message(buffer: Buffer, addr: int, oob: seq<nat>)

  function MaxPayload(is6: bool): nat {
    if is6 then MAX_IPV6_PAYLOAD else MAX_IPV4_PAYLOAD
  }

  /** The datagrams the kernel makes of a message. */
  function Cut(m: Message): seq<Bytes> {
    if m.oob == [] || m.oob[0] == 0 then [m.buffer.data] else Chop(m.buffer.data, m.oob[0])
  }

  /** The datagrams of a list of messages, in order. */
  function Stream(msgs: seq<Message>): seq<Bytes> {
    if msgs == [] then [] else Cut(msgs[0]) + Stream(msgs[1..])
  }

  function Datagrams(bufs: seq<Buffer>): (r: seq<Bytes>)
    ensures |r| == |bufs| && forall i :: 0 <= i < |bufs| ==> r[i] == bufs[i].data
  {
    seq(|bufs|, i requires 0 <= i < |bufs| => bufs[i].data)
  }

  /**
   The message holds exactly this group of datagrams: at most 64, all of one size but a possibly shorter last one,
   within the payload limit and the capacity of the first buffer. The segment size is set once if there is more than
   one datagram, and not at all otherwise.
   */
  ghost predicate Carries(m: Message, group: seq<Buffer>, maxPayload: nat) {
    && 0 < |group| <= MAX_DATAGRAMS
    && m.buffer.data == Concat(Datagrams(group))
    && m.buffer.cap == group[0].cap && |m.buffer.data| <= m.buffer.cap
    && (if |group| == 1 then m.oob == []
        else m.oob == [|group[0].data|] && Even(Datagrams(group), |group[0].data|) && |m.buffer.data| <= maxPayload)
  }

  /** An empty datagram was appended to others. */
  predicate Loses(group: seq<Buffer>) {
    |group| > 1 && group[|group| - 1].data == []
  }

  /** Cutting gives the datagrams back if and only if no empty one was appended; otherwise there are fewer. */
  lemma CutCarries(m: Message, group: seq<Buffer>, maxPayload: nat)
    requires Carries(m, group, maxPayload)
    ensures if Loses(group) then |Cut(m)| < |group| else Cut(m) == Datagrams(group)
  {
    var parts := Datagrams(group);
    if |group| == 1 {
      assert parts == [group[0].data] && parts[1..] == [] && Concat(parts) == group[0].data;
    } else if Loses(group) {
      if |group[0].data| > 0 {
        EmptyIsLost(parts, |group[0].data|);
      }
    } else {
      ChopConcat(parts, |group[0].data|);
    }
  }

  /** The message the loop is still adding to. */
  ghost predicate Growing(m: Message, group: seq<Buffer>, segment: nat, count: nat, endBatch: bool, maxPayload: nat) {
    && count == |group| && 0 < |group| <= MAX_DATAGRAMS && segment == |group[0].data|
    && m.buffer.data == Concat(Datagrams(group)) && m.buffer.cap == group[0].cap && |m.buffer.data| <= m.buffer.cap
    && Even(Datagrams(group), segment)
    && (endBatch <==> |group[|group| - 1].data| < segment)
    && (count > 1 ==> |m.buffer.data| <= maxPayload)
  }

  lemma Finish(m: Message, group: seq<Buffer>, segment: nat, count: nat, endBatch: bool, maxPayload: nat)
    requires Growing(m, group, segment, count, endBatch, maxPayload)
    requires m.oob == if count > 1 then [segment] else []
    ensures Carries(m, group, maxPayload)
  {}

  lemma Extend(m: Message, group: seq<Buffer>, segment: nat, count: nat, maxPayload: nat, b: Buffer)
    requires Growing(m, group, segment, count, false, maxPayload) && count < MAX_DATAGRAMS
    requires |b.data| <= segment && |m.buffer.data| + |b.data| <= maxPayload
             && |m.buffer.data| + |b.data| <= m.buffer.cap
    ensures Growing(m.(buffer := m.buffer.(data := m.buffer.data + b.data)), group + [b], segment, count + 1,
                    |b.data| < segment, maxPayload)
  {
    assert Datagrams(group + [b]) == Datagrams(group) + [b.data];
    ConcatAppend(Datagrams(group), b.data);
  }

  lemma Begin(b: Buffer, addr: int, maxPayload: nat)
    requires |b.data| <= b.cap
    ensures Growing(Message(b, addr, []), [b], |b.data|, 1, false, maxPayload)
  {
    assert Datagrams([b]) == [b.data] && [b.data][1..] == [];
    assert Concat([b.data]) == b.data;
  }

  ghost predicate CarriesGroup(msgs: seq<Message>, bufs: seq<Buffer>, starts: seq<nat>, k: nat, maxPayload: nat) {
    k < |msgs| < |starts| && starts[k] <= starts[k + 1] <= |bufs|
    && Carries(msgs[k], bufs[starts[k]..starts[k + 1]], maxPayload)
  }

  /**
   `starts[k]` is the first datagram of message `k`, and the entry after the last message is the number of datagrams.
   */
  ghost predicate Partition(msgs: seq<Message>, bufs: seq<Buffer>, starts: seq<nat>, maxPayload: nat) {
    && |starts| == |msgs| + 1 && starts[0] == 0 && starts[|msgs|] <= |bufs|
    && forall k: nat :: k < |msgs| ==> CarriesGroup(msgs, bufs, starts, k, maxPayload)
  }

  lemma DatagramsSplit(bufs: seq<Buffer>, a: nat, b: nat, c: nat)
    requires a <= b <= c <= |bufs|
    ensures Datagrams(bufs[a..c]) == Datagrams(bufs[a..b]) + Datagrams(bufs[b..c])
  {}

  /** No message from `k` on ends with an empty datagram that was appended. */
  ghost predicate NoneLost(msgs: seq<Message>, bufs: seq<Buffer>, starts: seq<nat>, k: nat)
    requires |starts| == |msgs| + 1
    decreases |msgs| - k
  {
    k >= |msgs| || (starts[k] <= starts[k + 1] <= |bufs| && !Loses(bufs[starts[k]..starts[k + 1]])
                    && NoneLost(msgs, bufs, starts, k + 1))
  }

  lemma SameConcat(a: seq<Bytes>, a': seq<Bytes>, b: seq<Bytes>, b': seq<Bytes>)
    requires |a| <= |a'| && |b| <= |b'|
    ensures a + b == a' + b' <==> a == a' && b == b'
  {
    if a + b == a' + b' {
      assert |a + b| == |a' + b'|;
      assert a == (a + b)[..|a|] && a' == (a' + b')[..|a|] && b == (a + b)[|a|..] && b' == (a' + b')[|a|..];
    }
  }

  /**
   Cutting every message from `k` on and putting the pieces in order gives the datagrams back, if and only if none was
   lost.
   */
  lemma {:induction false} PartitionStream(msgs: seq<Message>, bufs: seq<Buffer>, starts: seq<nat>, maxPayload: nat,
                                           k: nat)
    requires Partition(msgs, bufs, starts, maxPayload) && k <= |msgs|
    ensures starts[k] <= starts[|msgs|] && |Stream(msgs[k..])| <= starts[|msgs|] - starts[k]
    ensures Stream(msgs[k..]) == Datagrams(bufs[starts[k]..starts[|msgs|]]) <==> NoneLost(msgs, bufs, starts, k)
    decreases |msgs| - k
  {
    if k < |msgs| {
      assert CarriesGroup(msgs, bufs, starts, k, maxPayload);
      PartitionStream(msgs, bufs, starts, maxPayload, k + 1);
      var group := bufs[starts[k]..starts[k + 1]];
      CutCarries(msgs[k], group, maxPayload);
      DatagramsSplit(bufs, starts[k], starts[k + 1], starts[|msgs|]);
      assert msgs[k..][1..] == msgs[k + 1..];
      SameConcat(Cut(msgs[k]), Datagrams(group), Stream(msgs[k + 1..]), Datagrams(bufs[starts[k + 1]..starts[|msgs|]]));
    }
  }

  /** Nothing is lost of datagrams that all have bytes. */
  lemma {:induction false} NothingToLose(msgs: seq<Message>, bufs: seq<Buffer>, starts: seq<nat>, maxPayload: nat,
                                         k: nat)
    requires Partition(msgs, bufs, starts, maxPayload) && k <= |msgs| && forall i ::
               0 <= i < |bufs| ==> bufs[i].data != []
    ensures NoneLost(msgs, bufs, starts, k)
    decreases |msgs| - k
  {
    if k < |msgs| {
      assert CarriesGroup(msgs, bufs, starts, k, maxPayload);
      NothingToLose(msgs, bufs, starts, maxPayload, k + 1);
    }
  }

  lemma PartitionAppend(msgs: seq<Message>, m: Message, bufs: seq<Buffer>, starts: seq<nat>, end: nat, maxPayload: nat)
    requires Partition(msgs, bufs, starts, maxPayload)
    requires starts[|msgs|] <= end <= |bufs| && Carries(m, bufs[starts[|msgs|]..end], maxPayload)
    ensures Partition(msgs + [m], bufs, starts + [end], maxPayload)
  {
    forall k: nat | k < |msgs| + 1 ensures CarriesGroup(msgs + [m], bufs, starts + [end], k, maxPayload) {
      if k < |msgs| {
        assert CarriesGroup(msgs, bufs, starts, k, maxPayload);
      }
    }
  }

  /** What the loop knows before it looks at datagram `i`; `msgs0` are the messages as they were given. */
  ghost predicate LoopInvariant(msgs: seq<Message>, msgs0: seq<Message>, bufs: seq<Buffer>, i: nat, base: int,
                                segment: nat, count: nat,
                                endBatch: bool, starts: seq<nat>, addr: int, maxPayload: nat) {
    && |msgs| == |msgs0| && i <= |bufs| <= |msgs| && -1 <= base < i && |starts| == base + 1
    && (base == -1 ==> i == 0 && count == 0)
    && (base >= 0 ==>
          && starts[base] < i && Partition(msgs[..base], bufs, starts, maxPayload)
          && Growing(msgs[base], bufs[starts[base]..i], segment, count, endBatch, maxPayload)
          && msgs[base].oob == if i == |bufs| && count > 1 then [segment] else [])
    && (forall k :: 0 <= k <= base ==> msgs[k].addr == addr)
    && (forall k :: base < k < |msgs| ==> msgs[k] == msgs0[k])
  }

  lemma LoopStarts(msgs: seq<Message>, bufs: seq<Buffer>, addr: int, maxPayload: nat)
    requires |bufs| <= |msgs|
    ensures LoopInvariant(msgs, msgs, bufs, 0, -1, 0, 0, false, [], addr, maxPayload)
  {}

  // ---- Groups are as large as they can be ------------------------------------------------------

  /**
   The datagram can be added to the group: it is no longer than the first one, none before it was shorter, and neither
   the payload limit nor the room of the first buffer nor 64 datagrams would be passed.
   */
  ghost predicate Joins(group: seq<Buffer>, b: Buffer, maxPayload: nat) {
    && 0 < |group| < MAX_DATAGRAMS
    && |b.data| <= |group[0].data| && |group[|group| - 1].data| >= |group[0].data|
    && (var len := |Concat(Datagrams(group))| + |b.data|; len <= maxPayload && len <= group[0].cap)
  }

  /** Group `k` ends where the next datagram, if there is one, does not join it. */
  ghost predicate EndsRightly(bufs: seq<Buffer>, starts: seq<nat>, k: nat, maxPayload: nat) {
    k + 1 < |starts| && starts[k] <= starts[k + 1] < |bufs| ==>
      !Joins(bufs[starts[k]..starts[k + 1]], bufs[starts[k + 1]], maxPayload)
  }

  ghost predicate Greedy(bufs: seq<Buffer>, starts: seq<nat>, maxPayload: nat) {
    forall k: nat | k < |starts| :: EndsRightly(bufs, starts, k, maxPayload)
  }

  lemma GreedyAppend(bufs: seq<Buffer>, starts: seq<nat>, i: nat, maxPayload: nat)
    requires Greedy(bufs, starts, maxPayload)
    requires starts != [] && starts[|starts| - 1] <= i < |bufs| ==>
               !Joins(bufs[starts[|starts| - 1]..i], bufs[i], maxPayload)
    ensures Greedy(bufs, starts + [i], maxPayload)
  {
    forall k: nat | k < |starts| + 1 ensures EndsRightly(bufs, starts + [i], k, maxPayload) {
      assert k < |starts| ==> EndsRightly(bufs, starts, k, maxPayload);
    }
  }

  /** The test of the loop is whether the datagram joins the group. */
  lemma TestIsJoins(m: Message, group: seq<Buffer>, segment: nat, count: nat, endBatch: bool, maxPayload: nat,
                    b: Buffer)
    requires Growing(m, group, segment, count, endBatch, maxPayload)
    ensures Joins(group, b, maxPayload) <==>
            && |b.data| + |m.buffer.data| <= maxPayload && |b.data| <= segment
            && |b.data| <= m.buffer.cap - |m.buffer.data| && count < MAX_DATAGRAMS && !endBatch
  {}

  lemma {:induction false} ConcatPrefix(parts: seq<Bytes>, i: nat)
    requires i <= |parts|
    ensures |Concat(parts[..i])| <= |Concat(parts)|
    decreases |parts| - i
  {
    if i < |parts| {
      assert parts[..i + 1] == parts[..i] + [parts[i]];
      ConcatAppend(parts[..i], parts[i]);
      ConcatPrefix(parts, i + 1);
    } else {
      assert parts[..i] == parts;
    }
  }

  /** Within a message every datagram joined those before it. */
  lemma CarriesJoins(m: Message, group: seq<Buffer>, maxPayload: nat, i: nat)
    requires Carries(m, group, maxPayload) && 0 < i < |group|
    ensures Joins(group[..i], group[i], maxPayload)
  {
    var parts := Datagrams(group);
    assert Datagrams(group[..i]) == parts[..i];
    assert parts[..i + 1] == parts[..i] + [parts[i]];
    ConcatAppend(parts[..i], parts[i]);
    ConcatPrefix(parts, i + 1);
  }

  lemma NotLater(bufs: seq<Buffer>, starts: seq<nat>, msgs': seq<Message>, starts': seq<nat>, maxPayload: nat, k: nat)
    requires Greedy(bufs, starts, maxPayload) && Partition(msgs', bufs, starts', maxPayload)
    requires k < |msgs'| && k + 1 < |starts| && starts[k] == starts'[k] < starts[k + 1]
    ensures starts'[k + 1] <= starts[k + 1]
  {
    assert CarriesGroup(msgs', bufs, starts', k, maxPayload) && EndsRightly(bufs, starts, k, maxPayload);
    if starts[k + 1] < starts'[k + 1] {
      var group := bufs[starts'[k]..starts'[k + 1]];
      var i := starts[k + 1] - starts[k];
      assert group[..i] == bufs[starts[k]..starts[k + 1]] && group[i] == bufs[starts[k + 1]];
      CarriesJoins(msgs'[k], group, maxPayload, i);
    }
  }

  ghost predicate GreedyPartition(msgs: seq<Message>, bufs: seq<Buffer>, starts: seq<nat>, maxPayload: nat) {
    Partition(msgs, bufs, starts, maxPayload) && starts[|msgs|] == |bufs| && Greedy(bufs, starts, maxPayload)
  }

  lemma Begins(msgs: seq<Message>, bufs: seq<Buffer>, starts: seq<nat>, maxPayload: nat, k: nat)
    requires Partition(msgs, bufs, starts, maxPayload) && k < |msgs|
    ensures starts[k] < starts[k + 1] <= |bufs|
  {
    assert CarriesGroup(msgs, bufs, starts, k, maxPayload);
  }

  /** There is one way to do this: the groups begin at the same datagrams. */
  lemma {:induction false} SameStarts(msgs: seq<Message>, starts: seq<nat>, msgs': seq<Message>, starts': seq<nat>,
                                      bufs: seq<Buffer>, maxPayload: nat, k: nat)
    requires GreedyPartition(msgs, bufs, starts, maxPayload) && GreedyPartition(msgs', bufs, starts', maxPayload)
    requires k <= |msgs|
    ensures k <= |msgs'| && starts[k] == starts'[k]
  {
    if k > 0 {
      SameStarts(msgs, starts, msgs', starts', bufs, maxPayload, k - 1);
      Begins(msgs, bufs, starts, maxPayload, k - 1);
      assert k - 1 < |msgs'|;
      Begins(msgs', bufs, starts', maxPayload, k - 1);
      NotLater(bufs, starts, msgs', starts', maxPayload, k - 1);
      NotLater(bufs, starts', msgs, starts, maxPayload, k - 1);
    }
  }

  /** So number and contents of the messages are determined by the datagrams. */
  lemma GroupsDetermined(msgs: seq<Message>, starts: seq<nat>, msgs': seq<Message>, starts': seq<nat>,
                         bufs: seq<Buffer>, maxPayload: nat)
    requires GreedyPartition(msgs, bufs, starts, maxPayload) && GreedyPartition(msgs', bufs, starts', maxPayload)
    ensures |msgs| == |msgs'| && starts == starts'
    ensures forall k | 0 <= k < |msgs| :: msgs[k].buffer == msgs'[k].buffer && msgs[k].oob == msgs'[k].oob
  {
    SameStarts(msgs, starts, msgs', starts', bufs, maxPayload, |msgs|);
    SameStarts(msgs', starts', msgs, starts, bufs, maxPayload, |msgs'|);
    forall k: nat | k <= |msgs| ensures starts[k] == starts'[k] {
      SameStarts(msgs, starts, msgs', starts', bufs, maxPayload, k);
    }
    forall k: nat | k < |msgs| ensures msgs[k].buffer == msgs'[k].buffer && msgs[k].oob == msgs'[k].oob {
      assert CarriesGroup(msgs, bufs, starts, k, maxPayload) && CarriesGroup(msgs', bufs, starts', k, maxPayload);
    }
  }

  // ---- The loop --------------------------------------------------------------------------------

  /** Every datagram fits its buffer. */
  ghost predicate Sendable(bufs: seq<Buffer>) {
    forall i :: 0 <= i < |bufs| ==> |bufs[i].data| <= bufs[i].cap
  }

  /** No control data is set yet. */
  ghost predicate Blank(msgs: seq<Message>) {
    forall k :: 0 <= k < |msgs| ==> msgs[k].oob == []
  }

  function Append(m: Message, b: Buffer): Message {
    m.(buffer := m.buffer.(data := m.buffer.data + b.data))
  }

  function SetSegment(m: Message, segment: nat): Message {
    m.(oob := m.oob + [segment % 0x1_0000])
  }

  lemma MergeStep(msgs: seq<Message>, msgs0: seq<Message>, bufs: seq<Buffer>, i: nat, base: nat, segment: nat,
                  count: nat,
                  starts: seq<nat>, addr: int, maxPayload: nat)
    requires LoopInvariant(msgs, msgs0, bufs, i, base, segment, count, false, starts, addr, maxPayload)
    requires i < |bufs| && |bufs[i].data| <= segment && count < MAX_DATAGRAMS && maxPayload < 0x1_0000
    requires var len := |msgs[base].buffer.data| + |bufs[i].data|; len <= maxPayload && len <= msgs[base].buffer.cap
    ensures var m := Append(msgs[base], bufs[i]);
            var m' := if i == |bufs| - 1 then SetSegment(m, segment) else m;
            LoopInvariant(msgs[base := m'], msgs0, bufs, i + 1, base, segment, count + 1, |bufs[i].data| < segment,
                          starts, addr, maxPayload)
  {
    var m := Append(msgs[base], bufs[i]);
    var m' := if i == |bufs| - 1 then SetSegment(m, segment) else m;
    Extend(msgs[base], bufs[starts[base]..i], segment, count, maxPayload, bufs[i]);
    assert bufs[starts[base]..i] + [bufs[i]] == bufs[starts[base]..i + 1];
    assert msgs[base := m'][..base] == msgs[..base];
  }

  /** The message being added to is complete once its segment size is set, if it needs one. */
  lemma CloseStep(msgs: seq<Message>, msgs0: seq<Message>, bufs: seq<Buffer>, i: nat, base: int, segment: nat,
                  count: nat,
                  endBatch: bool, starts: seq<nat>, addr: int, maxPayload: nat, m: Message)
    requires LoopInvariant(msgs, msgs0, bufs, i, base, segment, count, endBatch, starts, addr, maxPayload)
             && maxPayload < 0x1_0000
    requires base >= 0 ==> m == if count > 1 && i < |bufs| then SetSegment(msgs[base], segment) else msgs[base]
    ensures if base == -1 then i == 0
            else Partition(msgs[base := m][..base + 1], bufs, starts + [i], maxPayload)
                 && msgs[base := m][..base + 1] == msgs[..base] + [m]
  {
    if base >= 0 {
      Finish(m, bufs[starts[base]..i], segment, count, endBatch, maxPayload);
      PartitionAppend(msgs[..base], m, bufs, starts, i, maxPayload);
      assert msgs[base := m][..base + 1] == msgs[..base] + [m];
    }
  }

  lemma StartStep(msgs: seq<Message>, msgs0: seq<Message>, bufs: seq<Buffer>, i: nat, base: int, segment: nat,
                  count: nat,
                  endBatch: bool, starts: seq<nat>, addr: int, maxPayload: nat, closed: seq<Message>)
    requires LoopInvariant(msgs, msgs0, bufs, i, base, segment, count, endBatch, starts, addr, maxPayload)
             && maxPayload < 0x1_0000
    requires i < |bufs| && |bufs[i].data| <= bufs[i].cap && Blank(msgs0)
    requires closed == if count > 1 then msgs[base := SetSegment(msgs[base], segment)] else msgs
    ensures LoopInvariant(closed[base + 1 := Message(bufs[i], addr, [])], msgs0, bufs, i + 1, base + 1, |bufs[i].data|,
                          1, false, starts + [i], addr, maxPayload)
  {
    var m := if base == -1 then Message(bufs[i], addr, []) else closed[base];
    CloseStep(msgs, msgs0, bufs, i, base, segment, count, endBatch, starts, addr, maxPayload, m);
    Begin(bufs[i], addr, maxPayload);
    var msgs' := closed[base + 1 := Message(bufs[i], addr, [])];
    assert bufs[i..i + 1] == [bufs[i]];
    assert msgs'[..base + 1] == closed[..base + 1];
    assert base >= 0 ==> closed == msgs[base := m];
    assert Partition(msgs'[..base + 1], bufs, starts + [i], maxPayload);
    assert forall k :: 0 <= k <= base + 1 ==> msgs'[k].addr == addr;
  }

  /** Writes one message and leaves the others alone. */
  method Put(msgs: array<Message>, k: nat, m: Message)
    requires k < msgs.Length
    modifies msgs
    ensures msgs[..] == old(msgs[..])[k := m]
  {
    msgs[k] := m;
  }

  /**
   The result: the first `n` messages hold the datagrams, group by group, to this address, with groups as large as they
   can be; cutting them gives the datagrams back in order, if and only if no empty one was appended to others; and no
   other message was touched.
   */
  ghost predicate Coalesced(msgs: seq<Message>, msgs0: seq<Message>, bufs: seq<Buffer>, n: nat, starts: seq<nat>,
                            addr: int, maxPayload: nat) {
    && n <= |bufs| && n <= |msgs| == |msgs0|
    && GreedyPartition(msgs[..n], bufs, starts, maxPayload)
    && (Stream(msgs[..n]) == Datagrams(bufs) <==> NoneLost(msgs[..n], bufs, starts, 0))
    && ((forall i :: 0 <= i < |bufs| ==> bufs[i].data != []) ==> Stream(msgs[..n]) == Datagrams(bufs))
    && (forall k :: 0 <= k < n ==> msgs[k].addr == addr)
    && (forall k :: n <= k < |msgs| ==> msgs[k] == msgs0[k])
  }

  /** This says it all: there is one result. */
  lemma CoalescedDetermined(msgs: seq<Message>, n: nat, starts: seq<nat>, msgs': seq<Message>, n': nat,
                            starts': seq<nat>, msgs0: seq<Message>, bufs: seq<Buffer>, addr: int, maxPayload: nat)
    requires Coalesced(msgs, msgs0, bufs, n, starts, addr, maxPayload)
    requires Coalesced(msgs', msgs0, bufs, n', starts', addr, maxPayload)
    ensures n == n' && starts == starts' && msgs == msgs'
  {
    GroupsDetermined(msgs[..n], starts, msgs'[..n'], starts', bufs, maxPayload);
    forall k | 0 <= k < |msgs| ensures msgs[k] == msgs'[k] {
      if k < n {
        assert msgs[..n][k] == msgs[k] && msgs'[..n][k] == msgs'[k];
      }
    }
  }

  lemma EndStep(msgs: seq<Message>, msgs0: seq<Message>, bufs: seq<Buffer>, base: int, segment: nat, count: nat,
                endBatch: bool, starts: seq<nat>, addr: int, maxPayload: nat)
    requires LoopInvariant(msgs, msgs0, bufs, |bufs|, base, segment, count, endBatch, starts, addr, maxPayload)
             && maxPayload < 0x1_0000 && Greedy(bufs, starts, maxPayload)
    ensures Coalesced(msgs, msgs0, bufs, base + 1, starts + [|bufs|], addr, maxPayload)
  {
    var m := if base == -1 then Message(Buffer([], 0), addr, []) else msgs[base];
    CloseStep(msgs, msgs0, bufs, |bufs|, base, segment, count, endBatch, starts, addr, maxPayload, m);
    assert base >= 0 ==> msgs[base := m] == msgs;
    GreedyAppend(bufs, starts, |bufs|, maxPayload);
    PartitionStream(msgs[..base + 1], bufs, starts + [|bufs|], maxPayload, 0);
    assert bufs[0..|bufs|] == bufs && msgs[..base + 1][0..] == msgs[..base + 1];
    if forall i :: 0 <= i < |bufs| ==> bufs[i].data != [] {
      NothingToLose(msgs[..base + 1], bufs, starts + [|bufs|], maxPayload, 0);
    }
  }

  /** Appends the datagram to the message being coalesced into, and sets its segment size after the last one. */
  method MergeInto(msgs: array<Message>, ghost msgs0: seq<Message>, bufs: seq<Buffer>, i: nat, base: nat, gsoSize: nat,
                   ghost dgramCnt: nat,
                   ghost starts: seq<nat>, ghost addr: int, ghost maxPayload: nat)
    requires LoopInvariant(msgs[..], msgs0, bufs, i, base, gsoSize, dgramCnt, false, starts, addr, maxPayload)
    requires i < |bufs| && |bufs[i].data| <= gsoSize && dgramCnt < MAX_DATAGRAMS && maxPayload < 0x1_0000
    requires var len := |msgs[..][base].buffer.data| + |bufs[i].data|;
             len <= maxPayload && len <= msgs[..][base].buffer.cap
    modifies msgs
    ensures LoopInvariant(msgs[..], msgs0, bufs, i + 1, base, gsoSize, dgramCnt + 1, |bufs[i].data| < gsoSize, starts,
                          addr, maxPayload)
  {
    MergeStep(msgs[..], msgs0, bufs, i, base, gsoSize, dgramCnt, starts, addr, maxPayload);
    Put(msgs, base, Append(msgs[base], bufs[i]));
    if i == |bufs| - 1 {
      Put(msgs, base, SetSegment(msgs[base], gsoSize));
    }
  }

  /** Sets the segment size of the message that ends here, if it needs one, and starts the next with the datagram. */
  method StartMessage(msgs: array<Message>, ghost msgs0: seq<Message>, bufs: seq<Buffer>, i: nat, base: int,
                      gsoSize: nat, dgramCnt: nat,
                      ghost endBatch: bool, ghost starts: seq<nat>, addr: int, ghost maxPayload: nat)
    requires LoopInvariant(msgs[..], msgs0, bufs, i, base, gsoSize, dgramCnt, endBatch, starts, addr, maxPayload)
             && maxPayload < 0x1_0000
    requires i < |bufs| && |bufs[i].data| <= bufs[i].cap && Blank(msgs0)
    modifies msgs
    ensures LoopInvariant(msgs[..], msgs0, bufs, i + 1, base + 1, |bufs[i].data|, 1, false, starts + [i], addr,
                          maxPayload)
  {
    ghost var before := msgs[..];
    if dgramCnt > 1 {
      Put(msgs, base, SetSegment(msgs[base], gsoSize));
    }
    StartStep(before, msgs0, bufs, i, base, gsoSize, dgramCnt, endBatch, starts, addr, maxPayload, msgs[..]);
    assert msgs[base + 1] == msgs0[base + 1];
    Put(msgs, base + 1, msgs[base + 1].(buffer := bufs[i], addr := addr));
  }

  /** One round of the loop: datagram `i` joins the message being coalesced into, or starts the next one. */
  method Round(msgs: array<Message>, ghost msgs0: seq<Message>, bufs: seq<Buffer>, i: nat, base: int, gsoSize: nat,
               dgramCnt: nat,
               endBatch: bool, ghost starts: seq<nat>, addr: int, maxPayloadLen: nat)
    returns (base': int, gsoSize': nat, dgramCnt': nat, endBatch': bool, ghost starts': seq<nat>)
    requires LoopInvariant(msgs[..], msgs0, bufs, i, base, gsoSize, dgramCnt, endBatch, starts, addr, maxPayloadLen)
             && maxPayloadLen < 0x1_0000
    requires i < |bufs| && Sendable(bufs) && Blank(msgs0) && Greedy(bufs, starts, maxPayloadLen)
    modifies msgs
    ensures LoopInvariant(msgs[..], msgs0, bufs, i + 1, base', gsoSize', dgramCnt', endBatch', starts', addr,
                          maxPayloadLen)
    ensures Greedy(bufs, starts', maxPayloadLen)
  {
    if i > 0 {
      TestIsJoins(msgs[base], bufs[starts[base]..i], gsoSize, dgramCnt, endBatch, maxPayloadLen, bufs[i]);
      var msgLen := |bufs[i].data|;
      var baseLenBefore := |msgs[base].buffer.data|;
      var freeBaseCap := msgs[base].buffer.cap - baseLenBefore;
      if msgLen + baseLenBefore <= maxPayloadLen && msgLen <= gsoSize && msgLen <= freeBaseCap
         && dgramCnt < MAX_DATAGRAMS && !endBatch
      {
        MergeInto(msgs, msgs0, bufs, i, base, gsoSize, dgramCnt, starts, addr, maxPayloadLen);
        return base, gsoSize, dgramCnt + 1, msgLen < gsoSize, starts;
      }
    }
    GreedyAppend(bufs, starts, i, maxPayloadLen);
    StartMessage(msgs, msgs0, bufs, i, base, gsoSize, dgramCnt, endBatch, starts, addr, maxPayloadLen);
    return base + 1, |bufs[i].data|, 1, false, starts + [i];
  }

  method CoalesceMessages(addr: int, is6: bool, bufs: seq<Buffer>, msgs: array<Message>)
    returns (n: nat, ghost starts: seq<nat>)
    requires |bufs| <= msgs.Length && Sendable(bufs) && Blank(msgs[..])
    modifies msgs
    ensures Coalesced(msgs[..], old(msgs[..]), bufs, n, starts, addr, MaxPayload(is6))
  {
    ghost var msgs0 := msgs[..];
    var base, gsoSize: nat, dgramCnt: nat, endBatch := -1, 0, 0, false;
    var maxPayloadLen := MaxPayload(is6);
    starts := [];
    LoopStarts(msgs0, bufs, addr, maxPayloadLen);
    for i := 0 to |bufs|
      invariant LoopInvariant(msgs[..], msgs0, bufs, i, base, gsoSize, dgramCnt, endBatch, starts, addr, maxPayloadLen)
      invariant Greedy(bufs, starts, maxPayloadLen)
    {
      base, gsoSize, dgramCnt, endBatch, starts :=
        Round(msgs, msgs0, bufs, i, base, gsoSize, dgramCnt, endBatch, starts, addr, maxPayloadLen);
    }
    n := base + 1;
    EndStep(msgs[..], msgs0, bufs, base, gsoSize, dgramCnt, endBatch, starts, addr, maxPayloadLen);
    starts := starts + [|bufs|];
  }
}
