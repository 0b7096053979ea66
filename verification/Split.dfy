/**
 `splitCoalescedMessages` of internal/conn/bind_std.go: cuts received messages into the front slots of the same array.
 */
module Split {
  import opened Common
  import opened Segments

  /**
   A received message: its whole buffer, the bytes used, the sender, and the segment size its control data gives (or
   none).
   */
  datatype Message = Message(buffer: Bytes, n: nat, addr: int, gso: Option<nat>)

  datatype Segment = Segment(data: Bytes, addr: int)

  datatype Error = BadControl | Overflow

  /** The datagrams the kernel joined into the message. */
  function Joined(m: Message): (r: seq<Bytes>)
    requires m.gso.Some? && m.n <= |m.buffer|
  {
    if m.gso.value == 0 then [m.buffer[..m.n]] else Chop(m.buffer[..m.n], m.gso.value)
  }

  /** What the message is cut into. The end of the first segment is not held against the length of the message. */
  function Cut(m: Message): (r: seq<Bytes>)
    requires m.gso.Some? && m.n <= |m.buffer| && m.gso.value <= |m.buffer|
    ensures |r| == |Joined(m)| > 0
  {
    if m.gso.value > m.n then [m.buffer[..m.gso.value]] else Joined(m)
  }

  /** So it is cut into what was joined if and only if the segment size is at most the length. */
  lemma CutIsJoined(m: Message)
    requires m.gso.Some? && m.n <= |m.buffer| && m.gso.value <= |m.buffer|
    ensures Cut(m) == Joined(m) <==> m.gso.value <= m.n
  {
    if m.gso.value > m.n {
      assert Cut(m)[0] != Joined(m)[0];
    }
  }

  function SegmentsOf(m: Message): (r: seq<Segment>)
    requires m.gso.Some? && m.n <= |m.buffer| && m.gso.value <= |m.buffer|
    ensures |r| == |Cut(m)| && forall i :: 0 <= i < |r| ==> r[i] == Segment(Cut(m)[i], m.addr)
  {
    seq(|Cut(m)|, i requires 0 <= i < |Cut(m)| => Segment(Cut(m)[i], m.addr))
  }

  /** Every message fits its buffer, and so does a segment of its size. */
  ghost predicate WellFormed(msgs: seq<Message>) {
    && (forall i :: 0 <= i < |msgs| ==> msgs[i].n <= |msgs[i].buffer|)
    && (forall i :: 0 <= i < |msgs| && msgs[i].gso.Some? && msgs[i].n > 0 ==> msgs[i].gso.value <= |msgs[i].buffer|)
  }

  /** Reading stops at the end, at the first empty message, or at control data that cannot be read. */
  predicate Stops(msgs: seq<Message>, i: nat) {
    i >= |msgs| || msgs[i].n == 0 || msgs[i].gso.None?
  }

  /** All segments from message `i` on, in order. */
  ghost function Plan(msgs: seq<Message>, i: nat): seq<Segment>
    requires WellFormed(msgs)
    decreases |msgs| - i
  {
    if Stops(msgs, i) then [] else SegmentsOf(msgs[i]) + Plan(msgs, i + 1)
  }

  /** From message `i` on, with `n` slots filled, no segment is written past the message it comes from. */
  ghost predicate Fits(msgs: seq<Message>, i: nat, n: nat)
    requires WellFormed(msgs)
    decreases |msgs| - i
  {
    Stops(msgs, i) || (n + |SegmentsOf(msgs[i])| <= i + 1 && Fits(msgs, i + 1, n + |SegmentsOf(msgs[i])|))
  }

  /** How reading ends when nothing overflows. */
  ghost function Ending(msgs: seq<Message>, i: nat): Option<Error>
    decreases |msgs| - i
  {
    if !Stops(msgs, i) then Ending(msgs, i + 1)
    else if i < |msgs| && msgs[i].n > 0 then Some(BadControl) else None
  }

  /** As much of the data as there is room for. */
  function Fitted(data: Bytes, room: nat): Bytes {
    if |data| <= room then data else data[..room]
  }

  /** The first slots hold these segments, as far as their buffers go. */
  ghost predicate Filled(msgs: seq<Message>, segments: seq<Segment>) {
    && |segments| <= |msgs|
    && forall k :: 0 <= k < |segments| ==> Holds(msgs[k], segments[k])
  }

  predicate Holds(m: Message, seg: Segment) {
    m.n <= |m.buffer| && m.buffer[..m.n] == Fitted(seg.data, |m.buffer|) && m.addr == seg.addr
  }

  /** They hold them whole if and only if each buffer is long enough for its segment. */
  lemma FilledWhole(msgs: seq<Message>, segments: seq<Segment>)
    requires Filled(msgs, segments)
    ensures (forall k :: 0 <= k < |segments| ==> msgs[k].buffer[..msgs[k].n] == segments[k].data) <==>
            (forall k :: 0 <= k < |segments| ==> |segments[k].data| <= |msgs[k].buffer|)
  {
    forall k | 0 <= k < |segments|
      ensures msgs[k].buffer[..msgs[k].n] == segments[k].data <==> |segments[k].data| <= |msgs[k].buffer|
    {
      assert Holds(msgs[k], segments[k]);
    }
  }

  /** `copy(dst, src)` into the front of a buffer; the source may be a later part of the same buffer. */
  function CopyInto(dst: Bytes, src: Bytes): Bytes {
    var copied := Fitted(src, |dst|);
    copied + dst[|copied|..]
  }

  /** The segments from byte `start` on. */
  function ChopFrom(d: Bytes, start: nat, size: nat): seq<Bytes>
    requires size > 0 && start <= |d|
    decreases |d| - start
  {
    if start + size >= |d| then [d[start..]] else [d[start..start + size]] + ChopFrom(d, start + size, size)
  }

  lemma ChopFromStep(d: Bytes, start: nat, end: nat, size: nat)
    requires size > 0 && start < |d| && end == if start + size > |d| then |d| else start + size
    ensures ChopFrom(d, start, size) == [d[start..end]] + if end == |d| then [] else ChopFrom(d, end, size)
  {
    if end == |d| {
      assert d[start..] == d[start..end];
    }
  }

  lemma {:induction false} ChopFromIsChop(d: Bytes, start: nat, size: nat)
    requires size > 0 && start <= |d|
    ensures ChopFrom(d, start, size) == Chop(d[start..], size)
    decreases |d| - start
  {
    if start + size < |d| {
      assert d[start..][size..] == d[start + size..] && d[start..][..size] == d[start..start + size];
      ChopFromIsChop(d, start + size, size);
    }
  }

  lemma Suffix(cut: seq<Bytes>, j: nat, first: Bytes, rest: seq<Bytes>)
    requires j < |cut| && cut[j..] == [first] + rest
    ensures cut[j] == first && cut[j + 1..] == rest
  {
    assert cut[j] == cut[j..][0] && cut[j + 1..] == cut[j..][1..];
  }

  lemma FillNext(msgs: seq<Message>, done: seq<Segment>, m: Message, seg: Segment)
    requires Filled(msgs, done) && |done| < |msgs|
    requires Holds(m, seg)
    ensures Filled(msgs[|done| := m], done + [seg])
  {}

  /** The original array, and everything a partly split array still shares with it. */
  ghost predicate Tail(msgs: seq<Message>, orig: seq<Message>, i: nat) {
    && |msgs| == |orig|
    && (forall k :: 0 <= k < |msgs| ==> |msgs[k].buffer| == |orig[k].buffer|)
    && (forall k :: i <= k < |msgs| ==> msgs[k] == orig[k])
  }

  /** The first `j` segments of message `i` are written behind `done`. */
  ghost predicate Splitting(msgs: seq<Message>, orig: seq<Message>, i: nat, done: seq<Segment>, j: nat) {
    && WellFormed(orig) && !Stops(orig, i)
    && j <= |SegmentsOf(orig[i])| && |done| + j <= i + 1
    && Tail(msgs, orig, i + 1) && (|done| + j <= i ==> msgs[i] == orig[i])
    && Filled(msgs, done + SegmentsOf(orig[i])[..j])
  }

  lemma SplittingStep(msgs: seq<Message>, orig: seq<Message>, i: nat, done: seq<Segment>, j: nat, m: Message)
    requires Splitting(msgs, orig, i, done, j) && j < |SegmentsOf(orig[i])| && |done| + j <= i
    requires |m.buffer| == |msgs[|done| + j].buffer| && Holds(m, SegmentsOf(orig[i])[j])
    ensures Splitting(msgs[|done| + j := m], orig, i, done, j + 1)
  {
    var segs := SegmentsOf(orig[i]);
    FillNext(msgs, done + segs[..j], m, segs[j]);
    assert done + segs[..j] + [segs[j]] == done + segs[..j + 1];
  }

  lemma SplittingEnd(msgs: seq<Message>, orig: seq<Message>, i: nat, done: seq<Segment>)
    requires WellFormed(orig) && !Stops(orig, i) && Splitting(msgs, orig, i, done, |SegmentsOf(orig[i])|)
    ensures var segs := done + SegmentsOf(orig[i]);
            var msgs' := if |segs| - 1 != i then msgs[i := msgs[i].(n := 0)] else msgs;
            Filled(msgs', segs) && Tail(msgs', orig, i + 1)
  {
    assert SegmentsOf(orig[i])[..|SegmentsOf(orig[i])|] == SegmentsOf(orig[i]);
  }

  method WriteNext(msgs: array<Message>, n: nat, i: nat, start: nat, end: nat, ghost orig: seq<Message>,
                   ghost done: seq<Segment>, ghost j: nat)
    requires Splitting(msgs[..], orig, i, done, j) && j < |SegmentsOf(orig[i])| && n == |done| + j <= i
    requires start <= end <= |orig[i].buffer|
    requires SegmentsOf(orig[i])[j].data == orig[i].buffer[start..end]
    modifies msgs
    ensures Splitting(msgs[..], orig, i, done, j + 1)
  {
    ghost var before := msgs[..];
    ghost var seg := SegmentsOf(orig[i])[j];
    assert before[i] == orig[i] && seg == Segment(orig[i].buffer[start..end], orig[i].addr);
    WriteSegment(msgs, n, i, start, end);
    ghost var after := msgs[..];
    ghost var m := after[n];
    assert after == before[n := m] && Holds(m, seg) && |m.buffer| == |before[n].buffer|;
    SplittingStep(before, orig, i, done, j, m);
  }

  /** Splits message `i` into the slots from `n0` on. */
  method SplitMessage(msgs: array<Message>, i: nat, n0: nat, ghost orig: seq<Message>, ghost done: seq<Segment>)
    returns (n: nat, overflow: bool)
    requires WellFormed(orig) && Tail(msgs[..], orig, i) && !Stops(orig, i)
    requires n0 == |done| <= i && Filled(msgs[..], done)
    modifies msgs
    ensures Tail(msgs[..], orig, i + 1)
    ensures overflow <==> n0 + |SegmentsOf(orig[i])| > i + 1
    ensures overflow ==> n == i + 1
    ensures !overflow ==> n == n0 + |SegmentsOf(orig[i])| && Filled(msgs[..], done + SegmentsOf(orig[i]))
  {
    ghost var m := orig[i];
    n := n0;
    assert msgs[i] == msgs[..][i] == m;
    var gsoSize := msgs[i].gso.value;
    var start: nat, end: nat, numToSplit := 0, msgs[i].n, 1;
    if gsoSize > 0 {
      numToSplit := (msgs[i].n + gsoSize - 1) / gsoSize;
      end := gsoSize;
      ChopCount(m.buffer[..m.n], gsoSize);
      ChopFromIsChop(m.buffer[..m.n], 0, gsoSize);
      assert m.buffer[..m.n][0..] == m.buffer[..m.n];
    }
    var j := 0;
    assert done + SegmentsOf(m)[..0] == done;
    while j < numToSplit
      invariant 0 <= j <= numToSplit == |SegmentsOf(m)| && n == n0 + j
      invariant Splitting(msgs[..], orig, i, done, j)
      invariant j < numToSplit && n <= i ==> Remaining(m, start, end, j)
    {
      if n > i {
        return n, true;
      }
      RemainingStep(m, start, end, j);
      WriteNext(msgs, n, i, start, end, orig, done, j);
      start := end;
      end := end + gsoSize;
      if end > msgs[i].n {
        end := msgs[i].n;
      }
      n := n + 1;
      j := j + 1;
    }
    SplittingEnd(msgs[..], orig, i, done);
    overflow := false;
    if i != n - 1 {
      Zero(msgs, i);
    }
  }

  method Zero(msgs: array<Message>, i: nat)
    requires i < msgs.Length
    modifies msgs
    ensures msgs[..] == old(msgs[..])[i := old(msgs[..])[i].(n := 0)]
  {
    msgs[i] := msgs[i].(n := 0);
  }

  /** Bytes `start..end` are segment `j`, and the segments after it start at `end`. */
  ghost predicate Remaining(m: Message, start: nat, end: nat, j: nat)
    requires m.gso.Some? && m.n <= |m.buffer| && m.gso.value <= |m.buffer|
  {
    var d, size := m.buffer[..m.n], m.gso.value;
    && j < |Cut(m)| && start < end <= |m.buffer| && (end <= m.n || end <= size)
    && (if size == 0 || size > m.n then j == 0 && start == 0 && end == (if size == 0 then m.n else size)
        else start < m.n && end == (if start + size > m.n then m.n else start + size)
             && Cut(m)[j..] == ChopFrom(d, start, size))
  }

  lemma RemainingStep(m: Message, start: nat, end: nat, j: nat)
    requires m.gso.Some? && 0 < m.n <= |m.buffer| && m.gso.value <= |m.buffer| && Remaining(m, start, end, j)
    ensures Cut(m)[j] == m.buffer[start..end]
    ensures j + 1 < |Cut(m)| ==>
              var end' := end + m.gso.value;
              Remaining(m, end, if end' > m.n then m.n else end', j + 1)
  {
    var d, size := m.buffer[..m.n], m.gso.value;
    if 0 < size <= m.n {
      var rest := if end == m.n then [] else ChopFrom(d, end, size);
      ChopFromStep(d, start, end, size);
      Suffix(Cut(m), j, d[start..end], rest);
      assert d[start..end] == m.buffer[start..end];
    }
  }

  /** Copies bytes `start..end` of message `i` into slot `n`, which may be message `i` itself. */
  method WriteSegment(msgs: array<Message>, n: nat, i: nat, start: nat, end: nat)
    requires n <= i < msgs.Length && start <= end <= |msgs[..][i].buffer|
    modifies msgs
    ensures msgs[..] == old(msgs[..])[n := msgs[..][n]]
    ensures var src, dst, m := old(msgs[..])[i], old(msgs[..])[n], msgs[..][n];
            && |m.buffer| == |dst.buffer| && Holds(m, Segment(src.buffer[start..end], src.addr))
            && m == dst.(buffer := CopyInto(dst.buffer, src.buffer[start..end]), n := m.n, addr := src.addr)
  {
    var src := msgs[i].buffer[start..end];
    var copied := |Fitted(src, |msgs[n].buffer|)|;
    msgs[n] := msgs[n].(buffer := CopyInto(msgs[n].buffer, src));
    msgs[n] := msgs[n].(n := copied);
    msgs[n] := msgs[n].(addr := msgs[i].addr);
  }

  /** What splitting comes to: all segments, whether they fit, and how reading ends if they do. */
  datatype Goal = Goal(plan: seq<Segment>, fits: bool, ending: Option<Error>)

  ghost function GoalFrom(orig: seq<Message>, i: nat, done: seq<Segment>): Goal
    requires WellFormed(orig)
  {
    Goal(done + Plan(orig, i), Fits(orig, i, |done|), Ending(orig, i))
  }

  lemma Regrouped(a: seq<Segment>, b: seq<Segment>, c: seq<Segment>)
    ensures a + (b + c) == a + b + c && |a + b| == |a| + |b|
  {}

  /** The same, message by message as the loop goes: `done` are the segments so far. */
  ghost function Reading(orig: seq<Message>, i: nat, done: seq<Segment>): Goal
    requires WellFormed(orig)
    decreases |orig| - i
  {
    if Stops(orig, i) then Goal(done, true, if i < |orig| && orig[i].n > 0 then Some(BadControl) else None)
    else if |done| + |SegmentsOf(orig[i])| > i + 1 then Goal([], false, None)
    else Reading(orig, i + 1, done + SegmentsOf(orig[i]))
  }

  lemma {:induction false} ReadingIsGoal(orig: seq<Message>, i: nat, done: seq<Segment>)
    requires WellFormed(orig)
    ensures Reading(orig, i, done).fits == GoalFrom(orig, i, done).fits
    ensures Reading(orig, i, done).fits ==> Reading(orig, i, done) == GoalFrom(orig, i, done)
    decreases |orig| - i
  {
    if !Stops(orig, i) {
      Regrouped(done, SegmentsOf(orig[i]), Plan(orig, i + 1));
      if |done| + |SegmentsOf(orig[i])| <= i + 1 {
        ReadingIsGoal(orig, i + 1, done + SegmentsOf(orig[i]));
      }
    }
  }

  /** Splitting moves bytes between buffers but does not change the buffers' lengths. */
  ghost predicate SameRoom(msgs: seq<Message>, orig: seq<Message>) {
    |msgs| == |orig| && forall k :: 0 <= k < |msgs| ==> |msgs[k].buffer| == |orig[k].buffer|
  }

  /**
   Either everything fits, and then the front slots hold exactly the segments of the unread messages, in order; or
   some message has more segments than there are slots up to and including its own, and that is reported.
   */
  ghost predicate SplitUp(msgs: seq<Message>, goal: Goal, n: nat, err: Option<Error>) {
    if goal.fits then err == goal.ending && n == |goal.plan| && Filled(msgs, goal.plan) else err == Some(Overflow)
  }

  /** Before message `i`: `n` slots are filled with the segments read so far, and the rest is as it was. */
  ghost predicate Going(msgs: seq<Message>, orig: seq<Message>, goal: Goal, i: nat, n: nat, done: seq<Segment>) {
    n == |done| <= i && Tail(msgs, orig, i) && Filled(msgs, done) && WellFormed(orig) && goal == Reading(orig, i, done)
  }

  lemma GoingStops(msgs: seq<Message>, orig: seq<Message>, goal: Goal, i: nat, n: nat, done: seq<Segment>)
    requires Going(msgs, orig, goal, i, n, done) && Stops(orig, i)
    ensures SplitUp(msgs, goal, n, if i < |orig| && orig[i].n > 0 then Some(BadControl) else None)
  {}

  method SplitNext(msgs: array<Message>, i: nat, n0: nat, ghost orig: seq<Message>, ghost goal: Goal,
                   ghost done: seq<Segment>)
    returns (n: nat, overflow: bool, ghost done': seq<Segment>)
    requires Going(msgs[..], orig, goal, i, n0, done) && !Stops(orig, i)
    modifies msgs
    ensures SameRoom(msgs[..], orig)
    ensures overflow ==> SplitUp(msgs[..], goal, n, Some(Overflow))
    ensures !overflow ==> Going(msgs[..], orig, goal, i + 1, n, done')
  {
    n, overflow := SplitMessage(msgs, i, n0, orig, done);
    done' := done + SegmentsOf(orig[i]);
  }

  /** One round of the loop; it may be the last. */
  method Round(msgs: array<Message>, i: nat, n0: nat, ghost orig: seq<Message>, ghost goal: Goal,
               ghost done: seq<Segment>)
    returns (n: nat, stop: bool, err: Option<Error>, ghost done': seq<Segment>)
    requires Going(msgs[..], orig, goal, i, n0, done) && i < msgs.Length
    modifies msgs
    ensures SameRoom(msgs[..], orig)
    ensures if stop then SplitUp(msgs[..], goal, n, err) else Going(msgs[..], orig, goal, i + 1, n, done')
  {
    assert msgs[i] == msgs[..][i] == orig[i];
    done' := done;
    if msgs[i].n == 0 {
      GoingStops(msgs[..], orig, goal, i, n0, done);
      return n0, true, None, done;
    }
    if msgs[i].gso.None? {
      GoingStops(msgs[..], orig, goal, i, n0, done);
      return n0, true, Some(BadControl), done;
    }
    n, stop, done' := SplitNext(msgs, i, n0, orig, goal, done);
    err := if stop then Some(Overflow) else None;
  }

  /** The loop, towards a goal that was fixed before it. */
  method SplitFrom(msgs: array<Message>, firstMsgAt: nat, ghost orig: seq<Message>, ghost goal: Goal)
    returns (n: nat, err: Option<Error>)
    requires firstMsgAt <= msgs.Length && Going(msgs[..], orig, goal, firstMsgAt, 0, [])
    modifies msgs
    ensures SplitUp(msgs[..], goal, n, err) && SameRoom(msgs[..], orig)
  {
    n := 0;
    ghost var done: seq<Segment> := [];
    for i := firstMsgAt to msgs.Length
      invariant Going(msgs[..], orig, goal, i, n, done)
    {
      var stop;
      n, stop, err, done := Round(msgs, i, n, orig, goal, done);
      if stop {
        return;
      }
    }
    GoingStops(msgs[..], orig, goal, msgs.Length, n, done);
    err := None;
  }

  method SplitCoalescedMessages(msgs: array<Message>, firstMsgAt: nat) returns (n: nat, err: Option<Error>)
    requires WellFormed(msgs[..]) && firstMsgAt <= msgs.Length
    modifies msgs
    ensures SplitUp(msgs[..], GoalFrom(old(msgs[..]), firstMsgAt, []), n, err) && SameRoom(msgs[..], old(msgs[..]))
  {
    ReadingIsGoal(msgs[..], firstMsgAt, []);
    n, err := SplitFrom(msgs, firstMsgAt, msgs[..], Reading(msgs[..], firstMsgAt, []));
  }

  // ---- When the segments are the datagrams that were joined ------------------------------------

  /** The datagrams that were joined into the messages from `i` on. */
  ghost function JoinedPlan(msgs: seq<Message>, i: nat): seq<Segment>
    requires WellFormed(msgs)
    decreases |msgs| - i
  {
    if Stops(msgs, i) then [] else Addressed(Joined(msgs[i]), msgs[i].addr) + JoinedPlan(msgs, i + 1)
  }

  function Addressed(parts: seq<Bytes>, addr: int): (r: seq<Segment>)
    ensures |r| == |parts| && forall i :: 0 <= i < |r| ==> r[i] == Segment(parts[i], addr)
  {
    seq(|parts|, i requires 0 <= i < |parts| => Segment(parts[i], addr))
  }

  /** No message that is read gives a segment size larger than its length. */
  ghost predicate SizesFit(msgs: seq<Message>, i: nat)
    requires WellFormed(msgs)
    decreases |msgs| - i
  {
    Stops(msgs, i) || (msgs[i].gso.value <= msgs[i].n && SizesFit(msgs, i + 1))
  }

  lemma SameParts(m: Message)
    requires m.gso.Some? && m.n <= |m.buffer| && m.gso.value <= |m.buffer|
    ensures SegmentsOf(m) == Addressed(Joined(m), m.addr) <==> m.gso.value <= m.n
  {
    CutIsJoined(m);
    if SegmentsOf(m) == Addressed(Joined(m), m.addr) {
      forall i | 0 <= i < |Cut(m)| ensures Cut(m)[i] == Joined(m)[i] {
        assert SegmentsOf(m)[i] == Addressed(Joined(m), m.addr)[i];
      }
    }
  }

  lemma SameConcat(a: seq<Segment>, a': seq<Segment>, b: seq<Segment>, b': seq<Segment>)
    requires |a| == |a'|
    ensures a + b == a' + b' <==> a == a' && b == b'
  {
    if a + b == a' + b' {
      assert a == (a + b)[..|a|] && a' == (a' + b')[..|a|] && b == (a + b)[|a|..] && b' == (a' + b')[|a|..];
    }
  }

  /** The segments written are the datagrams that were joined, if and only if no segment size exceeds its message. */
  lemma {:induction false} PlanIsJoined(msgs: seq<Message>, i: nat)
    requires WellFormed(msgs)
    ensures Plan(msgs, i) == JoinedPlan(msgs, i) <==> SizesFit(msgs, i)
    decreases |msgs| - i
  {
    if !Stops(msgs, i) {
      PlanIsJoined(msgs, i + 1);
      SameParts(msgs[i]);
      SameConcat(SegmentsOf(msgs[i]), Addressed(Joined(msgs[i]), msgs[i].addr), Plan(msgs, i + 1),
                 JoinedPlan(msgs, i + 1));
    }
  }

  // ---- When it cannot overflow -----------------------------------------------------------------

  /** What `k` messages of at most `most` segments need. */
  function Need(k: nat, most: nat): nat {
    if k == 0 then 0 else most + Need(k - 1, most)
  }

  lemma {:induction false} NeedIsProduct(k: nat, most: nat)
    ensures Need(k, most) == k * most
  {
    if k > 0 {
      NeedIsProduct(k - 1, most);
      assert k * most == (k - 1) * most + most;
    }
  }

  lemma {:induction false} NeedAtLeast(k: nat, most: nat)
    requires most > 0
    ensures Need(k, most) >= k
  {
    if k > 0 {
      NeedAtLeast(k - 1, most);
    }
  }

  /** No message that is read has more than `most` segments. */
  ghost predicate AtMost(msgs: seq<Message>, i: nat, most: nat)
    requires WellFormed(msgs)
    decreases |msgs| - i
  {
    Stops(msgs, i) || (|SegmentsOf(msgs[i])| <= most && AtMost(msgs, i + 1, most))
  }

  lemma {:induction false} FitsIfEven(msgs: seq<Message>, i: nat, n: nat, most: nat)
    requires WellFormed(msgs) && i <= |msgs| && AtMost(msgs, i, most) && n + Need(|msgs| - i, most) <= |msgs|
    ensures Fits(msgs, i, n)
    decreases |msgs| - i
  {
    if !Stops(msgs, i) {
      NeedAtLeast(|msgs| - i - 1, most);
      FitsIfEven(msgs, i + 1, n + |SegmentsOf(msgs[i])|, most);
    }
  }

  /** With `k` unread messages of at most `most` segments each and `k * most` slots in all, nothing overflows. */
  lemma NeverOverflows(msgs: seq<Message>, first: nat, most: nat)
    requires WellFormed(msgs) && first <= |msgs| && AtMost(msgs, first, most) && (|msgs| - first) * most <= |msgs|
    ensures GoalFrom(msgs, first, []).fits
  {
    NeedIsProduct(|msgs| - first, most);
    FitsIfEven(msgs, first, 0, most);
  }

  const BATCH_SIZE := 128
  const MAX_DATAGRAMS := 64

  /** Where `receiveIP` reads: two of 128 slots, each of which the kernel fills with at most 64 datagrams. */
  lemma ReceivePositionNeverOverflows(msgs: seq<Message>)
    requires WellFormed(msgs) && |msgs| == BATCH_SIZE
    requires AtMost(msgs, BATCH_SIZE - BATCH_SIZE / MAX_DATAGRAMS, MAX_DATAGRAMS)
    ensures GoalFrom(msgs, BATCH_SIZE - BATCH_SIZE / MAX_DATAGRAMS, []).fits
  {
    NeverOverflows(msgs, BATCH_SIZE - BATCH_SIZE / MAX_DATAGRAMS, MAX_DATAGRAMS);
  }
}
