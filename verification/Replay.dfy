/**
 The anti-replay filter of internal/replay/replay.go (RFC 6479, section 2): a ring of 128 words of
 64 bits. `Filter` is the mutable ring; `Admits` is the simple specification, a set of the counters
 accepted so far.
 */
module Replay {
  const BLOCK_BITS := 64
  const RING_BLOCKS := 128
  const WINDOW_SIZE := (RING_BLOCKS - 1) * BLOCK_BITS

  // ---- Specification: a set of accepted counters -----------------------------------------------

  /** `last` is the highest counter accepted so far, or 0 when there is none. */
  ghost predicate Highest(accepted: set<nat>, last: nat) {
    && (forall c :: c in accepted ==> c <= last)
    && (accepted == {} ==> last == 0)
    && (accepted != {} ==> last in accepted)
  }

  /** Below the limit, not too far behind the highest accepted counter, and never seen before. */
  ghost predicate Admits(accepted: set<nat>, counter: nat, limit: nat) {
    && counter < limit
    && (forall c :: c in accepted ==> c <= counter + WINDOW_SIZE)
    && counter !in accepted
  }

  datatype Call = Call(counter: nat, limit: nat)

  ghost function After(accepted: set<nat>, c: Call): set<nat> {
    if Admits(accepted, c.counter, c.limit) then accepted + {c.counter} else accepted
  }

  /** The answers the specification gives to a whole sequence of calls. */
  ghost function Answers(accepted: set<nat>, calls: seq<Call>): (r: seq<bool>)
    ensures |r| == |calls|
    decreases calls
  {
    if calls == [] then []
    else [Admits(accepted, calls[0].counter, calls[0].limit)] + Answers(After(accepted, calls[0]), calls[1..])
  }

  /** Over a whole sequence of calls no counter is accepted twice, and none accepted before is accepted again. */
  lemma {:induction false} AcceptedOnce(accepted: set<nat>, calls: seq<Call>, i: nat)
    requires i < |calls| && Answers(accepted, calls)[i]
    ensures calls[i].counter !in accepted && calls[i].counter < calls[i].limit
    ensures forall j :: i < j < |calls| && Answers(accepted, calls)[j] ==> calls[j].counter != calls[i].counter
    decreases calls
  {
    var rest := Answers(After(accepted, calls[0]), calls[1..]);
    if i > 0 {
      AcceptedOnce(After(accepted, calls[0]), calls[1..], i - 1);
      assert forall j ::
          0 < j < |calls| ==> Answers(accepted, calls)[j] == rest[j - 1] && calls[j] == calls[1..][j - 1];
    } else {
      forall j | 0 < j < |calls| && Answers(accepted, calls)[j] ensures calls[j].counter != calls[0].counter {
        assert rest[j - 1] && calls[1..][j - 1] == calls[j];
        AcceptedOnce(After(accepted, calls[0]), calls[1..], j - 1);
      }
    }
  }

  // ---- The ring --------------------------------------------------------------------------------

  /** A 64-bit word, written as its bits: bit `n` is flag `n`, and `w | 1 << n` is `w[n := true]`. */
  type Word = w: seq<bool> | |w| == BLOCK_BITS witness seq(BLOCK_BITS, _ => false)

  function Zero(): Word {
    seq(BLOCK_BITS, _ => false)
  }

  /** The bit of the ring that stands for `counter`. */
  ghost predicate Marked(ring: seq<Word>, counter: nat)
    requires |ring| == RING_BLOCKS
  {
    ring[counter / BLOCK_BITS % RING_BLOCKS][counter % BLOCK_BITS]
  }

  /** Blocks the window can still see: the block of `last` and the 127 before it. */
  ghost predicate Visible(last: nat, counter: nat) {
    counter / BLOCK_BITS <= last / BLOCK_BITS < counter / BLOCK_BITS + RING_BLOCKS
  }

  /** No ring slot stands for two blocks that are visible at the same time. */
  lemma NoAlias(last: nat, a: nat, b: nat)
    requires Visible(last, a) && Visible(last, b)
    ensures a / BLOCK_BITS % RING_BLOCKS == b / BLOCK_BITS % RING_BLOCKS <==> a / BLOCK_BITS == b / BLOCK_BITS
    ensures a / BLOCK_BITS % RING_BLOCKS == b / BLOCK_BITS % RING_BLOCKS && a % BLOCK_BITS == b % BLOCK_BITS <==> a == b
  {}

  /** The ring agrees with the set on every counter of a visible block; other slots may hold anything. */
  ghost predicate Represents(last: nat, ring: seq<Word>, accepted: set<nat>) {
    && |ring| == RING_BLOCKS
    && Highest(accepted, last)
    && forall c: nat :: Visible(last, c) ==> (Marked(ring, c) <==> c in accepted)
  }

  /** Every slot of a block in `current + 1 .. upTo - 1` is zero and every other slot is unchanged. */
  ghost predicate Cleared(ring: seq<Word>, ring': seq<Word>, current: nat, upTo: nat) {
    && |ring| == |ring'| == RING_BLOCKS
    && (forall b: nat :: current < b < upTo ==> ring'[b % RING_BLOCKS] == Zero())
    && (forall s: nat ::
          s < RING_BLOCKS && (forall b: nat :: current < b < upTo ==> b % RING_BLOCKS != s) ==> ring'[s] == ring[s])
  }

  lemma DifferentSlots(a: nat, b: nat)
    requires a < b < a + RING_BLOCKS
    ensures a % RING_BLOCKS != b % RING_BLOCKS
  {}

  lemma SameSlotNear(current: nat, block: nat) returns (b: nat)
    requires block > current
    ensures current < b <= current + RING_BLOCKS && b <= block && b % RING_BLOCKS == block % RING_BLOCKS
  {
    b := if block <= current + RING_BLOCKS then block else current + 1 + (block - current - 1) % RING_BLOCKS;
  }

  /** Clearing the skipped blocks (all 128 of them when more were skipped) is all that moving the window takes. */
  lemma MoveWindow(last: nat, ring: seq<Word>, ring': seq<Word>, accepted: set<nat>, counter: nat, c: nat)
    requires Represents(last, ring, accepted) && counter > last
    requires var current := last / BLOCK_BITS;
             var diff := counter / BLOCK_BITS - current;
             Cleared(ring, ring', current, current + (if diff > RING_BLOCKS then RING_BLOCKS else diff) + 1)
    requires Visible(counter, c)
    ensures Marked(ring', c) <==> c in accepted
  {
    var current, block := last / BLOCK_BITS, c / BLOCK_BITS;
    if block <= current {
      assert Visible(last, c);
      forall b: nat | current < b <= counter / BLOCK_BITS ensures b % RING_BLOCKS != block % RING_BLOCKS {
        DifferentSlots(block, b);
      }
    } else {
      var b := SameSlotNear(current, block);
      assert ring'[b % RING_BLOCKS] == Zero();
    }
  }

  /** Setting the bit of `counter` adds exactly `counter` to the represented set. */
  lemma MarkCounter(last: nat, ring: seq<Word>, counter: nat, c: nat)
    requires |ring| == RING_BLOCKS && Visible(last, counter) && Visible(last, c)
    ensures var s := counter / BLOCK_BITS % RING_BLOCKS;
            var ring' := ring[s := ring[s][counter % BLOCK_BITS := true]];
            && (ring'[s] != ring[s] <==> !Marked(ring, counter))
            && (Marked(ring', c) <==> c == counter || Marked(ring, c))
  {
    NoAlias(last, counter, c);
  }

  class Filter {
    var last: nat
    const ring: array<Word>
    ghost var accepted: set<nat>

    ghost predicate Valid()
      reads this, ring
    {
      ring.Length == RING_BLOCKS && Represents(last, ring[..], accepted)
    }

    constructor ()
      ensures Valid() && accepted == {} && fresh(ring)
    {
      last := 0;
      ring := new Word[RING_BLOCKS](_ => Zero());
      accepted := {};
    }

    /** Clears only block 0, the only block visible once `last` is 0; the other slots keep their old bits. */
    method Reset()
      requires ring.Length == RING_BLOCKS
      modifies this, ring
      ensures Valid() && accepted == {}
    {
      last := 0;
      ring[0] := Zero();
      accepted := {};
    }

    method ValidateCounter(counter: nat, limit: nat) returns (ok: bool)
      requires Valid()
      modifies this, ring
      ensures Valid()
      ensures ok <==> Admits(old(accepted), counter, limit)
      ensures accepted == After(old(accepted), Call(counter, limit))
    {
      if counter >= limit {
        return false;
      }
      var indexBlock := counter / BLOCK_BITS;
      if counter > last {
        var current := last / BLOCK_BITS;
        var diff := indexBlock - current;
        if diff > RING_BLOCKS {
          diff := RING_BLOCKS;
        }
        var i := current + 1;
        while i <= current + diff
          modifies ring
          invariant current + 1 <= i <= current + diff + 1
          invariant Cleared(old(ring[..]), ring[..], current, i)
        {
          ring[i % RING_BLOCKS] := Zero();
          i := i + 1;
        }
        forall c: nat | Visible(counter, c) ensures Marked(ring[..], c) <==> c in accepted {
          MoveWindow(last, old(ring[..]), ring[..], accepted, counter, c);
        }
        last := counter;
      } else if last - counter > WINDOW_SIZE {
        return false;
      }
      ghost var moved := ring[..];
      indexBlock := indexBlock % RING_BLOCKS;
      var indexBit := counter % BLOCK_BITS;
      var word := ring[indexBlock];
      var word' := word[indexBit := true];
      ring[indexBlock] := word';
      ok := word != word';
      forall c: nat | Visible(last, c) ensures Marked(ring[..], c) <==> c == counter || Marked(moved, c) {
        MarkCounter(last, moved, counter, c);
        assert ring[..] == moved[indexBlock := word'];
      }
      MarkCounter(last, moved, counter, counter);
      if ok {
        accepted := accepted + {counter};
      }
    }
  }

  /** A filter answers a whole sequence of calls exactly as the set of accepted counters does. */
  method Replay(f: Filter, calls: seq<Call>) returns (r: seq<bool>)
    requires f.Valid()
    modifies f, f.ring
    ensures f.Valid()
    ensures r == Answers(old(f.accepted), calls)
  {
    r := [];
    for i := 0 to |calls|
      invariant f.Valid()
      invariant Answers(old(f.accepted), calls) == r + Answers(f.accepted, calls[i..])
    {
      var ok := f.ValidateCounter(calls[i].counter, calls[i].limit);
      assert calls[i..][1..] == calls[i + 1..];
      r := r + [ok];
    }
  }

  /** Whatever it was used for before, a reset filter answers like a new one on every later sequence. */
  method ResetIsLikeNew(used: Filter, calls: seq<Call>) returns (afterReset: seq<bool>, fromNew: seq<bool>)
    requires used.Valid()
    modifies used, used.ring
    ensures afterReset == fromNew == Answers({}, calls)
  {
    used.Reset();
    afterReset := Replay(used, calls);
    var f := new Filter();
    fromNew := Replay(f, calls);
  }
}
