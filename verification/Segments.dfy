/** Cutting a byte string into segments of one size, the last possibly shorter: what UDP offload does to a payload. */
module Segments {
  type Bytes = seq<nat>

  function Chop(data: Bytes, size: nat): (r: seq<Bytes>)
    requires size > 0
    ensures |r| > 0
    decreases |data|
  {
    if |data| <= size then [data] else [data[..size]] + Chop(data[size..], size)
  }

  function Concat(parts: seq<Bytes>): Bytes {
    if parts == [] then [] else parts[0] + Concat(parts[1..])
  }

  lemma {:induction false} ConcatAppend(parts: seq<Bytes>, b: Bytes)
    ensures Concat(parts + [b]) == Concat(parts) + b
  {
    if parts == [] {
      assert [b][1..] == [];
    } else {
      assert (parts + [b])[1..] == parts[1..] + [b];
      ConcatAppend(parts[1..], b);
    }
  }

  /** Segments of one size, of which only the last may be shorter, and none is empty. */
  ghost predicate Uniform(parts: seq<Bytes>, size: nat) {
    && parts != [] && 0 < |parts[|parts| - 1]| <= size
    && forall i :: 0 <= i < |parts| - 1 ==> |parts[i]| == size
  }

  /** The same but for an empty last segment. */
  ghost predicate Even(parts: seq<Bytes>, size: nat) {
    && parts != [] && |parts[|parts| - 1]| <= size
    && forall i :: 0 <= i < |parts| - 1 ==> |parts[i]| == size
  }

  /** An empty last segment is not found again. */
  lemma EmptyIsLost(parts: seq<Bytes>, size: nat)
    requires size > 0 && Even(parts, size) && |parts| > 1 && parts[|parts| - 1] == []
    ensures Chop(Concat(parts), size) == parts[..|parts| - 1]
  {
    var front := parts[..|parts| - 1];
    assert parts == front + [[]];
    ConcatAppend(front, []);
    ChopConcat(front, size);
  }

  /** Cutting undoes concatenating. */
  lemma {:induction false} ChopConcat(parts: seq<Bytes>, size: nat)
    requires size > 0 && Uniform(parts, size)
    ensures Chop(Concat(parts), size) == parts
  {
    if |parts| > 1 {
      ChopConcat(parts[1..], size);
      assert Concat(parts[1..]) == parts[1] + Concat(parts[2..]) by { assert parts[1..][1..] == parts[2..]; }
      assert Concat(parts)[size..] == Concat(parts[1..]) && Concat(parts)[..size] == parts[0];
    } else {
      assert parts == [parts[0]] && Concat(parts[1..]) == [] && Concat(parts) == parts[0];
    }
  }

  /** Concatenating undoes cutting, and the cut is uniform. */
  lemma {:induction false} ConcatChop(data: Bytes, size: nat)
    requires size > 0 && data != []
    ensures Concat(Chop(data, size)) == data && Uniform(Chop(data, size), size)
    decreases |data|
  {
    if |data| > size {
      ConcatChop(data[size..], size);
      assert Chop(data, size)[1..] == Chop(data[size..], size);
    }
  }

  lemma MultiplyMonotone(a: int, b: int, size: nat)
    requires a < b
    ensures a * size + size <= b * size
  {
    var d := b - a - 1;
    assert d * size >= 0;
    assert b * size == (a + 1 + d) * size == a * size + size + d * size;
  }

  lemma DivideStep(a: nat, size: nat)
    requires size > 0
    ensures (a + size) / size == a / size + 1
  {
    var q, q' := a / size + 1, (a + size) / size;
    assert a + size == q * size + a % size && a + size == q' * size + (a + size) % size;
    if q < q' { MultiplyMonotone(q, q', size); }
    if q' < q { MultiplyMonotone(q', q, size); }
  }

  lemma {:induction false} ChopCount(data: Bytes, size: nat)
    requires size > 0 && data != []
    ensures |Chop(data, size)| == (|data| + size - 1) / size
    decreases |data|
  {
    if |data| > size {
      ChopCount(data[size..], size);
      DivideStep(|data| - 1, size);
    } else {
      DivideStep(|data| - 1, size);
    }
  }
}
