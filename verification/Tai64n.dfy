/**
 TAI64N timestamps of internal/tai64n/tai64n.go: 8 big-endian bytes of seconds, 4 big-endian bytes of
 nanoseconds with the low 24 bits cleared, compared byte by byte.
 */
module Tai64n {
  const BASE := 0x4000_0000_0000_000a
  const TICK := 0x100_0000 // 2^24 ns: nanoseconds are rounded down to a multiple of this
  const SECOND := 1_000_000_000
  const WORD64 := 0x1_0000_0000_0000_0000

  type Bytes = seq<nat>

  function BigEndian(x: nat, n: nat): (r: Bytes)
    ensures |r| == n
  {
    if n == 0 then [] else BigEndian(x / 256, n - 1) + [x % 256]
  }

  /** The seconds field: `base + uint64(t.Unix())` in 64-bit arithmetic. */
  function Seconds(unix: int): nat {
    (BASE + unix) % WORD64
  }

  /** A time is `unix` seconds (a 64-bit signed number) and `nano` nanoseconds. */
  datatype Time = Time(unix: int, nano: nat) {
    predicate Valid() {
      -0x8000_0000_0000_0000 <= unix < 0x8000_0000_0000_0000 && nano < SECOND
    }

    /** Nanoseconds since the epoch. */
    function Nanos(): int {
      unix * SECOND + nano
    }
  }

  function Stamp(t: Time): (r: Bytes)
    ensures |r| == 12
  {
    BigEndian(Seconds(t.unix), 8) + BigEndian(t.nano - t.nano % TICK, 4)
  }

  /** `bytes.Compare(a, b) > 0`. */
  predicate After(a: Bytes, b: Bytes) {
    if a == [] then false
    else if b == [] then true
    else if a[0] != b[0] then a[0] > b[0]
    else After(a[1..], b[1..])
  }

  lemma {:induction false} AfterPrefix(p: Bytes, a: Bytes, b: Bytes)
    ensures After(p + a, p + b) == After(a, b)
  {
    if p == [] {
      assert p + a == a && p + b == b;
    } else {
      assert (p + a)[1..] == p[1..] + a && (p + b)[1..] == p[1..] + b;
      AfterPrefix(p[1..], a, b);
    }
  }

  /** What follows does not matter once equally long prefixes differ. */
  lemma {:induction false} AfterDecided(p: Bytes, q: Bytes, a: Bytes, b: Bytes)
    requires |p| == |q| && p != q
    ensures After(p + a, q + b) == After(p, q)
  {
    if p[0] == q[0] {
      assert (p + a)[1..] == p[1..] + a && (q + b)[1..] == q[1..] + b;
      AfterDecided(p[1..], q[1..], a, b);
    }
  }

  lemma Split256(x: nat, n: nat)
    requires x < Pow256(n + 1)
    ensures x / 256 < Pow256(n)
  {}

  function Pow256(n: nat): (r: nat)
    ensures r > 0
  {
    if n == 0 then 1 else 256 * Pow256(n - 1)
  }

  /** Big-endian bytes are ordered and distinguished like the numbers they write. */
  lemma {:induction false} BigEndianOrder(x: nat, y: nat, n: nat)
    requires x < Pow256(n) && y < Pow256(n)
    ensures After(BigEndian(x, n), BigEndian(y, n)) <==> x > y
    ensures BigEndian(x, n) == BigEndian(y, n) <==> x == y
  {
    if n > 0 {
      Split256(x, n - 1);
      Split256(y, n - 1);
      var p, q := BigEndian(x / 256, n - 1), BigEndian(y / 256, n - 1);
      BigEndianOrder(x / 256, y / 256, n - 1);
      assert BigEndian(x, n)[n - 1] == x % 256 && BigEndian(y, n)[n - 1] == y % 256;
      if p == q {
        AfterPrefix(p, [x % 256], [y % 256]);
      } else {
        AfterDecided(p, q, [x % 256], [y % 256]);
        assert BigEndian(x, n)[..n - 1] == p && BigEndian(y, n)[..n - 1] == q;
      }
    }
  }

  /** Two big-endian fields one after the other are ordered lexicographically. */
  lemma FieldsOrder(a: nat, b: nat, m: nat, c: nat, d: nat, n: nat)
    requires a < Pow256(m) && b < Pow256(m) && c < Pow256(n) && d < Pow256(n)
    ensures After(BigEndian(a, m) + BigEndian(c, n), BigEndian(b, m) + BigEndian(d, n)) <==> a > b || (a == b && c > d)
  {
    BigEndianOrder(a, b, m);
    BigEndianOrder(c, d, n);
    if a == b {
      AfterPrefix(BigEndian(a, m), BigEndian(c, n), BigEndian(d, n));
    } else {
      AfterDecided(BigEndian(a, m), BigEndian(b, m), BigEndian(c, n), BigEndian(d, n));
    }
  }

  lemma FieldSizes()
    ensures Pow256(4) == 0x1_0000_0000 && Pow256(8) == WORD64
  {}

  lemma TickOrder(a: nat, b: nat)
    ensures a - a % TICK > b - b % TICK <==> a / TICK > b / TICK
  {
    assert a - a % TICK == a / TICK * TICK && b - b % TICK == b / TICK * TICK;
  }

  /** Stamps are ordered like (64-bit seconds, whole ticks). */
  lemma StampOrder(s: Time, t: Time)
    requires s.Valid() && t.Valid()
    ensures After(Stamp(t), Stamp(s)) <==>
            Seconds(t.unix) > Seconds(s.unix) || (Seconds(t.unix) == Seconds(s.unix) && t.nano / TICK > s.nano / TICK)
  {
    FieldSizes();
    var c, d := t.nano - t.nano % TICK, s.nano - s.nano % TICK;
    TickOrder(t.nano, s.nano);
    FieldsOrder(Seconds(t.unix), Seconds(s.unix), 8, c, d, 4);
  }

  /** The number that big-endian bytes write. */
  function FromBytes(b: Bytes): nat {
    if b == [] then 0 else 256 * FromBytes(b[..|b| - 1]) + b[|b| - 1]
  }

  lemma {:induction false} FromBigEndian(x: nat, n: nat)
    requires x < Pow256(n)
    ensures FromBytes(BigEndian(x, n)) == x
  {
    if n > 0 {
      Split256(x, n - 1);
      FromBigEndian(x / 256, n - 1);
      assert BigEndian(x, n)[..n - 1] == BigEndian(x / 256, n - 1);
    }
  }

  /** A stamp can be read: the seconds since 2^62 + 10 before the epoch, and the nanoseconds down to a whole tick. */
  lemma StampReads(t: Time)
    requires InRange(t)
    ensures FromBytes(Stamp(t)[..8]) == 0x4000_0000_0000_0000 + 10 + t.unix
    ensures FromBytes(Stamp(t)[8..]) == t.nano / TICK * TICK
  {
    FieldSizes();
    SecondsValue(t);
    FromBigEndian(Seconds(t.unix), 8);
    FromBigEndian(t.nano - t.nano % TICK, 4);
    assert Stamp(t)[..8] == BigEndian(Seconds(t.unix), 8) && Stamp(t)[8..] == BigEndian(t.nano - t.nano % TICK, 4);
  }

  lemma SecondsValue(t: Time)
    requires t.Valid()
    ensures Seconds(t.unix) == if t.unix < -BASE then BASE + t.unix + WORD64 else BASE + t.unix
  {}

  /** Times whose seconds do not wrap around; every time since the epoch, and the zero time, is one. */
  predicate InRange(t: Time) {
    t.Valid() && t.unix >= -BASE
  }

  /** Bytes compare like time: never backwards, and strictly later once a tick apart. */
  lemma StampMonotone(s: Time, t: Time)
    requires InRange(s) && InRange(t) && s.Nanos() <= t.Nanos()
    ensures !After(Stamp(s), Stamp(t))
    ensures t.Nanos() - s.Nanos() >= TICK ==> After(Stamp(t), Stamp(s))
  {
    StampOrder(s, t);
    StampOrder(t, s);
    SecondsValue(s);
    SecondsValue(t);
  }

  /**
   Where seconds wrap around, the comparison goes backwards: for two times more than a tick apart the
   later one has the later stamp exactly when not just the earlier one lies before the wrap.
   */
  lemma StampWraps(s: Time, t: Time)
    requires s.Valid() && t.Valid() && t.Nanos() - s.Nanos() >= TICK
    ensures After(Stamp(t), Stamp(s)) <==> !(s.unix < -BASE <= t.unix)
  {
    StampOrder(s, t);
    SecondsValue(s);
    SecondsValue(t);
  }

  /** A time of that failing family. */
  lemma StampWrapsExample()
    ensures !After(Stamp(Time(0, 0)), Stamp(Time(-BASE - 1, 0)))
  {
    StampWraps(Time(-BASE - 1, 0), Time(0, 0));
  }
}
