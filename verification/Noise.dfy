/**
 The cryptography of internal/transport/noise-helpers.go as terms. Constructors are injective, a shared
 secret is a term over the unordered pair of private keys, and a sealed box opens only with the key, nonce
 and associated data it was sealed with. HKDF (RFC 5869, section 2) is built from an abstract HMAC.
 */
module Noise {
  import opened Common

  /** The public key of a private key, or a point for which X25519 yields the all-zero secret. */
  datatype PublicKey = Pub(secret: nat) | LowOrder(code: nat)

  datatype Term =
    | Zeros
    | Text(s: string)
    | Octets(b: seq<nat>)
    | Key(pk: PublicKey)
    | Dh(lo: nat, hi: nat)
    | Hash(data: Term)
    | Mac(mackey: Term, message: Term)
    | Hmac(key: Term, input: Term)
    | Cat(left: Term, right: Term)
    | Sealed(sealKey: Term, nonce: Term, plain: Term, ad: Term)

  function SharedSecret(sk: nat, pk: PublicKey): (r: Option<Term>)
    ensures r.None? <==> pk.LowOrder?
  {
    match pk
    case LowOrder(_) => None
    case Pub(other) => Some(if sk <= other then Dh(sk, other) else Dh(other, sk))
  }

  /** Both sides of a Diffie-Hellman exchange compute the same secret, and no other pair of keys does. */
  lemma SharedSecretAgrees(a: nat, b: nat, c: nat, d: nat)
    ensures SharedSecret(a, Pub(b)) == SharedSecret(b, Pub(a))
    ensures SharedSecret(a, Pub(b)) == SharedSecret(c, Pub(d)) ==> {a, b} == {c, d}
  {}

  function Kdf1(key: Term, input: Term): Term {
    Hmac(Hmac(key, input), Octets([1]))
  }

  function Kdf2(key: Term, input: Term): (Term, Term) {
    var prk := Hmac(key, input);
    var t0 := Hmac(prk, Octets([1]));
    (t0, Hmac(prk, Cat(t0, Octets([2]))))
  }

  function Kdf3(key: Term, input: Term): (Term, Term, Term) {
    var prk := Hmac(key, input);
    var t0 := Hmac(prk, Octets([1]));
    var t1 := Hmac(prk, Cat(t0, Octets([2])));
    (t0, t1, Hmac(prk, Cat(t1, Octets([3]))))
  }

  // ---- HKDF as section 2 of RFC 5869 defines it ------------------------------------------------

  function Extract(salt: Term, input: Term): Term {
    Hmac(salt, input)
  }

  /** Nothing in front of a term leaves the term. */
  function Join(left: Term, right: Term): Term {
    if left == Octets([]) then right else Cat(left, right)
  }

  /** `T(i)` of the standard, with empty context information: `T(0)` is empty. */
  function Block(prk: Term, i: nat): Term {
    if i == 0 then Octets([]) else Hmac(prk, Join(Block(prk, i - 1), Octets([i])))
  }

  /** The first `n` blocks of output. */
  function Expand(prk: Term, n: nat): (r: seq<Term>)
    ensures |r| == n && forall i | 0 <= i < n :: r[i] == Block(prk, i + 1)
  {
    seq(n, (i: nat) => Block(prk, i + 1))
  }

  /** The key derivation functions are the first one, two and three blocks. */
  lemma KdfIsHkdf(key: Term, input: Term)
    ensures var prk := Extract(key, input);
            var ((a0, a1), (b0, b1, b2)) := (Kdf2(key, input), Kdf3(key, input));
            [Kdf1(key, input)] == Expand(prk, 1) && [a0, a1] == Expand(prk, 2) && [b0, b1, b2] == Expand(prk, 3)
  {
    var prk := Extract(key, input);
    assert Block(prk, 1) == Hmac(prk, Octets([1]));
    assert Block(prk, 2) == Hmac(prk, Cat(Block(prk, 1), Octets([2])));
    assert Block(prk, 3) == Hmac(prk, Cat(Block(prk, 2), Octets([3])));
  }

  /** No two blocks of a derivation are the same, and no two derivations share one. */
  lemma {:induction false} BlocksDiffer(prk: Term, i: nat, prk': Term, j: nat)
    requires i > 0 && j > 0
    ensures Block(prk, i) == Block(prk', j) <==> prk == prk' && i == j
  {
    if Block(prk, i) == Block(prk', j) {
      assert i > 1 ==> Block(prk, i - 1).Hmac?;
      assert j > 1 ==> Block(prk', j - 1).Hmac?;
      assert Octets([i]).b[0] == i && Octets([j]).b[0] == j;
    }
  }

  const ZERO_NONCE := Zeros

  function Open(key: Term, nonce: Term, box: Term, ad: Term): (r: Option<Term>)
    ensures forall plain :: r == Some(plain) <==> box == Sealed(key, nonce, plain, ad)
  {
    if box.Sealed? && box.sealKey == key && box.nonce == nonce && box.ad == ad then Some(box.plain) else None
  }

  // ---- The key derivation functions as the source runs them: results are written through pointers ----

  class Cell {
    var t: Term

    constructor (t: Term)
      ensures this.t == t
    {
      this.t := t;
    }
  }

  /** `t0` may be the same cell as `key`: the chain key of a handshake is overwritten by what is derived from it. */
  method RunKdf1(t0: Cell, key: Cell, input: Term)
    modifies t0
    ensures t0.t == Kdf1(old(key.t), input)
    ensures [t0.t] == Expand(Extract(old(key.t), input), 1)
  {
    KdfIsHkdf(key.t, input);
    t0.t := Hmac(key.t, input);
    t0.t := Hmac(t0.t, Octets([1]));
  }

  method RunKdf2(t0: Cell, t1: Cell, key: Cell, input: Term)
    requires t0 != t1
    modifies t0, t1
    ensures (t0.t, t1.t) == Kdf2(old(key.t), input)
    ensures [t0.t, t1.t] == Expand(Extract(old(key.t), input), 2)
  {
    KdfIsHkdf(key.t, input);
    var prk := new Cell(Hmac(key.t, input));
    t0.t := Hmac(prk.t, Octets([1]));
    t1.t := Hmac(prk.t, Cat(t0.t, Octets([2])));
    prk.t := Zeros;
  }

  method RunKdf3(t0: Cell, t1: Cell, t2: Cell, key: Cell, input: Term)
    requires t0 != t1 && t0 != t2 && t1 != t2
    modifies t0, t1, t2
    ensures (t0.t, t1.t, t2.t) == Kdf3(old(key.t), input)
    ensures [t0.t, t1.t, t2.t] == Expand(Extract(old(key.t), input), 3)
  {
    KdfIsHkdf(key.t, input);
    var prk := new Cell(Hmac(key.t, input));
    t0.t := Hmac(prk.t, Octets([1]));
    t1.t := Hmac(prk.t, Cat(t0.t, Octets([2])));
    t2.t := Hmac(prk.t, Cat(t1.t, Octets([3])));
    prk.t := Zeros;
  }
}
