/** Bytes as the C code sees them, and the bit operations it applies to them.
    `&` with a low mask is `%`, `>>` is `/`, `|` of disjoint fields is `+`; exclusive
    or is defined here bit by bit. */
module Bytes {
  type byte = x: int | 0 <= x < 256

  /** The bytes of several reads, one after the other. */
  function Flatten(chunks: seq<seq<byte>>): seq<byte> {
    if chunks == [] then [] else chunks[0] + Flatten(chunks[1..])
  }

  predicate Odd(a: nat) {
    a % 2 == 1
  }

  function Xor(a: nat, b: nat): nat
    decreases a + b
  {
    if a == 0 && b == 0 then 0
    else 2 * Xor(a / 2, b / 2) + (if Odd(a) == Odd(b) then 0 else 1)
  }

  function Pow2(k: nat): (p: nat)
    ensures p > 0
  {
    if k == 0 then 1 else 2 * Pow2(k - 1)
  }

  lemma XorSelf(a: nat)
    ensures Xor(a, a) == 0
  {}

  lemma XorZero(a: nat)
    ensures Xor(a, 0) == a && Xor(0, a) == a
  {}

  lemma XorComm(a: nat, b: nat)
    ensures Xor(a, b) == Xor(b, a)
    decreases a + b
  {}

  lemma XorParts(a: nat, b: nat)
    ensures Xor(a, b) / 2 == Xor(a / 2, b / 2)
    ensures Odd(Xor(a, b)) <==> Odd(a) != Odd(b)
  {}

  lemma {:induction false} XorAssoc(a: nat, b: nat, c: nat)
    ensures Xor(Xor(a, b), c) == Xor(a, Xor(b, c))
    decreases a + b + c
  {
    if a != 0 || b != 0 || c != 0 {
      XorAssoc(a / 2, b / 2, c / 2);
      XorParts(a, b);
      XorParts(b, c);
      XorParts(Xor(a, b), c);
      XorParts(a, Xor(b, c));
    }
  }

  /** Exclusive or with the same word twice is the identity. */
  lemma XorCancel(a: nat, b: nat)
    ensures Xor(Xor(a, b), b) == a
  {
    XorAssoc(a, b, b);
    XorSelf(b);
    XorZero(a);
  }

  lemma {:induction false} XorBound(a: nat, b: nat, k: nat)
    requires a < Pow2(k) && b < Pow2(k)
    ensures Xor(a, b) < Pow2(k)
  {
    if k > 0 {
      XorBound(a / 2, b / 2, k - 1);
    }
  }

  /** `a` shifted left by `k`. */
  function Shl(a: nat, k: nat): nat {
    if k == 0 then a else 2 * Shl(a, k - 1)
  }

  /** Exclusive or acts on the part above bit `k` and on the part below it separately. */
  lemma {:induction false} XorSplit(a: nat, x: nat, b: nat, y: nat, k: nat)
    requires x < Pow2(k) && y < Pow2(k)
    ensures Xor(Shl(a, k) + x, Shl(b, k) + y) == Shl(Xor(a, b), k) + Xor(x, y)
  {
    if k > 0 {
      var u, v := Shl(a, k - 1), Shl(b, k - 1);
      XorSplit(a, x / 2, b, y / 2, k - 1);
      Halves(u, x);
      Halves(v, y);
      XorParts(Shl(a, k) + x, Shl(b, k) + y);
      XorParts(x, y);
    } else {
      XorZero(0);
    }
  }

  lemma Halves(u: nat, x: nat)
    ensures (2 * u + x) / 2 == u + x / 2
    ensures Odd(2 * u + x) == Odd(x)
  {}

  /** The two halves of an exclusive or, cut above the low nibble. */
  lemma XorNibbles(a: nat, b: nat)
    ensures Xor(a, b) / 16 == Xor(a / 16, b / 16)
    ensures Xor(a, b) % 16 == Xor(a % 16, b % 16) < 16
  {
    Pow2Values();
    XorSplit(a / 16, a % 16, b / 16, b % 16, 4);
    XorBound(a % 16, b % 16, 4);
    Shl4(a / 16);
    Shl4(b / 16);
    Shl4(Xor(a / 16, b / 16));
  }

  lemma LowNibble(a: nat, b: nat)
    ensures Xor(a, b) % 16 == Xor(a, b % 16) % 16
  {
    XorNibbles(a, b);
    XorNibbles(a, b % 16);
    assert b % 16 % 16 == b % 16;
  }

  lemma {:induction false} ShlTimes(a: nat, k: nat)
    ensures Shl(a, k) == Pow2(k) * a
  {
    if k > 0 {
      ShlTimes(a, k - 1);
    }
  }

  lemma Pow2Values()
    ensures Pow2(4) == 16 && Pow2(7) == 128 && Pow2(8) == 256 && Pow2(12) == 4096
    ensures Pow2(15) == 0x8000 && Pow2(16) == 65536
  {
    assert Pow2(8) == 256;
  }

  lemma Shl4(a: nat)
    ensures Shl(a, 4) == 16 * a
  {
    ShlTimes(a, 4);
    Pow2Values();
  }

  /** A word is the exclusive or of its low nibble and the rest. */
  lemma NibbleParts(d: nat)
    ensures d == Xor(16 * (d / 16), d % 16) == Xor(d % 16, 16 * (d / 16))
  {
    Pow2Values();
    XorSplit(d / 16, 0, 0, d % 16, 4);
    Shl4(d / 16);
    Shl4(0);
    XorZero(d / 16);
    XorZero(d % 16);
    XorComm(16 * (d / 16), d % 16);
  }
}
