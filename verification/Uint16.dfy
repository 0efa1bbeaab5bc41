/**
 Go's uint16: values below 2^16, arithmetic that wraps, shifts and the bitwise AND.
 */
module Uint16 {

  const Modulus: nat := 0x1_0000

  type uint16 = x: int | 0 <= x < Modulus

  function Plus(a: uint16, b: uint16): uint16 { (a + b) % Modulus }

  function Minus(a: uint16, b: uint16): uint16 { (a - b) % Modulus }

  /** x * 2^k without truncation, by doubling, which keeps the proofs linear. */
  function Shl(x: nat, k: nat): (r: nat)
    ensures r >= x
    ensures k > 0 ==> r % 2 == 0
  {
    if k == 0 then x else 2 * Shl(x, k - 1)
  }

  function Pow2(k: nat): nat { Shl(1, k) }

  /** x << k on 16 bits. */
  function ShiftLeft(x: uint16, k: nat): uint16 { Shl(x, k) % Modulus }

  /** Bitwise AND, bit by bit from the right. */
  function BitAnd(a: nat, b: nat): (r: nat)
    ensures r <= a && r <= b
  {
    if a == 0 || b == 0 then 0
    else 2 * BitAnd(a / 2, b / 2) + (if a % 2 == 1 && b % 2 == 1 then 1 else 0)
  }

  lemma {:induction false} ShlAdds(a: nat, b: nat, k: nat)
    ensures Shl(a + b, k) == Shl(a, k) + Shl(b, k)
  {
    if k > 0 { ShlAdds(a, b, k - 1); }
  }

  lemma {:induction false} ShlTwice(x: nat, j: nat, k: nat)
    ensures Shl(Shl(x, j), k) == Shl(x, j + k)
  {
    if k > 0 { ShlTwice(x, j, k - 1); }
  }

  /** Distinct multiples of 2^k are at least 2^k apart. */
  lemma {:induction false} ShlApart(a: nat, b: nat, k: nat)
    requires a < b
    ensures Shl(a, k) + Pow2(k) <= Shl(b, k)
  {
    if k > 0 { ShlApart(a, b, k - 1); }
  }

  lemma {:induction false} Pow2Monotone(j: nat, k: nat)
    requires j < k
    ensures 2 * Pow2(j) <= Pow2(k)
    decreases k
  {
    if j < k - 1 { Pow2Monotone(j, k - 1); }
  }

  lemma Pow2Values()
    ensures Pow2(15) == 0x8000 && Pow2(16) == Modulus
  {
    assert Pow2(4) == 16;
    assert Pow2(8) == 256;
    assert Pow2(12) == 4096;
  }

  lemma {:induction false} Quotient(x: nat, k: nat) returns (q: nat, r: nat)
    ensures x == Shl(q, k) + r && r < Pow2(k)
  {
    if k == 0 {
      q, r := x, 0;
    } else {
      var r';
      q, r' := Quotient(x / 2, k - 1);
      r := 2 * r' + x % 2;
    }
  }

  lemma {:induction false} BitAndAllOnes(x: nat, n: nat)
    requires x < Pow2(n)
    ensures BitAnd(x, Pow2(n) - 1) == x
  {
    if n > 0 && x > 0 {
      BitAndAllOnes(x / 2, n - 1);
      assert (Pow2(n) - 1) / 2 == Pow2(n - 1) - 1;
    }
  }

  lemma {:induction false} Halves(x: nat, mask: nat, q: nat, r: nat, n: nat, k: nat)
    requires 0 < k <= n && r < Pow2(k) && x == Shl(q, k) + r < Pow2(n) && mask == Pow2(n) - Pow2(k)
    ensures Shl(q, k) == 2 * Shl(q, k - 1) && r / 2 < Pow2(k - 1)
    ensures x / 2 == Shl(q, k - 1) + r / 2 < Pow2(n - 1)
    ensures mask % 2 == 0 && mask / 2 == Pow2(n - 1) - Pow2(k - 1)
  {
    assert Pow2(n) == 2 * Pow2(n - 1) && Pow2(k) == 2 * Pow2(k - 1);
  }

  /** Masking with n-k leading ones clears the k low bits. */
  lemma {:induction false} BitAndMask(x: nat, mask: nat, q: nat, r: nat, n: nat, k: nat)
    requires k <= n && r < Pow2(k) && x == Shl(q, k) + r < Pow2(n) && mask == Pow2(n) - Pow2(k)
    ensures BitAnd(x, mask) == Shl(q, k)
    decreases k
  {
    if k == 0 {
      BitAndAllOnes(q, n);
    } else {
      Halves(x, mask, q, r, n, k);
      BitAndMask(x / 2, mask / 2, q, r / 2, n - 1, k - 1);
    }
  }

  /** Only the numbers of one block round down to its start. */
  lemma SameBlock(q: nat, q': nat, r': nat, k: nat)
    requires r' < Pow2(k)
    ensures Shl(q, k) == Shl(q', k) <==> Shl(q, k) <= Shl(q', k) + r' < Shl(q, k) + Pow2(k)
  {
    if q < q' { ShlApart(q, q', k); }
    if q' < q { ShlApart(q', q, k); }
  }

  lemma Pow2Below(k: nat)
    requires k <= 15
    ensures Pow2(k) <= 0x8000
  {
    Pow2Values();
    if k < 15 { Pow2Monotone(k, 15); }
  }

  lemma MaskedValue(p: uint16, k: nat) returns (q: nat, r: nat)
    requires k <= 15
    ensures Pow2(k) <= 0x8000 && p == Shl(q, k) + r && r < Pow2(k)
    ensures BitAnd(p, Modulus - Pow2(k)) == Shl(q, k)
  {
    Pow2Below(k);
    Pow2Values();
    q, r := Quotient(p, k);
    BitAndMask(p, Modulus - Pow2(k), q, r, 16, k);
  }

  /** The values that agree with an aligned base under a mask are one block of 2^k. */
  lemma MaskedBlock(q: nat, k: nat, p: uint16)
    requires k <= 15 && Shl(q, k) < Modulus
    ensures Pow2(k) <= 0x8000
    ensures BitAnd(Shl(q, k), Modulus - Pow2(k)) == BitAnd(p, Modulus - Pow2(k))
       <==> Shl(q, k) <= p < Shl(q, k) + Pow2(k)
  {
    var q', r' := MaskedValue(p, k);
    Pow2Values();
    BitAndMask(Shl(q, k), Modulus - Pow2(k), q, 0, 16, k);
    SameBlock(q, q', r', k);
  }

  /** An aligned block never runs past 2^16. */
  lemma AlignedFits(q: nat, k: nat)
    requires k <= 16 && Shl(q, k) < Modulus
    ensures Shl(q, k) + Pow2(k) <= Modulus
  {
    Pow2Values();
    ShlTwice(1, 16 - k, k);
    var m := Pow2(16 - k);
    if q < m { ShlApart(q, m, k); } else if m < q { ShlApart(m, q, k); }
  }

  /** An odd multiple of 2^t is a multiple of no higher power of two. */
  lemma {:induction false} HighestPower(odd: nat, t: nat, q: nat, k: nat)
    requires Shl(odd, t) == Shl(q, k) && odd % 2 == 1
    ensures k <= t
  {
    if k > 0 && t > 0 { HighestPower(odd, t - 1, q, k - 1); }
  }
}
