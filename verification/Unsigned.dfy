// Bit operations on unsigned numbers.
module Unsigned {
  import opened Basics

  // The operator ^.
  function Xor(a: nat, b: nat): nat {
    if a == 0 && b == 0 then 0 else 2 * Xor(a / 2, b / 2) + (a + b) % 2
  }
  function Pow2(k: nat): nat {
    if k == 0 then 1 else 2 * Pow2(k - 1)
  }
  lemma XorUnfold(A: nat, B: nat, a: nat, b: nat, i: nat, j: nat)
    requires A == 2 * a + i && B == 2 * b + j && i < 2 && j < 2
    ensures Xor(A, B) == 2 * Xor(a, b) + (i + j) % 2
  {
    assert A / 2 == a && B / 2 == b && (A + B) % 2 == (i + j) % 2;
  }

  lemma HalveBlocks(A: nat, a: nat, p: nat, half: nat, r: nat, rh: nat, i: nat) returns (Ah: nat)
    requires A == a * p + r && p == 2 * half && r == 2 * rh + i && i < 2
    ensures A == 2 * Ah + i && Ah == a * half + rh
  {
    assert a * p == 2 * (a * half);
    Ah := a * half + rh;
  }

  lemma JoinBlocks(xA: nat, xH: nat, x: nat, xr: nat, xrh: nat, half: nat, p: nat, e: nat)
    requires xA == 2 * xH + e && xH == x * half + xrh && xr == 2 * xrh + e && p == 2 * half
    ensures xA == x * p + xr
  {
    assert x * p == 2 * (x * half);
  }

  lemma {:induction false} XorBlocks(k: nat, p: nat, A: nat, B: nat, a: nat, b: nat, r: nat, s: nat)
    requires p == Pow2(k) && A == a * p + r && B == b * p + s && r < p && s < p
    ensures Xor(A, B) == Xor(a, b) * p + Xor(r, s)
    decreases k
  {
    if k == 0 {
    } else {
      var half := Pow2(k - 1);
      var rh, i := r / 2, r % 2;
      var sh, j := s / 2, s % 2;
      var Ah := HalveBlocks(A, a, p, half, r, rh, i);
      var Bh := HalveBlocks(B, b, p, half, s, sh, j);
      XorBlocks(k - 1, half, Ah, Bh, a, b, rh, sh);
      XorUnfold(A, B, Ah, Bh, i, j);
      XorUnfold(r, s, rh, sh, i, j);
      JoinBlocks(Xor(A, B), Xor(Ah, Bh), Xor(a, b), Xor(r, s), Xor(rh, sh), half, p, (i + j) % 2);
    }
  }

  lemma {:induction false} XorZero(a: nat)
    ensures Xor(a, 0) == a && Xor(0, a) == a && Xor(a, a) == 0
    decreases a
  {
    if a == 0 {
    } else {
      XorZero(a / 2);
    }
  }

  lemma {:induction false} XorBounded(k: nat, a: nat, b: nat)
    requires a < Pow2(k) && b < Pow2(k)
    ensures Xor(a, b) < Pow2(k)
    decreases k
  {
    if k == 0 {
    } else {
      XorBounded(k - 1, a / 2, b / 2);
      XorUnfold(a, b, a / 2, b / 2, a % 2, b % 2);
    }
  }

  lemma LowestBit(a: nat, b: nat, ah: nat, bh: nat, i: nat, j: nat)
    requires a == 2 * ah + i && b == 2 * bh + j && i < 2 && j < 2
    ensures Xor(a, b) % 2 == (i + j) % 2
  {
    XorUnfold(a, b, ah, bh, i, j);
    Odd(Xor(a, b), Xor(ah, bh), (i + j) % 2);
  }

  lemma Odd(x: nat, h: nat, e: nat)
    requires x == 2 * h + e && e < 2
    ensures x % 2 == e
  {
  }

  // Bit k of a ^ b.
  lemma {:induction false} XorBit(a: nat, b: nat, k: nat)
    ensures Pow2(k) > 0 && Xor(a, b) / Pow2(k) % 2 == (a / Pow2(k) + b / Pow2(k)) % 2
    decreases k
  {
    if k == 0 {
      LowestBit(a, b, a / 2, b / 2, a % 2, b % 2);
    } else {
      XorBit(a / 2, b / 2, k - 1);
      SameBit(a, b, a / 2, b / 2, a % 2, b % 2, k);
    }
  }

  lemma SameBit(a: nat, b: nat, ah: nat, bh: nat, i: nat, j: nat, k: nat)
    requires k > 0 && a == 2 * ah + i && b == 2 * bh + j && i < 2 && j < 2 && Pow2(k - 1) > 0
    requires Xor(ah, bh) / Pow2(k - 1) % 2 == (ah / Pow2(k - 1) + bh / Pow2(k - 1)) % 2
    ensures Pow2(k) > 0 && Xor(a, b) / Pow2(k) % 2 == (a / Pow2(k) + b / Pow2(k)) % 2
  {
    HigherBit(a, b, ah, bh, i, j, k);
  }

  lemma HigherBit(a: nat, b: nat, ah: nat, bh: nat, i: nat, j: nat, k: nat)
    requires k > 0 && a == 2 * ah + i && b == 2 * bh + j && i < 2 && j < 2
    ensures Pow2(k) > 0 && Pow2(k - 1) > 0
    ensures a / Pow2(k) == ah / Pow2(k - 1) && b / Pow2(k) == bh / Pow2(k - 1)
    ensures Xor(a, b) / Pow2(k) == Xor(ah, bh) / Pow2(k - 1)
  {
    HalfFirst(a, ah, i, k);
    HalfFirst(b, bh, j, k);
    XorUnfold(a, b, ah, bh, i, j);
    HalfFirst(Xor(a, b), Xor(ah, bh), (i + j) % 2, k);
  }

  lemma {:induction false} PowPositive(k: nat)
    ensures Pow2(k) > 0
  {
    if k == 0 {
    } else {
      PowPositive(k - 1);
    }
  }

  lemma HalfFirst(a: nat, h: nat, i: nat, k: nat)
    requires k > 0 && a == 2 * h + i && i < 2
    ensures Pow2(k) > 0 && Pow2(k - 1) > 0 && a / Pow2(k) == h / Pow2(k - 1)
  {
    PowPositive(k);
    PowPositive(k - 1);
    var p := Pow2(k - 1);
    var q, r := h / p, h % p;
    assert a == q * (2 * p) + (2 * r + i);
    QuotientUnique(a, q, 2 * r + i, 2 * p);
  }
}
