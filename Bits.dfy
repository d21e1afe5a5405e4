/**
  Bitwise AND and OR on unsigned integers, defined bit by bit from the
  least significant end. The frame-ID generator masks the counter with
  TF_ID_MASK and sets TF_ID_PEERBIT with these two operators.
*/
module Bits {
  import opened Wire

  /** 2^k. */
  function Pow2(k: nat): (r: nat)
    ensures r >= 1
  {
    if k == 0 then 1 else 2 * Pow2(k - 1)
  }

  /** `a & b`. */
  function And(a: nat, b: nat): nat
    decreases a
  {
    if a == 0 || b == 0 then 0
    else 2 * And(a / 2, b / 2) + (if a % 2 == 1 && b % 2 == 1 then 1 else 0)
  }

  /** `a | b`. */
  function Or(a: nat, b: nat): nat
    decreases a + b
  {
    if a == 0 then b
    else if b == 0 then a
    else 2 * Or(a / 2, b / 2) + (if a % 2 == 1 || b % 2 == 1 then 1 else 0)
  }

  /** `a ^ b`. */
  function Xor(a: nat, b: nat): nat
    decreases a + b
  {
    if a == 0 then b
    else if b == 0 then a
    else 2 * Xor(a / 2, b / 2) + (if a % 2 != b % 2 then 1 else 0)
  }

  lemma {:induction false} AndComm(a: nat, b: nat)
    ensures And(a, b) == And(b, a)
    decreases a
  {
    if a != 0 && b != 0 {
      AndComm(a / 2, b / 2);
    }
  }

  lemma {:induction false} AndAssoc(a: nat, b: nat, c: nat)
    ensures And(And(a, b), c) == And(a, And(b, c))
    decreases a
  {
    if a != 0 && b != 0 && c != 0 {
      AndAssoc(a / 2, b / 2, c / 2);
      var ab := And(a, b);
      var bc := And(b, c);
      assert ab / 2 == And(a / 2, b / 2) && ab % 2 == (if a % 2 == 1 && b % 2 == 1 then 1 else 0);
      assert bc / 2 == And(b / 2, c / 2) && bc % 2 == (if b % 2 == 1 && c % 2 == 1 then 1 else 0);
    }
  }

  /** The result of `a & b` never exceeds `b`. */
  lemma {:induction false} AndAtMost(a: nat, b: nat)
    ensures And(a, b) <= b
    decreases a
  {
    if a != 0 && b != 0 {
      AndAtMost(a / 2, b / 2);
    }
  }

  /** `(x | p) & p == p`: OR-ing in bits sets them. */
  lemma {:induction false} AndOfOr(x: nat, p: nat)
    ensures And(Or(x, p), p) == p
    decreases x + p
  {
    if x == 0 {
      AndIdem(p);
    } else if p != 0 {
      AndOfOr(x / 2, p / 2);
      var o := Or(x, p);
      assert o / 2 == Or(x / 2, p / 2) && o % 2 == (if x % 2 == 1 || p % 2 == 1 then 1 else 0);
    }
  }

  lemma {:induction false} AndIdem(a: nat)
    ensures And(a, a) == a
    decreases a
  {
    if a != 0 {
      AndIdem(a / 2);
    }
  }

  /** OR of two k-bit numbers is a k-bit number. */
  lemma {:induction false} OrBelow(a: nat, b: nat, k: nat)
    requires a < Pow2(k) && b < Pow2(k)
    ensures Or(a, b) < Pow2(k)
    decreases k
  {
    if a != 0 && b != 0 {
      OrBelow(a / 2, b / 2, k - 1);
    }
  }

  /** XOR of two k-bit numbers is a k-bit number. */
  lemma {:induction false} XorBelow(a: nat, b: nat, k: nat)
    requires a < Pow2(k) && b < Pow2(k)
    ensures Xor(a, b) < Pow2(k)
    decreases k
  {
    if a != 0 && b != 0 {
      XorBelow(a / 2, b / 2, k - 1);
    }
  }

  lemma {:induction false} Pow2Add(a: nat, b: nat)
    ensures Pow2(a + b) == Pow2(a) * Pow2(b)
    decreases a
  {
    if a != 0 {
      Pow2Add(a - 1, b);
    }
  }

  /** A w-byte type holds 8w bits. */
  lemma {:induction false} Pow256IsPow2(w: nat)
    ensures Pow256(w) == Pow2(8 * w)
    decreases w
  {
    if w != 0 {
      Pow256IsPow2(w - 1);
      Pow2Add(8 * (w - 1), 8);
    }
  }

  /** XOR of two w-byte numbers is a w-byte number. */
  lemma XorBelowBytes(a: nat, b: nat, w: nat)
    requires a < Pow256(w) && b < Pow256(w)
    ensures Xor(a, b) < Pow256(w)
  {
    Pow256IsPow2(w);
    XorBelow(a, b, 8 * w);
  }
}
