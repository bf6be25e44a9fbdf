/** Exclusive-or on 32-bit registers, by its laws. */
module Registers {

  function Xor(a: bv32, b: bv32): bv32 {
    a ^ b
  }

  /** BitAt `k` of a register, the lowest being bit 0. */
  predicate BitAt(x: bv32, k: bv32)
    requires k < 32
  {
    (x >> k) & 1 == 1
  }

  lemma XorBits(a: bv32, b: bv32, k: bv32)
    requires k < 32
    ensures BitAt(Xor(a, b), k) <==> BitAt(a, k) != BitAt(b, k)
  {
    assert ((a ^ b) >> k) & 1 == ((a >> k) & 1) ^ ((b >> k) & 1);
    assert (a >> k) & 1 == 0 || (a >> k) & 1 == 1;
    assert (b >> k) & 1 == 0 || (b >> k) & 1 == 1;
  }

  function Not(c: bv32): bv32 {
    !c
  }

  lemma XorZero(a: bv32)
    ensures Xor(a, 0) == a && Xor(0, a) == a && Xor(a, a) == 0
  {
  }

  lemma XorCommutes(a: bv32, b: bv32)
    ensures Xor(a, b) == Xor(b, a)
  {
  }

  lemma XorAssociates(a: bv32, b: bv32, c: bv32)
    ensures Xor(Xor(a, b), c) == Xor(a, Xor(b, c))
  {
  }

  lemma XorExchange(a: bv32, b: bv32, c: bv32, d: bv32)
    ensures Xor(Xor(a, b), Xor(c, d)) == Xor(Xor(a, c), Xor(b, d))
  {
    hide Xor;
    XorAssociates(a, b, Xor(c, d));
    XorAssociates(b, c, d);
    XorCommutes(b, c);
    XorAssociates(c, b, d);
    XorAssociates(a, c, Xor(b, d));
  }

  lemma NotIsXor(a: bv32)
    ensures Not(a) == Xor(a, 0xffff_ffff)
  {
  }

  lemma NotXor(a: bv32, b: bv32)
    ensures Not(Xor(a, b)) == Xor(a, Not(b)) && Not(Not(a)) == a
  {
    hide Xor, Not;
    var ones: bv32 := 0xffff_ffff;
    NotIsXor(Xor(a, b));
    NotIsXor(b);
    XorAssociates(a, b, ones);
    NotIsXor(a);
    NotIsXor(Not(a));
    XorAssociates(a, ones, ones);
    XorZero(ones);
    XorZero(a);
  }
}
