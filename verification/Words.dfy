/** The bit operations on 32-bit words that the address arithmetic of `Cidr` stands for. */
module Words {
  import opened Ipv4
  import opened Cidr

  /** `x & y` on words of `n` bits, bit by bit from the lowest. */
  function And(x: nat, y: nat, n: nat): nat {
    if n == 0 then 0 else (if x % 2 == 1 && y % 2 == 1 then 1 else 0) + 2 * And(x / 2, y / 2, n - 1)
  }

  /** `x | y` */
  function Or(x: nat, y: nat, n: nat): nat {
    if n == 0 then 0 else (if x % 2 == 1 || y % 2 == 1 then 1 else 0) + 2 * Or(x / 2, y / 2, n - 1)
  }

  /** `!x` */
  function Not(x: nat, n: nat): nat {
    if n == 0 then 0 else (1 - x % 2) + 2 * Not(x / 2, n - 1)
  }

  /** `x << shift` on words of 32 bits: bits shifted out are lost. */
  function ShiftLeft(x: nat, shift: nat): nat { x * Pow2(shift) % U32_LIMIT }

  lemma Halves(x: nat, size: nat)
    requires size > 0
    ensures x / (2 * size) == x / 2 / size
  {
    var q := x / 2 / size;
    DivisionBounds(x / 2, size);
    assert 2 * (q * size) == q * (2 * size);
    QuotientIs(x, q, 2 * size);
  }

  lemma Aligned(x: nat, size: nat)
    requires size > 0
    ensures 2 * (x / 2 / size * size) == x / (2 * size) * (2 * size)
  {
    Halves(x, size);
    var q := x / 2 / size;
    assert 2 * (q * size) == q * (2 * size);
  }

  lemma EvenStep(x: nat, y: nat, n: nat)
    requires n > 0
    ensures And(x, 2 * y, n) == 2 * And(x / 2, y, n - 1)
  {
    assert 2 * y % 2 == 0 && 2 * y / 2 == y;
  }

  /** And with a word whose lowest `s` bits are clear and whose others are set. */
  lemma {:induction false} AndHighBits(x: nat, n: nat, s: nat)
    requires s <= n && x < Pow2(n)
    ensures Pow2(s) <= Pow2(n)
    ensures And(x, Pow2(n) - Pow2(s), n) == x / Pow2(s) * Pow2(s)
  {
    if n > 0 {
      AndHighBits(x / 2, n - 1, if s > 0 then s - 1 else 0);
      if s > 0 {
        EvenStep(x, Pow2(n - 1) - Pow2(s - 1), n);
        Aligned(x, Pow2(s - 1));
      } else {
        assert (Pow2(n) - 1) / 2 == Pow2(n - 1) - 1 && (Pow2(n) - 1) % 2 == 1;
      }
    }
  }

  /** The complement of such a word has just the lowest `s` bits set. */
  lemma {:induction false} NotHighBits(n: nat, s: nat)
    requires s <= n
    ensures Pow2(s) <= Pow2(n) && Not(Pow2(n) - Pow2(s), n) == Pow2(s) - 1
  {
    if n > 0 {
      NotHighBits(n - 1, if s > 0 then s - 1 else 0);
      if s > 0 {
        assert Pow2(n) - Pow2(s) == 2 * (Pow2(n - 1) - Pow2(s - 1));
      } else {
        assert (Pow2(n) - 1) / 2 == Pow2(n - 1) - 1 && (Pow2(n) - 1) % 2 == 1;
      }
    }
  }

  /** Or with the lowest `s` bits, where they are clear, adds them. */
  lemma {:induction false} OrLowBits(q: nat, n: nat, s: nat)
    requires s <= n && q * Pow2(s) < Pow2(n)
    ensures Or(q * Pow2(s), Pow2(s) - 1, n) == q * Pow2(s) + Pow2(s) - 1
  {
    if s > 0 {
      var half := Pow2(s - 1);
      assert q * Pow2(s) == 2 * (q * half);
      OrLowBits(q, n - 1, s - 1);
      assert (Pow2(s) - 1) / 2 == half - 1 && (Pow2(s) - 1) % 2 == 1;
    } else {
      OrNothing(q, n);
    }
  }

  lemma {:induction false} OrNothing(x: nat, n: nat)
    requires x < Pow2(n)
    ensures Or(x, 0, n) == x
  {
    if n > 0 {
      OrNothing(x / 2, n - 1);
    }
  }

  lemma MaskWord(s: nat)
    requires s <= 32
    ensures Pow2(s) <= U32_LIMIT && Pow2(32) == U32_LIMIT
    ensures ShiftLeft(U32_LIMIT - 1, s) == U32_LIMIT - Pow2(s)
  {
    Pow2Of32();
    NotHighBits(32, s);
    var k := Pow2(s);
    assert (U32_LIMIT - 1) * k == (k - 1) * U32_LIMIT + (U32_LIMIT - k);
    hide Pow2;
    QuotientIs((U32_LIMIT - 1) * k, k - 1, U32_LIMIT);
    DivisionBounds((U32_LIMIT - 1) * k, U32_LIMIT);
  }

  /**
   The mask, the network and the broadcast address of the code, on words, are the aligned block of
   `Cidr`, for every address and every prefix of one or more.
   */
  lemma MaskingIsAlignment(ip: Ip, prefix: nat)
    requires 0 < prefix <= 32
    ensures var mask := ShiftLeft(U32_LIMIT - 1, 32 - prefix);
            var network := And(ip, mask, 32);
            && network == Mask(ip, prefix)
            && Or(network, Not(mask, 32), 32) == network + Size(prefix) - 1
  {
    var s := 32 - prefix;
    MaskWord(s);
    AndHighBits(ip, 32, s);
    NotHighBits(32, s);
    BroadcastFits(ip, prefix);
    OrLowBits(ip / Size(prefix), 32, s);
  }
}
