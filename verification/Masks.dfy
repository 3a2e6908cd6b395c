/** Bit tricks on words alone. */
module MaskWords {
  type Mask = bv16

  lemma LowBoth(a: Mask, b: Mask)
    ensures (a & b) & 1 != 0 <==> a & 1 != 0 && b & 1 != 0
    ensures (a & b) & 2 != 0 <==> a & 2 != 0 && b & 2 != 0
    ensures (a & b) & 4 != 0 <==> a & 4 != 0 && b & 4 != 0
    ensures (a & b) & 8 != 0 <==> a & 8 != 0 && b & 8 != 0
  {
  }

  lemma HighBoth(a: Mask, b: Mask)
    ensures (a & b) & 16 != 0 <==> a & 16 != 0 && b & 16 != 0
    ensures (a & b) & 32 != 0 <==> a & 32 != 0 && b & 32 != 0
    ensures (a & b) & 64 != 0 <==> a & 64 != 0 && b & 64 != 0
    ensures (a & b) & 128 != 0 <==> a & 128 != 0 && b & 128 != 0
  {
  }

  lemma LowOnly(a: Mask, b: Mask)
    ensures (b & !a) & 1 != 0 <==> b & 1 != 0 && a & 1 == 0
    ensures (b & !a) & 2 != 0 <==> b & 2 != 0 && a & 2 == 0
    ensures (b & !a) & 4 != 0 <==> b & 4 != 0 && a & 4 == 0
    ensures (b & !a) & 8 != 0 <==> b & 8 != 0 && a & 8 == 0
  {
  }

  lemma HighOnly(a: Mask, b: Mask)
    ensures (b & !a) & 16 != 0 <==> b & 16 != 0 && a & 16 == 0
    ensures (b & !a) & 32 != 0 <==> b & 32 != 0 && a & 32 == 0
    ensures (b & !a) & 64 != 0 <==> b & 64 != 0 && a & 64 == 0
    ensures (b & !a) & 128 != 0 <==> b & 128 != 0 && a & 128 == 0
  {
  }

  lemma Inside(a: Mask, b: Mask)
    requires a & b == b
    ensures b & !a == 0
  {
  }

  lemma Outside(a: Mask, b: Mask)
    requires b & !a == 0
    ensures a & b == b
  {
  }

  /** The number of a bit that is set. */
  function AnyBit(x: Mask): (k: nat)
    requires x <= 0xFF && x != 0
    ensures k < 8
  {
    if x & 1 != 0 then 0 else if x & 2 != 0 then 1 else if x & 4 != 0 then 2 else if x & 8 != 0 then 3
    else if x & 16 != 0 then 4 else if x & 32 != 0 then 5 else if x & 64 != 0 then 6 else 7
  }

  /** Bit k of a byte is set. */
  predicate Has(x: Mask, k: nat) {
    (k == 0 && x & 1 != 0) || (k == 1 && x & 2 != 0) || (k == 2 && x & 4 != 0) || (k == 3 && x & 8 != 0)
    || (k == 4 && x & 16 != 0) || (k == 5 && x & 32 != 0) || (k == 6 && x & 64 != 0) || (k == 7 && x & 128 != 0)
  }

  lemma HasAny(x: Mask)
    requires x <= 0xFF && x != 0
    ensures Has(x, AnyBit(x))
  {
  }
}

/** Modifier bytes as sets of bits. */
module Masks {
  import opened MaskWords

  /** The bits of a byte. */
  function Bits(x: Mask): set<nat> { set k: nat | k < 8 && Has(x, k) }

  /** Two bytes share a bit exactly when their sets meet. */
  lemma Meet(a: Mask, b: Mask)
    requires a <= 0xFF && b <= 0xFF
    ensures a & b != 0 <==> !(Bits(a) !! Bits(b))
  {
    LowBoth(a, b);
    HighBoth(a, b);
    if a & b != 0 {
      HasAny(a & b);
      assert AnyBit(a & b) in Bits(a) && AnyBit(a & b) in Bits(b);
    }
  }

  /** A byte has all bits of another exactly when its set has. */
  lemma Covers(a: Mask, b: Mask)
    requires a <= 0xFF && b <= 0xFF
    ensures a & b == b <==> Bits(b) <= Bits(a)
  {
    LowOnly(a, b);
    HighOnly(a, b);
    if a & b == b { Inside(a, b); }
    if b & !a == 0 {
      Outside(a, b);
    } else {
      HasAny(b & !a);
      assert AnyBit(b & !a) in Bits(b) && AnyBit(b & !a) !in Bits(a);
    }
  }
}
