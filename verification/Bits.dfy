/** Octets as bit vectors and as numbers. */
module Bits {
  function Nibble(n: nat): bv4
    requires n < 16
  {
    n as bv4
  }

  lemma NibbleValue(n: nat)
    requires n < 16
    ensures Nibble(n) as int == n
  {
  }

  /** The octet of a number below 256. */
  function AsOctet(n: nat): bv8
    requires n < 0x100
  {
    (Nibble(n / 16) as bv8 << 4) | (Nibble(n % 16) as bv8)
  }

  lemma NibblesValue(high: bv4, low: bv4)
    ensures ((high as bv8 << 4) | (low as bv8)) as int == 16 * high as int + low as int
  {
  }

  lemma OctetValue(n: nat)
    requires n < 0x100
    ensures AsOctet(n) as int == n
  {
    hide Nibble;
    NibbleValue(n / 16);
    NibbleValue(n % 16);
    NibblesValue(Nibble(n / 16), Nibble(n % 16));
  }
}
