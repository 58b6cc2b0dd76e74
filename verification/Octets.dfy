/** A byte as a number and as bits. */
module Octets {
  lemma ByteFitsBits(b: int)
    requires 0 <= b < 256
    ensures (b as bv8) as int == b
  {
    assert 0 <= (b as bv8) as int < 256;
  }
}
