/**
 * The arithmetic reading of the machine operators. The codec models write `x >> k` as a quotient,
 * `x << k` as a product, `x & (2^k - 1)` as a remainder and `x | mark` with disjoint bits as a sum; these identities on
 * 32-bit words justify each rewriting that occurs.
 */
module MachineBits {

  lemma ShiftsAreQuotients(x: bv32)
    ensures x >> 6 == x / 0x40 && x >> 10 == x / 0x400 && x >> 12 == x / 0x1000 && x >> 18 == x / 0x40000
  {
  }

  lemma ShiftsAreProducts(x: bv32)
    ensures x << 6 == x * 0x40 && x << 10 == x * 0x400 && x << 12 == x * 0x1000 && x << 18 == x * 0x40000
  {
  }

  lemma MasksAreRemainders(x: bv32)
    ensures x & 0x3f == x % 0x40 && x & 0x3ff == x % 0x400 && x & 0x7ff == x % 0x800
    ensures x & 0xfff == x % 0x1000 && x & 0xffff == x % 0x10000 && x & 0x3ffff == x % 0x40000
    ensures x & 0x1fffff == x % 0x200000
  {
  }

  lemma MarksAreSums(x: bv8)
    ensures x < 0x20 ==> x | 0xc0 == x + 0xc0
    ensures x < 0x10 ==> x | 0xe0 == x + 0xe0
    ensures x < 0x08 ==> x | 0xf0 == x + 0xf0
    ensures x < 0x40 ==> x | 0x80 == x + 0x80
    ensures (x | 0x80) & 0xbf == x % 0x40 + 0x80
  {
  }

  lemma SurrogateHalvesAreDisjoint(x: bv32, y: bv32)
    ensures y < 0x400 ==> (x << 10) | y == x * 0x400 + y
  {
  }
}
