/**
 * The round function of DES in `muggle/c/crypt/internal/internal_des.c`. Bits are numbered from the least significant
 * one, as the shifts of the source do.
 */
module DesRound {
  import opened Feistel

  /** Eight groups of six bits: an expanded half, or a subkey. The two top bits of its bytes play no part. */
  type Groups = g: seq<Bits> | |g| == 8 && forall i | 0 <= i < 8 :: |g[i]| == 6
    witness seq(8, i => seq(6, j => false))

  type Half = x: Bits | |x| == 32 witness seq(32, i => false)

  /** Row `r` of box `i`, sixteen entries of four bits. */
  function Row(i: nat, r: nat): bv64
    requires i < 8 && r < 4
  {
    if i == 0 && r == 0 then 0xe4d12fb83a6c5907
    else if i == 0 && r == 1 then 0x0f74e2d1a6cb9538
    else if i == 0 && r == 2 then 0x41e8d62bfc973a50
    else if i == 0 && r == 3 then 0xfc8249175b3ea06d
    else if i == 1 && r == 0 then 0xf18e6b34972dc05a
    else if i == 1 && r == 1 then 0x3d47f28ec01a69b5
    else if i == 1 && r == 2 then 0x0e7ba4d158c6932f
    else if i == 1 && r == 3 then 0xd8a13f42b67c05e9
    else if i == 2 && r == 0 then 0xa09e63f51dc7b428
    else if i == 2 && r == 1 then 0xd709346a285ecbf1
    else if i == 2 && r == 2 then 0xd6498f30b12c5ae7
    else if i == 2 && r == 3 then 0x1ad069874fe3b52c
    else if i == 3 && r == 0 then 0x7de3069a1285bc4f
    else if i == 3 && r == 1 then 0xd8b56f03472c1ae9
    else if i == 3 && r == 2 then 0xa690cb7df13e5284
    else if i == 3 && r == 3 then 0x3f06a1d8945bc72e
    else if i == 4 && r == 0 then 0x2c417ab6853fd0e9
    else if i == 4 && r == 1 then 0xeb2c47d150fa3986
    else if i == 4 && r == 2 then 0x421bad78f9c5630e
    else if i == 4 && r == 3 then 0xb8c71e2d6f09a453
    else if i == 5 && r == 0 then 0xc1af92680d34e75b
    else if i == 5 && r == 1 then 0xaf427c9561de0b38
    else if i == 5 && r == 2 then 0x9ef528c3704a1db6
    else if i == 5 && r == 3 then 0x432c95fabe17608d
    else if i == 6 && r == 0 then 0x4b2ef08d3c975a61
    else if i == 6 && r == 1 then 0xd0b7491ae35c2f86
    else if i == 6 && r == 2 then 0x14bdc37eaf680592
    else if i == 6 && r == 3 then 0x6bd814a7950fe23c
    else if i == 7 && r == 0 then 0xd2846fb1a93e50c7
    else if i == 7 && r == 1 then 0x1fd8a374c56b0e92
    else if i == 7 && r == 2 then 0x7b419ce206adf358
    else 0x21e74a8dfc90356b
  }

  /** The bit that `muggle_des_p` moves to each position. */
  const Places: seq<nat> := [
    15, 6, 19, 20, 28, 11, 27, 16,
    0, 14, 22, 25, 4, 17, 30, 9,
    1, 7, 23, 13, 31, 26, 2, 8,
    18, 12, 29, 5, 21, 10, 3, 24]

  // ------------------------------------------------------------------------- on values

  /** Group `i` takes the four bits of its nibble and one neighbour on either side, around the end. */
  function Expand(x: Half): Groups {
    seq(8, i requires 0 <= i < 8 => seq(6, j requires 0 <= j < 6 => x[(4 * i + j + 31) % 32]))
  }

  function XorGroup(g: Bits, k: Bits): Bits
    requires |g| == |k| == 6
  {
    XorBits(g, k)
  }

  /** The row comes from the last and the first bit of a group. */
  function RowOf(first: bool, last: bool): (r: nat)
    ensures r < 4
  {
    (if last then 2 else 0) + (if first then 1 else 0)
  }

  /** The column comes from the four bits in between, the first of them the least significant. */
  function ColumnOf(b1: bool, b2: bool, b3: bool, b4: bool): (c: bv8)
    ensures c < 16
  {
    (if b4 then 8 else 0) + (if b3 then 4 else 0) + (if b2 then 2 else 0) + (if b1 then 1 else 0)
  }

  /** Digit `c` of a row, the first one the most significant. */
  function Nibble(row: bv64, c: bv8): bv64
    requires c < 16
  {
    (row >> ((15 - c) * 4)) & 0xf
  }

  function LookUp(i: nat, b0: bool, b1: bool, b2: bool, b3: bool, b4: bool, b5: bool): bv64
    requires i < 8
  {
    Nibble(Row(i, RowOf(b0, b5)), ColumnOf(b1, b2, b3, b4))
  }

  function Entry(i: nat, g: Bits): bv64
    requires i < 8 && |g| == 6
  {
    LookUp(i, g[0], g[1], g[2], g[3], g[4], g[5])
  }

  /** Bit `j` of a table entry. */
  predicate EntryBit(v: bv64, j: nat)
    requires j < 4
  {
    if j == 0 then v & 1 != 0 else if j == 1 then v & 2 != 0 else if j == 2 then v & 4 != 0 else v & 8 != 0
  }

  /** The eight table entries side by side. */
  function Substituted(g: Groups): Half {
    seq(32, t requires 0 <= t < 32 => EntryBit(Entry(t / 4, g[t / 4]), t % 4))
  }

  function Placed(y: Half): Half { seq(32, t requires 0 <= t < 32 => y[Places[t]]) }

  function Keyed(g: Groups, k: Groups): Groups {
    seq(8, i requires 0 <= i < 8 => XorGroup(g[i], k[i]))
  }

  /** `muggle_des_f`, on a half of 32 bits. */
  function F(x: Bits, k: Groups): Bits {
    if |x| == 32 then Placed(Substituted(Keyed(Expand(x), k))) else x
  }

  lemma ProperF()
    ensures Proper(F)
  {
    hide Placed, Substituted, Keyed, Expand;
  }
}
