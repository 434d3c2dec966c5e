/** DES and TDES on blocks of eight bytes, and the modes of `ChainModes` and `StreamModes` over them. */
module DesBytes {
  import opened GaloisField
  import opened Feistel
  import opened DesRound
  import opened DesWords
  import opened DesKey
  import opened DesKeyWords
  import Des
  import Tdes
  import StreamModes
  import ChainModes

  // ------------------------------------------------------------------------- bytes and bits

  function Valued(bit: bool, v: Byte): Byte { if bit then v else 0 }

  function ByteOf(b0: bool, b1: bool, b2: bool, b3: bool, b4: bool, b5: bool, b6: bool, b7: bool): Byte {
    Valued(b0, 0x01) | Valued(b1, 0x02) | Valued(b2, 0x04) | Valued(b3, 0x08)
    | Valued(b4, 0x10) | Valued(b5, 0x20) | Valued(b6, 0x40) | Valued(b7, 0x80)
  }

  lemma ByteOfBits(b: Byte)
    ensures ByteOf(BitOf(b, 0), BitOf(b, 1), BitOf(b, 2), BitOf(b, 3), BitOf(b, 4), BitOf(b, 5), BitOf(b, 6), BitOf(b, 7)) == b
  {
  }

  lemma BitsOfByte(b0: bool, b1: bool, b2: bool, b3: bool, b4: bool, b5: bool, b6: bool, b7: bool)
    ensures var b := ByteOf(b0, b1, b2, b3, b4, b5, b6, b7);
      && BitOf(b, 0) == b0 && BitOf(b, 1) == b1 && BitOf(b, 2) == b2 && BitOf(b, 3) == b3
      && BitOf(b, 4) == b4 && BitOf(b, 5) == b5 && BitOf(b, 6) == b6 && BitOf(b, 7) == b7
  {
  }

  type Octets = s: seq<Byte> | |s| == 8 witness seq(8, i => 0)

  function Unpack(s: Octets): Des.Block { seq(64, i requires 0 <= i < 64 => BitOf(s[i / 8], i % 8)) }

  function Pack(b: Des.Block): Octets {
    seq(8, i requires 0 <= i < 8 => ByteOf(b[8 * i], b[8 * i + 1], b[8 * i + 2], b[8 * i + 3],
                                           b[8 * i + 4], b[8 * i + 5], b[8 * i + 6], b[8 * i + 7]))
  }

  lemma UnpackAt(s: Octets, i: nat, j: nat)
    requires i < 8 && j < 8
    ensures Unpack(s)[8 * i + j] == BitOf(s[i], j)
  {
    hide BitOf;
    assert (8 * i + j) / 8 == i && (8 * i + j) % 8 == j;
  }

  lemma PackUnpack(s: Octets)
    ensures Pack(Unpack(s)) == s
  {
    hide BitOf, ByteOf, Unpack;
    forall i | 0 <= i < 8 ensures Pack(Unpack(s))[i] == s[i] {
      UnpackAt(s, i, 0);
      UnpackAt(s, i, 1);
      UnpackAt(s, i, 2);
      UnpackAt(s, i, 3);
      UnpackAt(s, i, 4);
      UnpackAt(s, i, 5);
      UnpackAt(s, i, 6);
      UnpackAt(s, i, 7);
      ByteOfBits(s[i]);
    }
  }

  lemma PackBits(b: Des.Block, i: nat)
    requires i < 8
    ensures var p := Pack(b)[i];
      && BitOf(p, 0) == b[8 * i] && BitOf(p, 1) == b[8 * i + 1] && BitOf(p, 2) == b[8 * i + 2]
      && BitOf(p, 3) == b[8 * i + 3] && BitOf(p, 4) == b[8 * i + 4] && BitOf(p, 5) == b[8 * i + 5]
      && BitOf(p, 6) == b[8 * i + 6] && BitOf(p, 7) == b[8 * i + 7]
  {
    hide BitOf, ByteOf;
    BitsOfByte(b[8 * i], b[8 * i + 1], b[8 * i + 2], b[8 * i + 3],
               b[8 * i + 4], b[8 * i + 5], b[8 * i + 6], b[8 * i + 7]);
  }

  lemma PackAt(b: Des.Block, i: nat, j: nat)
    requires i < 8 && j < 8
    ensures BitOf(Pack(b)[i], j) == b[8 * i + j]
  {
    hide BitOf, Pack;
    PackBits(b, i);
    assert j == 0 || j == 1 || j == 2 || j == 3 || j == 4 || j == 5 || j == 6 || j == 7;
  }

  lemma UnpackPack(b: Des.Block)
    ensures Unpack(Pack(b)) == b
  {
    hide BitOf, ByteOf, Unpack, Pack;
    forall k | 0 <= k < 64 ensures Unpack(Pack(b))[k] == b[k] {
      PackAt(b, k / 8, k % 8);
      UnpackAt(Pack(b), k / 8, k % 8);
    }
  }

  /** The bytes of two words in memory. */
  function BytesOf(lo: bv32, hi: bv32): Octets {
    [ByteAt(lo, 0), ByteAt(lo, 1), ByteAt(lo, 2), ByteAt(lo, 3), ByteAt(hi, 0), ByteAt(hi, 1), ByteAt(hi, 2), ByteAt(hi, 3)]
  }

  lemma UnpackWords(lo: bv32, hi: bv32)
    ensures Bits64(lo, hi) == Unpack(BytesOf(lo, hi))
  {
    hide BitOf, ByteAt;
    forall k | 0 <= k < 64 ensures Bits64(lo, hi)[k] == Unpack(BytesOf(lo, hi))[k] {
      Bits64At(lo, hi, k);
    }
  }

  // ------------------------------------------------------------------------- the block functions

  /** A run of subkeys as a block function on bytes. */
  function OnBlocks(ks: seq<Groups>): StreamModes.Cipher {
    ProperF();
    s => if |s| == 8 then Pack(Des.Crypt(F, ks, Unpack(s))) else s
  }

  lemma OnBlocksUndone(ks: seq<Groups>)
    ensures StreamModes.Sized(OnBlocks(ks), 8)
    ensures StreamModes.Undoes(OnBlocks(Reverse(ks)), OnBlocks(ks), 8)
  {
    hide Pack, Unpack, F, Des.Crypt, Reverse;
    ProperF();
    forall s: seq<Byte> | |s| == 8 ensures OnBlocks(Reverse(ks))(OnBlocks(ks)(s)) == s {
      var c := Des.Crypt(F, ks, Unpack(s));
      UnpackPack(c);
      Des.CryptInverse(F, ks, Unpack(s));
      PackUnpack(s);
    }
  }

  /** `muggle_des_crypt` for a key and an operation. */
  function Single(op: int, key: Des.Block): StreamModes.Cipher { OnBlocks(Des.Ordered(op, Subkeys(key))) }

  /** `muggle_tdes_crypt` for three keys and an operation. */
  function Triple(op: int, k1: Des.Block, k2: Des.Block, k3: Des.Block): StreamModes.Cipher {
    var c := Tdes.Contexts(op, Subkeys(k1), Subkeys(k2), Subkeys(k3));
    OnBlocks(c.0 + c.1 + c.2)
  }

  lemma TripleIsCrypt3(op: int, k1: Des.Block, k2: Des.Block, k3: Des.Block, s: Octets)
    ensures Proper(F)
    ensures var c := Tdes.Contexts(op, Subkeys(k1), Subkeys(k2), Subkeys(k3));
      Triple(op, k1, k2, k3)(s) == Pack(Tdes.Crypt3(F, c.0, c.1, c.2, Unpack(s)))
  {
    hide Pack, Unpack, F, Des.Crypt, Tdes.Crypt3, Subkeys, Reverse;
    ProperF();
    var c := Tdes.Contexts(op, Subkeys(k1), Subkeys(k2), Subkeys(k3));
    Tdes.Crypt3IsCrypt(F, c.0, c.1, c.2, Unpack(s));
  }

  // ------------------------------------------------------------------------- the modes

  /** ECB and CBC return every message of whole blocks, for a block function and its inverse. */
  lemma ChainedReturn(e: StreamModes.Cipher, d: StreamModes.Cipher, k: ChainModes.Kind, iv: seq<Byte>, p: seq<Byte>)
    requires StreamModes.Sized(e, 8) && StreamModes.Sized(d, 8) && StreamModes.Undoes(d, e, 8)
    requires (k == ChainModes.Ecb || k == ChainModes.CbcEncrypt) && |iv| == 8 && |p| % 8 == 0
    ensures var c := ChainModes.Blocks(k, 8, e, iv, p);
      |c| == |p| && ChainModes.Blocks(ChainModes.Inverse(k), 8, d, iv, c) == p
  {
    hide ChainModes.Blocks, StreamModes.Undoes;
    ChainModes.BlocksLength(k, 8, e, iv, p, |p| / 8);
    ChainModes.BlocksInverse(k, 8, e, d, iv, p, |p| / 8);
  }

  /** DES in ECB and CBC returns every message, for every key. */
  lemma DesReturns(key: Des.Block, k: ChainModes.Kind, iv: seq<Byte>, p: seq<Byte>)
    requires (k == ChainModes.Ecb || k == ChainModes.CbcEncrypt) && |iv| == 8 && |p| % 8 == 0
    ensures var e, d := Single(Des.ENCRYPT, key), Single(Des.DECRYPT, key);
      && ChainModes.Ready(8, e, iv) && ChainModes.Ready(8, d, iv)
      && var c := ChainModes.Blocks(k, 8, e, iv, p);
        |c| == |p| && ChainModes.Blocks(ChainModes.Inverse(k), 8, d, iv, c) == p
  {
    hide OnBlocks, Subkeys, Reverse, ChainModes.Blocks, StreamModes.Undoes;
    OnBlocksUndone(Subkeys(key));
    OnBlocksUndone(Reverse(Subkeys(key)));
    ChainedReturn(Single(Des.ENCRYPT, key), Single(Des.DECRYPT, key), k, iv, p);
  }

  lemma ContextsReversed(s1: seq<Groups>, s2: seq<Groups>, s3: seq<Groups>)
    ensures var e, d := Tdes.Contexts(Des.ENCRYPT, s1, s2, s3), Tdes.Contexts(Des.DECRYPT, s1, s2, s3);
      d.0 + d.1 + d.2 == Reverse(e.0 + e.1 + e.2)
  {
    hide Reverse;
    ReverseJoin(s1 + Reverse(s2), s3);
    ReverseJoin(s1, Reverse(s2));
    ReverseTwice(s2);
  }

  /** TDES in ECB and CBC returns every message, for every three keys. */
  lemma TdesReturns(k1: Des.Block, k2: Des.Block, k3: Des.Block, k: ChainModes.Kind, iv: seq<Byte>, p: seq<Byte>)
    requires (k == ChainModes.Ecb || k == ChainModes.CbcEncrypt) && |iv| == 8 && |p| % 8 == 0
    ensures var e, d := Triple(Des.ENCRYPT, k1, k2, k3), Triple(Des.DECRYPT, k1, k2, k3);
      && ChainModes.Ready(8, e, iv) && ChainModes.Ready(8, d, iv)
      && var c := ChainModes.Blocks(k, 8, e, iv, p);
        |c| == |p| && ChainModes.Blocks(ChainModes.Inverse(k), 8, d, iv, c) == p
  {
    hide OnBlocks, Subkeys, Reverse, Tdes.Contexts, ChainModes.Blocks, StreamModes.Undoes;
    ContextsReversed(Subkeys(k1), Subkeys(k2), Subkeys(k3));
    var c := Tdes.Contexts(Des.ENCRYPT, Subkeys(k1), Subkeys(k2), Subkeys(k3));
    OnBlocksUndone(c.0 + c.1 + c.2);
    OnBlocksUndone(Reverse(c.0 + c.1 + c.2));
    ChainedReturn(Triple(Des.ENCRYPT, k1, k2, k3), Triple(Des.DECRYPT, k1, k2, k3), k, iv, p);
  }
}
