/** The modes of `ChainModes` and `StreamModes` over the AES block of `Aes`. */
module AesModes {
  import Aes
  import opened GaloisField
  import opened StreamModes
  import ChainModes
  import InPlaceCbc
  import InPlaceCfb

  /** `muggle_aes_crypt` with one operation and one key schedule, as a block function. */
  function OnBlocks(op: int, keys: seq<Aes.Word>, rounds: int): Cipher
    requires |keys| == 60
  {
    b => if |b| == 16 then Aes.Block(op, b, keys, rounds) else b
  }

  lemma OnBlocksUndone(keys: seq<Aes.Word>, rounds: int)
    requires |keys| == 60
    ensures forall op {:trigger OnBlocks(op, keys, rounds)} :: Sized(OnBlocks(op, keys, rounds), 16)
    ensures Undoes(OnBlocks(Aes.DECRYPT, keys, rounds), OnBlocks(Aes.ENCRYPT, keys, rounds), 16)
    ensures Undoes(OnBlocks(Aes.ENCRYPT, keys, rounds), OnBlocks(Aes.DECRYPT, keys, rounds), 16)
  {
    hide Aes.Block;
    var e, d := OnBlocks(Aes.ENCRYPT, keys, rounds), OnBlocks(Aes.DECRYPT, keys, rounds);
    forall b: seq<Byte> | |b| == 16 ensures d(e(b)) == b && e(d(b)) == b {
      Aes.BlockInverse(b, keys, rounds);
    }
  }

  /** ECB and CBC decryption return every message of whole blocks, and the chaining value. */
  lemma ChainedReturn(keys: seq<Aes.Word>, rounds: int, k: ChainModes.Kind, iv: seq<Byte>, p: seq<Byte>)
    requires |keys| == 60 && (k == ChainModes.Ecb || k == ChainModes.CbcEncrypt)
    requires |iv| == 16 && |p| % 16 == 0
    ensures var e, d := OnBlocks(Aes.ENCRYPT, keys, rounds), OnBlocks(Aes.DECRYPT, keys, rounds);
      && ChainModes.Ready(16, e, iv) && ChainModes.Ready(16, d, iv)
      && var c := ChainModes.Blocks(k, 16, e, iv, p);
        && |c| == |p|
        && ChainModes.Blocks(ChainModes.Inverse(k), 16, d, iv, c) == p
        && ChainModes.Chain(ChainModes.Inverse(k), 16, d, iv, c) == ChainModes.Chain(k, 16, e, iv, p)
  {
    hide OnBlocks, ChainModes.Blocks, ChainModes.Chain, Undoes;
    OnBlocksUndone(keys, rounds);
    var e, d := OnBlocks(Aes.ENCRYPT, keys, rounds), OnBlocks(Aes.DECRYPT, keys, rounds);
    ChainModes.BlocksLength(k, 16, e, iv, p, |p| / 16);
    ChainModes.BlocksInverse(k, 16, e, d, iv, p, |p| / 16);
  }

  /** CFB, OFB and CTR decryption, all with the encrypting block function, return every message. */
  lemma StreamedReturn(keys: seq<Aes.Word>, rounds: int, m: Mode, r: Register, p: seq<Byte>)
    requires |keys| == 60 && Valid(m, 16, r)
    ensures var e := OnBlocks(Aes.ENCRYPT, keys, rounds);
      Sized(e, 16) && Valid(Inverse(m), 16, r) && Run(Inverse(m), 16, e, r, Run(m, 16, e, r, p)) == p
  {
    hide OnBlocks, Run;
    OnBlocksUndone(keys, rounds);
    RunInverse(m, 16, OnBlocks(Aes.ENCRYPT, keys, rounds), r, p);
  }

  // ------------------------------------------------------------------------- in place

  /** One message under AES-CBC comes back in place exactly when encryption moved none of its blocks but the last. */
  lemma CbcInPlaceExactly(keys: seq<Aes.Word>, rounds: int, iv: seq<Byte>, p: seq<Byte>)
    requires |keys| == 60 && |iv| == 16 && |p| % 16 == 0
    ensures var e, d := OnBlocks(Aes.ENCRYPT, keys, rounds), OnBlocks(Aes.DECRYPT, keys, rounds);
      && ChainModes.Ready(16, e, iv) && ChainModes.Ready(16, d, iv)
      && |ChainModes.Blocks(ChainModes.CbcEncrypt, 16, e, iv, p)| == |p|
      && (ChainModes.Blocks(ChainModes.CbcDecryptInPlace, 16, d, iv, ChainModes.Blocks(ChainModes.CbcEncrypt, 16, e, iv, p)) == p
          <==> InPlaceCbc.Unmoved(16, e, iv, p))
  {
    hide OnBlocks, ChainModes.Blocks, Undoes, InPlaceCbc.Unmoved;
    OnBlocksUndone(keys, rounds);
    var e, d := OnBlocks(Aes.ENCRYPT, keys, rounds), OnBlocks(Aes.DECRYPT, keys, rounds);
    ChainModes.BlocksLength(ChainModes.CbcEncrypt, 16, e, iv, p, |p| / 16);
    InPlaceCbc.InPlaceExactly(16, e, d, iv, p, |p| / 16);
  }

  /** Under one AES key, decrypting in place is right for every message of a length exactly up to one block: in CBC from
      any chaining value, in CFB from the start of a block. */
  lemma InPlaceSafeExactly(keys: seq<Aes.Word>, rounds: int, count: nat, offset: nat, len: nat)
    requires |keys| == 60 && offset < 16
    ensures var e, d := OnBlocks(Aes.ENCRYPT, keys, rounds), OnBlocks(Aes.DECRYPT, keys, rounds);
      && Sized(e, 16) && Sized(d, 16)
      && (InPlaceCbc.InPlaceSafe(16, e, d, count) <==> count <= 1)
      && (InPlaceCfb.InPlaceSafe(16, e, 0, len) <==> len <= 16)
      && (offset > 0 ==>
          (InPlaceCfb.InPlaceSafe(16, e, offset, len) <==>
           len <= 16 - offset || (len < 32 - offset && InPlaceCfb.Settled(16, e, offset, len - (16 - offset)))))
  {
    hide OnBlocks, Undoes, InPlaceCbc.InPlaceSafe, InPlaceCfb.InPlaceSafe, InPlaceCfb.Settled;
    OnBlocksUndone(keys, rounds);
    var e, d := OnBlocks(Aes.ENCRYPT, keys, rounds), OnBlocks(Aes.DECRYPT, keys, rounds);
    InPlaceCbc.InPlaceSafeExactly(16, e, d, count);
    InPlaceCfb.InPlaceSafeExactly(16, e, d, 0, len);
    InPlaceCfb.InPlaceSafeExactly(16, e, d, offset, len);
  }
}
