/** The substitution boxes of `muggle/c/crypt/internal/internal_aes.c`, one row of sixteen entries per literal. */
module AesSbox {

  type Byte = bv8

  function SboxRow(hi: bv8): bv128 {
    if hi == 0 then 0x637c777bf26b6fc53001672bfed7ab76
    else if hi == 1 then 0xca82c97dfa5947f0add4a2af9ca472c0
    else if hi == 2 then 0xb7fd9326363ff7cc34a5e5f171d83115
    else if hi == 3 then 0x04c723c31896059a071280e2eb27b275
    else if hi == 4 then 0x09832c1a1b6e5aa0523bd6b329e32f84
    else if hi == 5 then 0x53d100ed20fcb15b6acbbe394a4c58cf
    else if hi == 6 then 0xd0efaafb434d338545f9027f503c9fa8
    else if hi == 7 then 0x51a3408f929d38f5bcb6da2110fff3d2
    else if hi == 8 then 0xcd0c13ec5f974417c4a77e3d645d1973
    else if hi == 9 then 0x60814fdc222a908846eeb814de5e0bdb
    else if hi == 10 then 0xe0323a0a4906245cc2d3ac629195e479
    else if hi == 11 then 0xe7c8376d8dd54ea96c56f4ea657aae08
    else if hi == 12 then 0xba78252e1ca6b4c6e8dd741f4bbd8b8a
    else if hi == 13 then 0x703eb5664803f60e613557b986c11d9e
    else if hi == 14 then 0xe1f8981169d98e949b1e87e9ce5528df
    else 0x8ca1890dbfe6426841992d0fb054bb16
  }

  function InvSboxRow(hi: bv8): bv128 {
    if hi == 0 then 0x52096ad53036a538bf40a39e81f3d7fb
    else if hi == 1 then 0x7ce339829b2fff87348e4344c4dee9cb
    else if hi == 2 then 0x547b9432a6c2233dee4c950b42fac34e
    else if hi == 3 then 0x082ea16628d924b2765ba2496d8bd125
    else if hi == 4 then 0x72f8f66486689816d4a45ccc5d65b692
    else if hi == 5 then 0x6c704850fdedb9da5e154657a78d9d84
    else if hi == 6 then 0x90d8ab008cbcd30af7e45805b8b34506
    else if hi == 7 then 0xd02c1e8fca3f0f02c1afbd0301138a6b
    else if hi == 8 then 0x3a9111414f67dcea97f2cfcef0b4e673
    else if hi == 9 then 0x96ac7422e7ad3585e2f937e81c75df6e
    else if hi == 10 then 0x47f11a711d29c5896fb7620eaa18be1b
    else if hi == 11 then 0xfc563e4bc6d279209adbc0fe78cd5af4
    else if hi == 12 then 0x1fdda8338807c731b11210592780ec5f
    else if hi == 13 then 0x60517fa919b54a0d2de57a9f93c99cef
    else if hi == 14 then 0xa0e03b4dae2af5b0c8ebbb3c83539961
    else 0x172b047eba77d626e169146355210c7d
  }

  function Pick(row: bv128, lo: bv8): Byte
    requires lo < 16
  {
    ((row >> ((15 - lo) * 8)) & 0xff) as bv8
  }

  function Sbox(b: Byte): Byte { Pick(SboxRow(b >> 4), b & 0x0f) }

  function InvSbox(b: Byte): Byte { Pick(InvSboxRow(b >> 4), b & 0x0f) }

  // The two tables are inverse to each other.

  lemma SboxInverse(b: Byte)
    ensures InvSbox(Sbox(b)) == b
  {
    hide Sbox, InvSbox;
    if b < 0x40 {
      SboxInverse0(b);
    } else if b < 0x80 {
      SboxInverse1(b);
    } else if b < 0xc0 {
      SboxInverse2(b);
    } else {
      SboxInverse3(b);
    }
  }

  lemma SboxInverse0(b: Byte)
    requires b < 0x40
    ensures InvSbox(Sbox(b)) == b
  {
  }

  lemma SboxInverse1(b: Byte)
    requires 0x40 <= b < 0x80
    ensures InvSbox(Sbox(b)) == b
  {
  }

  lemma SboxInverse2(b: Byte)
    requires 0x80 <= b < 0xc0
    ensures InvSbox(Sbox(b)) == b
  {
  }

  lemma SboxInverse3(b: Byte)
    requires 0xc0 <= b
    ensures InvSbox(Sbox(b)) == b
  {
  }

  lemma InvSboxInverse(b: Byte)
    ensures Sbox(InvSbox(b)) == b
  {
    hide Sbox, InvSbox;
    if b < 0x40 {
      InvSboxInverse0(b);
    } else if b < 0x80 {
      InvSboxInverse1(b);
    } else if b < 0xc0 {
      InvSboxInverse2(b);
    } else {
      InvSboxInverse3(b);
    }
  }

  lemma InvSboxInverse0(b: Byte)
    requires b < 0x40
    ensures Sbox(InvSbox(b)) == b
  {
  }

  lemma InvSboxInverse1(b: Byte)
    requires 0x40 <= b < 0x80
    ensures Sbox(InvSbox(b)) == b
  {
  }

  lemma InvSboxInverse2(b: Byte)
    requires 0x80 <= b < 0xc0
    ensures Sbox(InvSbox(b)) == b
  {
  }

  lemma InvSboxInverse3(b: Byte)
    requires 0xc0 <= b
    ensures Sbox(InvSbox(b)) == b
  {
  }
}
