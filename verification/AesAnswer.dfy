/** The example of appendix C.1 of FIPS 197 through the key expansion and all ten rounds. */
module AesAnswer {
  import opened GaloisField
  import opened AesSbox
  import opened Aes
  import opened AesKey
  import opened AesWords

  const KEY: seq<Byte> := [0x00, 0x01, 0x02, 0x03, 0x04, 0x05, 0x06, 0x07, 0x08, 0x09, 0x0a, 0x0b, 0x0c, 0x0d, 0x0e, 0x0f]
  const PLAIN: State := [0x00, 0x11, 0x22, 0x33, 0x44, 0x55, 0x66, 0x77, 0x88, 0x99, 0xaa, 0xbb, 0xcc, 0xdd, 0xee, 0xff]
  const CIPHER: State := [0x69, 0xc4, 0xe0, 0xd8, 0x6a, 0x7b, 0x04, 0x30, 0xd8, 0xcd, 0xb7, 0x80, 0x70, 0xb4, 0xc5, 0x5a]

  function RoundKey(n: nat): Four {
    if n == 0 then Four(0x00010203, 0x04050607, 0x08090a0b, 0x0c0d0e0f) else
    if n == 1 then Four(0xd6aa74fd, 0xd2af72fa, 0xdaa678f1, 0xd6ab76fe) else
    if n == 2 then Four(0xb692cf0b, 0x643dbdf1, 0xbe9bc500, 0x6830b3fe) else
    if n == 3 then Four(0xb6ff744e, 0xd2c2c9bf, 0x6c590cbf, 0x0469bf41) else
    if n == 4 then Four(0x47f7f7bc, 0x95353e03, 0xf96c32bc, 0xfd058dfd) else
    if n == 5 then Four(0x3caaa3e8, 0xa99f9deb, 0x50f3af57, 0xadf622aa) else
    if n == 6 then Four(0x5e390f7d, 0xf7a69296, 0xa7553dc1, 0x0aa31f6b) else
    if n == 7 then Four(0x14f9701a, 0xe35fe28c, 0x440adf4d, 0x4ea9c026) else
    if n == 8 then Four(0x47438735, 0xa41c65b9, 0xe016baf4, 0xaebf7ad2) else
    if n == 9 then Four(0x549932d1, 0xf0855768, 0x1093ed9c, 0xbe2c974e) else
    Four(0x13111d7f, 0xe3944a17, 0xf307a78b, 0x4d2b30c5)
  }

  /** The state after round `n`. */
  function After(n: nat): Four {
    if n == 0 then Four(0x00102030, 0x40506070, 0x8090a0b0, 0xc0d0e0f0) else
    if n == 1 then Four(0x89d810e8, 0x855ace68, 0x2d1843d8, 0xcb128fe4) else
    if n == 2 then Four(0x4915598f, 0x55e5d7a0, 0xdaca94fa, 0x1f0a63f7) else
    if n == 3 then Four(0xfa636a28, 0x25b339c9, 0x40668a31, 0x57244d17) else
    if n == 4 then Four(0x24724023, 0x6966b3fa, 0x6ed27532, 0x88425b6c) else
    if n == 5 then Four(0xc81677bc, 0x9b7ac93b, 0x25027992, 0xb0261996) else
    if n == 6 then Four(0xc62fe109, 0xf75eedc3, 0xcc79395d, 0x84f9cf5d) else
    if n == 7 then Four(0xd1876c0f, 0x79c4300a, 0xb45594ad, 0xd66ff41f) else
    if n == 8 then Four(0xfde3bad2, 0x05e5d0d7, 0x3547964e, 0xf1fe37f1) else
    if n == 9 then Four(0xbd6e7c3d, 0xf2b5779e, 0x0b61216e, 0x8b10b689) else
    Four(0x69c4e0d8, 0x6a7b0430, 0xd8cdb780, 0x70b4c55a)
  }

  lemma Sub1a()
    ensures Sbox(0x00) == 0x63 && Sbox(0x10) == 0xca && Sbox(0x20) == 0xb7 && Sbox(0x30) == 0x04
    ensures Sbox(0x40) == 0x09 && Sbox(0x50) == 0x53 && Sbox(0x60) == 0xd0 && Sbox(0x70) == 0x51
  {
  }

  lemma Sub1b()
    ensures Sbox(0x80) == 0xcd && Sbox(0x90) == 0x60 && Sbox(0xa0) == 0xe0 && Sbox(0xb0) == 0xe7
    ensures Sbox(0xc0) == 0xba && Sbox(0xd0) == 0x70 && Sbox(0xe0) == 0xe1 && Sbox(0xf0) == 0x8c
  {
  }

  lemma Shift1()
    ensures Shifted32(Four(0x00102030, 0x40506070, 0x8090a0b0, 0xc0d0e0f0))
         == Four(0x6353e08c, 0x0960e104, 0xcd70b751, 0xbacad0e7)
  {
    hide Sbox;
    Sub1a();
    Sub1b();
  }

  lemma Step1()
    ensures Round32(Four(0x00102030, 0x40506070, 0x8090a0b0, 0xc0d0e0f0),
                    Four(0xd6aa74fd, 0xd2af72fa, 0xdaa678f1, 0xd6ab76fe))
         == Four(0x89d810e8, 0x855ace68, 0x2d1843d8, 0xcb128fe4)
  {
    hide Shifted32;
    Shift1();
  }

  lemma Key1()
    ensures NextKey(Four(0x00010203, 0x04050607, 0x08090a0b, 0x0c0d0e0f), 0x01000000)
         == Four(0xd6aa74fd, 0xd2af72fa, 0xdaa678f1, 0xd6ab76fe)
  {
  }

  lemma Sub2a()
    ensures Sbox(0x89) == 0xa7 && Sbox(0xd8) == 0x61 && Sbox(0x10) == 0xca && Sbox(0xe8) == 0x9b
    ensures Sbox(0x85) == 0x97 && Sbox(0x5a) == 0xbe && Sbox(0xce) == 0x8b && Sbox(0x68) == 0x45
  {
  }

  lemma Sub2b()
    ensures Sbox(0x2d) == 0xd8 && Sbox(0x18) == 0xad && Sbox(0x43) == 0x1a && Sbox(0xd8) == 0x61
    ensures Sbox(0xcb) == 0x1f && Sbox(0x12) == 0xc9 && Sbox(0x8f) == 0x73 && Sbox(0xe4) == 0x69
  {
  }

  lemma Shift2()
    ensures Shifted32(Four(0x89d810e8, 0x855ace68, 0x2d1843d8, 0xcb128fe4))
         == Four(0xa7be1a69, 0x97ad739b, 0xd8c9ca45, 0x1f618b61)
  {
    hide Sbox;
    Sub2a();
    Sub2b();
  }

  lemma Step2()
    ensures Round32(Four(0x89d810e8, 0x855ace68, 0x2d1843d8, 0xcb128fe4),
                    Four(0xb692cf0b, 0x643dbdf1, 0xbe9bc500, 0x6830b3fe))
         == Four(0x4915598f, 0x55e5d7a0, 0xdaca94fa, 0x1f0a63f7)
  {
    hide Shifted32;
    Shift2();
  }

  lemma Key2()
    ensures NextKey(Four(0xd6aa74fd, 0xd2af72fa, 0xdaa678f1, 0xd6ab76fe), 0x02000000)
         == Four(0xb692cf0b, 0x643dbdf1, 0xbe9bc500, 0x6830b3fe)
  {
  }

  lemma Sub3a()
    ensures Sbox(0x49) == 0x3b && Sbox(0x15) == 0x59 && Sbox(0x59) == 0xcb && Sbox(0x8f) == 0x73
    ensures Sbox(0x55) == 0xfc && Sbox(0xe5) == 0xd9 && Sbox(0xd7) == 0x0e && Sbox(0xa0) == 0xe0
  {
  }

  lemma Sub3b()
    ensures Sbox(0xda) == 0x57 && Sbox(0xca) == 0x74 && Sbox(0x94) == 0x22 && Sbox(0xfa) == 0x2d
    ensures Sbox(0x1f) == 0xc0 && Sbox(0x0a) == 0x67 && Sbox(0x63) == 0xfb && Sbox(0xf7) == 0x68
  {
  }

  lemma Shift3()
    ensures Shifted32(Four(0x4915598f, 0x55e5d7a0, 0xdaca94fa, 0x1f0a63f7))
         == Four(0x3bd92268, 0xfc74fb73, 0x5767cbe0, 0xc0590e2d)
  {
    hide Sbox;
    Sub3a();
    Sub3b();
  }

  lemma Step3()
    ensures Round32(Four(0x4915598f, 0x55e5d7a0, 0xdaca94fa, 0x1f0a63f7),
                    Four(0xb6ff744e, 0xd2c2c9bf, 0x6c590cbf, 0x0469bf41))
         == Four(0xfa636a28, 0x25b339c9, 0x40668a31, 0x57244d17)
  {
    hide Shifted32;
    Shift3();
  }

  lemma Key3()
    ensures NextKey(Four(0xb692cf0b, 0x643dbdf1, 0xbe9bc500, 0x6830b3fe), 0x04000000)
         == Four(0xb6ff744e, 0xd2c2c9bf, 0x6c590cbf, 0x0469bf41)
  {
  }

  lemma Sub4a()
    ensures Sbox(0xfa) == 0x2d && Sbox(0x63) == 0xfb && Sbox(0x6a) == 0x02 && Sbox(0x28) == 0x34
    ensures Sbox(0x25) == 0x3f && Sbox(0xb3) == 0x6d && Sbox(0x39) == 0x12 && Sbox(0xc9) == 0xdd
  {
  }

  lemma Sub4b()
    ensures Sbox(0x40) == 0x09 && Sbox(0x66) == 0x33 && Sbox(0x8a) == 0x7e && Sbox(0x31) == 0xc7
    ensures Sbox(0x57) == 0x5b && Sbox(0x24) == 0x36 && Sbox(0x4d) == 0xe3 && Sbox(0x17) == 0xf0
  {
  }

  lemma Shift4()
    ensures Shifted32(Four(0xfa636a28, 0x25b339c9, 0x40668a31, 0x57244d17))
         == Four(0x2d6d7ef0, 0x3f33e334, 0x093602dd, 0x5bfb12c7)
  {
    hide Sbox;
    Sub4a();
    Sub4b();
  }

  lemma Step4()
    ensures Round32(Four(0xfa636a28, 0x25b339c9, 0x40668a31, 0x57244d17),
                    Four(0x47f7f7bc, 0x95353e03, 0xf96c32bc, 0xfd058dfd))
         == Four(0x24724023, 0x6966b3fa, 0x6ed27532, 0x88425b6c)
  {
    hide Shifted32;
    Shift4();
  }

  lemma Key4()
    ensures NextKey(Four(0xb6ff744e, 0xd2c2c9bf, 0x6c590cbf, 0x0469bf41), 0x08000000)
         == Four(0x47f7f7bc, 0x95353e03, 0xf96c32bc, 0xfd058dfd)
  {
  }

  lemma Sub5a()
    ensures Sbox(0x24) == 0x36 && Sbox(0x72) == 0x40 && Sbox(0x40) == 0x09 && Sbox(0x23) == 0x26
    ensures Sbox(0x69) == 0xf9 && Sbox(0x66) == 0x33 && Sbox(0xb3) == 0x6d && Sbox(0xfa) == 0x2d
  {
  }

  lemma Sub5b()
    ensures Sbox(0x6e) == 0x9f && Sbox(0xd2) == 0xb5 && Sbox(0x75) == 0x9d && Sbox(0x32) == 0x23
    ensures Sbox(0x88) == 0xc4 && Sbox(0x42) == 0x2c && Sbox(0x5b) == 0x39 && Sbox(0x6c) == 0x50
  {
  }

  lemma Shift5()
    ensures Shifted32(Four(0x24724023, 0x6966b3fa, 0x6ed27532, 0x88425b6c))
         == Four(0x36339d50, 0xf9b53926, 0x9f2c092d, 0xc4406d23)
  {
    hide Sbox;
    Sub5a();
    Sub5b();
  }

  lemma Step5()
    ensures Round32(Four(0x24724023, 0x6966b3fa, 0x6ed27532, 0x88425b6c),
                    Four(0x3caaa3e8, 0xa99f9deb, 0x50f3af57, 0xadf622aa))
         == Four(0xc81677bc, 0x9b7ac93b, 0x25027992, 0xb0261996)
  {
    hide Shifted32;
    Shift5();
  }

  lemma Key5()
    ensures NextKey(Four(0x47f7f7bc, 0x95353e03, 0xf96c32bc, 0xfd058dfd), 0x10000000)
         == Four(0x3caaa3e8, 0xa99f9deb, 0x50f3af57, 0xadf622aa)
  {
  }

  lemma Sub6a()
    ensures Sbox(0xc8) == 0xe8 && Sbox(0x16) == 0x47 && Sbox(0x77) == 0xf5 && Sbox(0xbc) == 0x65
    ensures Sbox(0x9b) == 0x14 && Sbox(0x7a) == 0xda && Sbox(0xc9) == 0xdd && Sbox(0x3b) == 0xe2
  {
  }

  lemma Sub6b()
    ensures Sbox(0x25) == 0x3f && Sbox(0x02) == 0x77 && Sbox(0x79) == 0xb6 && Sbox(0x92) == 0x4f
    ensures Sbox(0xb0) == 0xe7 && Sbox(0x26) == 0xf7 && Sbox(0x19) == 0xd4 && Sbox(0x96) == 0x90
  {
  }

  lemma Shift6()
    ensures Shifted32(Four(0xc81677bc, 0x9b7ac93b, 0x25027992, 0xb0261996))
         == Four(0xe8dab690, 0x1477d465, 0x3ff7f5e2, 0xe747dd4f)
  {
    hide Sbox;
    Sub6a();
    Sub6b();
  }

  lemma Step6()
    ensures Round32(Four(0xc81677bc, 0x9b7ac93b, 0x25027992, 0xb0261996),
                    Four(0x5e390f7d, 0xf7a69296, 0xa7553dc1, 0x0aa31f6b))
         == Four(0xc62fe109, 0xf75eedc3, 0xcc79395d, 0x84f9cf5d)
  {
    hide Shifted32;
    Shift6();
  }

  lemma Key6()
    ensures NextKey(Four(0x3caaa3e8, 0xa99f9deb, 0x50f3af57, 0xadf622aa), 0x20000000)
         == Four(0x5e390f7d, 0xf7a69296, 0xa7553dc1, 0x0aa31f6b)
  {
  }

  lemma Sub7a()
    ensures Sbox(0xc6) == 0xb4 && Sbox(0x2f) == 0x15 && Sbox(0xe1) == 0xf8 && Sbox(0x09) == 0x01
    ensures Sbox(0xf7) == 0x68 && Sbox(0x5e) == 0x58 && Sbox(0xed) == 0x55 && Sbox(0xc3) == 0x2e
  {
  }

  lemma Sub7b()
    ensures Sbox(0xcc) == 0x4b && Sbox(0x79) == 0xb6 && Sbox(0x39) == 0x12 && Sbox(0x5d) == 0x4c
    ensures Sbox(0x84) == 0x5f && Sbox(0xf9) == 0x99 && Sbox(0xcf) == 0x8a && Sbox(0x5d) == 0x4c
  {
  }

  lemma Shift7()
    ensures Shifted32(Four(0xc62fe109, 0xf75eedc3, 0xcc79395d, 0x84f9cf5d))
         == Four(0xb458124c, 0x68b68a01, 0x4b99f82e, 0x5f15554c)
  {
    hide Sbox;
    Sub7a();
    Sub7b();
  }

  lemma Step7()
    ensures Round32(Four(0xc62fe109, 0xf75eedc3, 0xcc79395d, 0x84f9cf5d),
                    Four(0x14f9701a, 0xe35fe28c, 0x440adf4d, 0x4ea9c026))
         == Four(0xd1876c0f, 0x79c4300a, 0xb45594ad, 0xd66ff41f)
  {
    hide Shifted32;
    Shift7();
  }

  lemma Key7()
    ensures NextKey(Four(0x5e390f7d, 0xf7a69296, 0xa7553dc1, 0x0aa31f6b), 0x40000000)
         == Four(0x14f9701a, 0xe35fe28c, 0x440adf4d, 0x4ea9c026)
  {
  }

  lemma Sub8a()
    ensures Sbox(0xd1) == 0x3e && Sbox(0x87) == 0x17 && Sbox(0x6c) == 0x50 && Sbox(0x0f) == 0x76
    ensures Sbox(0x79) == 0xb6 && Sbox(0xc4) == 0x1c && Sbox(0x30) == 0x04 && Sbox(0x0a) == 0x67
  {
  }

  lemma Sub8b()
    ensures Sbox(0xb4) == 0x8d && Sbox(0x55) == 0xfc && Sbox(0x94) == 0x22 && Sbox(0xad) == 0x95
    ensures Sbox(0xd6) == 0xf6 && Sbox(0x6f) == 0xa8 && Sbox(0xf4) == 0xbf && Sbox(0x1f) == 0xc0
  {
  }

  lemma Shift8()
    ensures Shifted32(Four(0xd1876c0f, 0x79c4300a, 0xb45594ad, 0xd66ff41f))
         == Four(0x3e1c22c0, 0xb6fcbf76, 0x8da85067, 0xf6170495)
  {
    hide Sbox;
    Sub8a();
    Sub8b();
  }

  lemma Step8()
    ensures Round32(Four(0xd1876c0f, 0x79c4300a, 0xb45594ad, 0xd66ff41f),
                    Four(0x47438735, 0xa41c65b9, 0xe016baf4, 0xaebf7ad2))
         == Four(0xfde3bad2, 0x05e5d0d7, 0x3547964e, 0xf1fe37f1)
  {
    hide Shifted32;
    Shift8();
  }

  lemma Key8()
    ensures NextKey(Four(0x14f9701a, 0xe35fe28c, 0x440adf4d, 0x4ea9c026), 0x80000000)
         == Four(0x47438735, 0xa41c65b9, 0xe016baf4, 0xaebf7ad2)
  {
  }

  lemma Sub9a()
    ensures Sbox(0xfd) == 0x54 && Sbox(0xe3) == 0x11 && Sbox(0xba) == 0xf4 && Sbox(0xd2) == 0xb5
    ensures Sbox(0x05) == 0x6b && Sbox(0xe5) == 0xd9 && Sbox(0xd0) == 0x70 && Sbox(0xd7) == 0x0e
  {
  }

  lemma Sub9b()
    ensures Sbox(0x35) == 0x96 && Sbox(0x47) == 0xa0 && Sbox(0x96) == 0x90 && Sbox(0x4e) == 0x2f
    ensures Sbox(0xf1) == 0xa1 && Sbox(0xfe) == 0xbb && Sbox(0x37) == 0x9a && Sbox(0xf1) == 0xa1
  {
  }

  lemma Shift9()
    ensures Shifted32(Four(0xfde3bad2, 0x05e5d0d7, 0x3547964e, 0xf1fe37f1))
         == Four(0x54d990a1, 0x6ba09ab5, 0x96bbf40e, 0xa111702f)
  {
    hide Sbox;
    Sub9a();
    Sub9b();
  }

  lemma Step9()
    ensures Round32(Four(0xfde3bad2, 0x05e5d0d7, 0x3547964e, 0xf1fe37f1),
                    Four(0x549932d1, 0xf0855768, 0x1093ed9c, 0xbe2c974e))
         == Four(0xbd6e7c3d, 0xf2b5779e, 0x0b61216e, 0x8b10b689)
  {
    hide Shifted32;
    Shift9();
  }

  lemma Key9()
    ensures NextKey(Four(0x47438735, 0xa41c65b9, 0xe016baf4, 0xaebf7ad2), 0x1b000000)
         == Four(0x549932d1, 0xf0855768, 0x1093ed9c, 0xbe2c974e)
  {
  }

  lemma Sub10a()
    ensures Sbox(0xbd) == 0x7a && Sbox(0x6e) == 0x9f && Sbox(0x7c) == 0x10 && Sbox(0x3d) == 0x27
    ensures Sbox(0xf2) == 0x89 && Sbox(0xb5) == 0xd5 && Sbox(0x77) == 0xf5 && Sbox(0x9e) == 0x0b
  {
  }

  lemma Sub10b()
    ensures Sbox(0x0b) == 0x2b && Sbox(0x61) == 0xef && Sbox(0x21) == 0xfd && Sbox(0x6e) == 0x9f
    ensures Sbox(0x8b) == 0x3d && Sbox(0x10) == 0xca && Sbox(0xb6) == 0x4e && Sbox(0x89) == 0xa7
  {
  }

  lemma Shift10()
    ensures Shifted32(Four(0xbd6e7c3d, 0xf2b5779e, 0x0b61216e, 0x8b10b689))
         == Four(0x7ad5fda7, 0x89ef4e27, 0x2bca100b, 0x3d9ff59f)
  {
    hide Sbox;
    Sub10a();
    Sub10b();
  }

  lemma Step10()
    ensures Last32(Four(0xbd6e7c3d, 0xf2b5779e, 0x0b61216e, 0x8b10b689),
                    Four(0x13111d7f, 0xe3944a17, 0xf307a78b, 0x4d2b30c5))
         == Four(0x69c4e0d8, 0x6a7b0430, 0xd8cdb780, 0x70b4c55a)
  {
    hide Shifted32;
    Shift10();
  }

  lemma Key10()
    ensures NextKey(Four(0x549932d1, 0xf0855768, 0x1093ed9c, 0xbe2c974e), 0x36000000)
         == Four(0x13111d7f, 0xe3944a17, 0xf307a78b, 0x4d2b30c5)
  {
  }

  lemma KeyNext(n: nat)
    requires n < 10
    ensures NextKey(RoundKey(n), Rcon[n]) == RoundKey(n + 1)
  {
    hide NextKey;
    if n == 0 {
      Key1();
    } else if n == 1 {
      Key2();
    } else if n == 2 {
      Key3();
    } else if n == 3 {
      Key4();
    } else if n == 4 {
      Key5();
    } else if n == 5 {
      Key6();
    } else if n == 6 {
      Key7();
    } else if n == 7 {
      Key8();
    } else if n == 8 {
      Key9();
    } else {
      Key10();
    }
  }

  lemma StepNext(n: nat)
    requires n < 10
    ensures After(n + 1) == (if n < 9 then Round32(After(n), RoundKey(n + 1)) else Last32(After(n), RoundKey(n + 1)))
  {
    hide Round32, Last32;
    if n == 0 {
      Step1();
    } else if n == 1 {
      Step2();
    } else if n == 2 {
      Step3();
    } else if n == 3 {
      Step4();
    } else if n == 4 {
      Step5();
    } else if n == 5 {
      Step6();
    } else if n == 6 {
      Step7();
    } else if n == 7 {
      Step8();
    } else if n == 8 {
      Step9();
    } else {
      Step10();
    }
  }

  // ------------------------------------------------------------------------- the key

  lemma FirstKey(key: seq<Byte>)
    requires |key| == 16 && key == KEY
    ensures RoundKey(0) == Four(Pack(key[0], key[1], key[2], key[3]), Pack(key[4], key[5], key[6], key[7]),
                                Pack(key[8], key[9], key[10], key[11]), Pack(key[12], key[13], key[14], key[15]))
  {
  }

  lemma {:induction false} KeyExpanded(key: seq<Byte>, n: nat)
    requires |key| == 16 && key == KEY && n <= 10
    ensures Expanded(key, n, RoundKey(n))
  {
    hide Expanded, NextKey, RoundKey;
    if n == 0 {
      FirstExpanded(key);
      FirstKey(key);
    } else {
      KeyExpanded(key, n - 1);
      NextKeyExpanded(key, n - 1, RoundKey(n - 1));
      KeyNext(n - 1);
    }
  }

  /** The schedule that `AesKey.SetKey` makes of a 128-bit key. */
  ghost predicate KeySchedule(keys: seq<bv32>, key: seq<Byte>) {
    |keys| == 60 && |key| == 16 && forall i | 0 <= i < 44 :: Bytes(keys[i]) == FipsWord(key, 4, i)
  }

  lemma KeysMany(keys: seq<bv32>, key: seq<Byte>)
    requires KeySchedule(keys, key)
    ensures |keys| == 60
  {
  }

  lemma KeysAre(keys: seq<bv32>, key: seq<Byte>, n: nat)
    requires KeySchedule(keys, key) && key == KEY && n <= 10
    ensures KeyOf(keys, n) == Key(RoundKey(n))
  {
    hide Bytes, FipsWord, RoundKey;
    KeyExpanded(key, n);
    BytesApart(keys[4 * n], RoundKey(n).a);
    BytesApart(keys[4 * n + 1], RoundKey(n).b);
    BytesApart(keys[4 * n + 2], RoundKey(n).c);
    BytesApart(keys[4 * n + 3], RoundKey(n).d);
  }

  // ------------------------------------------------------------------------- the block

  lemma Begins(x: Four)
    requires x == Four(0x00112233, 0x44556677, 0x8899aabb, 0xccddeeff)
    ensures Flat(x) == PLAIN && Plus(x, RoundKey(0)) == After(0)
  {
  }

  lemma Ends()
    ensures Flat(After(10)) == CIPHER
  {
  }

  lemma {:induction false} RoundsAre(keys: seq<bv32>, key: seq<Byte>, x: Four, n: nat)
    requires KeySchedule(keys, key) && key == KEY && Plus(x, RoundKey(0)) == After(0) && n < 10
    ensures |keys| == 60 && Rounds(Matrix(x), keys, n) == Matrix(After(n))
  {
    hide KeySchedule, RoundKey, After, Key, KeyOf, Matrix, Plus, AddRoundKey, Round, Round32, Last32;
    KeysMany(keys, key);
    KeysAre(keys, key, n);
    if n == 0 {
      PlusMatrix(x, RoundKey(0));
    } else {
      RoundsAre(keys, key, x, n - 1);
      StepNext(n - 1);
      RoundMatrix(After(n - 1), RoundKey(n));
    }
  }

  /** The code encrypts the plaintext of the example to its ciphertext, and decrypts it back. */
  lemma KnownAnswer(keys: seq<bv32>)
    requires KeySchedule(keys, KEY)
    ensures |keys| == 60 && Block(ENCRYPT, PLAIN, keys, 10) == CIPHER && Block(DECRYPT, CIPHER, keys, 10) == PLAIN
  {
    KeysMany(keys, KEY);
    BlockInverse(PLAIN, keys, 10);
    hide KeySchedule, RoundKey, After, Key, KeyOf, Matrix, Flat, Plus, Rounds, LastRound, InvCipher, Transpose,
      Round32, Last32;
    var x := Four(0x00112233, 0x44556677, 0x8899aabb, 0xccddeeff);
    Begins(x);
    RoundsAre(keys, KEY, x, 9);
    KeysAre(keys, KEY, 10);
    StepNext(9);
    RoundMatrix(After(9), RoundKey(10));
    Ends();
    FlatMatrix(x);
    FlatMatrix(After(10));
  }
}
