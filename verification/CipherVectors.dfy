/** The test vectors of ChaCha20 in RFC 7539, checked round by round on machine words. */
module CipherVectors {
  import opened Words
  import opened LittleEndian
  import opened ChaCha20
  import opened MachineWords

  // ----- section 2.1.1: one quarter round

  lemma QuarterVector()
    ensures QuarterOf(Ints(Four(0x11111111, 0x01020304, 0x9b8d6f43, 0x01234567)))
         == Ints(Four(0xea2a92f4, 0xcb1cf8ce, 0x4581472e, 0x5881c4bb))
  {
    hide Int;
    QuarterMeaning(Four(0x11111111, 0x01020304, 0x9b8d6f43, 0x01234567),
                   Four(0x12131415, 0xd8177edf, 0xecff8273, 0x51721330),
                   Four(0xea2a92f4, 0xcb1cf8ce, 0x4581472e, 0x5881c4bb));
  }

  // ----- section 2.3.2: a whole block

  datatype Columns4 = Columns4(p: Four, q: Four, r: Four, s: Four)

  function Whole(c: Columns4): Block {
    State(Ints(c.p), Ints(c.q), Ints(c.r), Ints(c.s))
  }

  predicate Quarters(i: Columns4, h: Columns4, o: Columns4) {
    && Half1(i.p, h.p) && Half2(h.p, o.p) && Half1(i.q, h.q) && Half2(h.q, o.q)
    && Half1(i.r, h.r) && Half2(h.r, o.r) && Half1(i.s, h.s) && Half2(h.s, o.s)
  }

  function Diagonals(c: Columns4): Columns4 {
    Columns4(Four(c.p.a, c.q.b, c.r.c, c.s.d), Four(c.q.a, c.r.b, c.s.c, c.p.d),
             Four(c.r.a, c.s.b, c.p.c, c.q.d), Four(c.s.a, c.p.b, c.q.c, c.r.d))
  }

  function Back(c: Columns4): Columns4 {
    Columns4(Four(c.p.a, c.s.b, c.r.c, c.q.d), Four(c.q.a, c.p.b, c.s.c, c.r.d),
             Four(c.r.a, c.q.b, c.p.c, c.s.d), Four(c.s.a, c.r.b, c.q.c, c.p.d))
  }

  lemma QuartersMeaning(i: Columns4, h: Columns4, o: Columns4)
    requires Quarters(i, h, o)
    ensures QuarterOf(Ints(i.p)) == Ints(o.p) && QuarterOf(Ints(i.q)) == Ints(o.q)
    ensures QuarterOf(Ints(i.r)) == Ints(o.r) && QuarterOf(Ints(i.s)) == Ints(o.s)
  {
    hide Half1, Half2, Int, QuarterOf;
    QuarterMeaning(i.p, h.p, o.p);
    QuarterMeaning(i.q, h.q, o.q);
    QuarterMeaning(i.r, h.r, o.r);
    QuarterMeaning(i.s, h.s, o.s);
  }

  /** A double round, with the words in the middle of it given. */
  lemma DoubleRoundMeaning(i: Columns4, n: Columns4, h: Columns4, m: Columns4, g: Columns4, o: Columns4)
    requires Quarters(i, h, m) && Quarters(Diagonals(m), g, o) && n == Back(o)
    ensures DoubleRound(Whole(i)) == Whole(n)
  {
    hide Quarters, Int, QuarterOf, DoubleRound;
    QuartersMeaning(i, h, m);
    QuartersMeaning(Diagonals(m), g, o);
    DoubleRoundOf(Ints(i.p), Ints(i.q), Ints(i.r), Ints(i.s));
  }

  const ROUND_0 := Columns4(
    Four(0x61707865, 0x03020100, 0x13121110, 0x00000001), Four(0x3320646e, 0x07060504, 0x17161514, 0x09000000),
    Four(0x79622d32, 0x0b0a0908, 0x1b1a1918, 0x4a000000), Four(0x6b206574, 0x0f0e0d0c, 0x1f1e1d1c, 0x00000000))
  const ROUND_1 := Columns4(
    Four(0xcd52e917, 0xc4b7cd22, 0x7bf7d740, 0x6b0d58a3), Four(0x85ab03b4, 0x5c2e187a, 0x7eddd644, 0x6798471a),
    Four(0xb3457395, 0xc95eb461, 0xf1a1bdf5, 0xd737f167), Four(0xf96de7dd, 0x316c801a, 0x761246ca, 0xf173888d))
  const ROUND_2 := Columns4(
    Four(0xcf1a7584, 0x901d2f40, 0x2dafb216, 0x10aef18d), Four(0x048927ec, 0x7974b81c, 0x27c89cd6, 0x16218765),
    Four(0x54051fda, 0x378dcfb4, 0xcd3c9aa0, 0x68f76705), Four(0xc244ff28, 0xcd47fd0e, 0x79fc89c7, 0x04d6ee22))
  const ROUND_3 := Columns4(
    Four(0x03a14032, 0xa7143ae0, 0xc90c6b18, 0xba35d777), Four(0x66b15927, 0xa09b33dd, 0x5a202413, 0xb360f1bf),
    Four(0x9d6b6b42, 0xa5daaf88, 0xc20e01b6, 0x8178315b), Four(0xb84c4109, 0x2fd91a73, 0x72cd6b74, 0x2cd11b1a))
  const ROUND_4 := Columns4(
    Four(0x9a2d3589, 0x0a1bffc6, 0xe46c6354, 0x2687d476), Four(0x0b23fc4e, 0x5e5993f7, 0xc9503229, 0x54e65231),
    Four(0x40af3b6b, 0x9904c2e7, 0x04fef5aa, 0x3594ffc5), Four(0xceea8144, 0x0d334718, 0xf8933f72, 0x2b3bb2ca))
  const ROUND_5 := Columns4(
    Four(0xc53318c5, 0x26d7cf73, 0xae2ca8db, 0x9e5ec228), Four(0xca325d96, 0x6088d379, 0x42f67c72, 0x7d85a9f3),
    Four(0x7e7d11cb, 0xc0f0e9bd, 0x71669aca, 0x201d0756), Four(0x3404e2ca, 0xe310cdb9, 0x975c171d, 0x63fa6953))
  const ROUND_6 := Columns4(
    Four(0x04a3131a, 0x36cc86c7, 0x07d13aca, 0x33b6686d), Four(0x66176309, 0xbf8a4465, 0xeb0be9af, 0x795cc671),
    Four(0x0415bab1, 0xf77dd720, 0x61599491, 0xc0049972), Four(0x61b880a2, 0xfc0bdc90, 0x918512dc, 0xa0a81bde))
  const ROUND_7 := Columns4(
    Four(0x9b70f51f, 0x93b08686, 0xd839165e, 0xa609f555), Four(0x7ea8ac11, 0x6a4c50ae, 0x4c06e28a, 0x2c246549),
    Four(0x21e54da9, 0x19212a5a, 0xd3fde99e, 0x95151853), Four(0xca393b2f, 0x9b032958, 0x26acc13d, 0x2c847a0d))
  const ROUND_8 := Columns4(
    Four(0xca5c85dd, 0x982563f8, 0x1c25931a, 0xa9b751fb), Four(0x93a4f90e, 0x712aa9ff, 0x5180bb10, 0x382f3ce2),
    Four(0xd9f0df58, 0x279a61e8, 0x779c27e7, 0x8db1757d), Four(0x26dd82dd, 0x970f72bd, 0x54077e08, 0xcc38080b))
  const ROUND_9 := Columns4(
    Four(0xb6b87de6, 0xdc33c122, 0x28c1fcb3, 0x21078b22), Four(0x9a016148, 0x98e18fa3, 0xc4b38f9d, 0xb193e7a3),
    Four(0x93859815, 0x5ffbe8fc, 0x83e2f5d7, 0xb2f49389), Four(0x4915e6cc, 0xf7154b8b, 0x7d24b98b, 0x6cde6026))
  const ROUND_10 := Columns4(
    Four(0x837778ab, 0xc4f2d0c7, 0x335271c2, 0xd19c12b4), Four(0xe238d763, 0xfc62bb2f, 0xf29489f3, 0xb04e16de),
    Four(0xa67ae21e, 0x8fa018fc, 0xeabda8fc, 0x9e83d0cb), Four(0x5950bb2f, 0x3f5ec7b7, 0x82e46ebd, 0x4e3c50a2))

  lemma Round1()
    ensures DoubleRound(Whole(ROUND_0)) == Whole(ROUND_1)
  {
    DoubleRoundMeaning(ROUND_0, ROUND_1,
      Columns4(
        Four(0x64727965, 0x474828f7, 0x8c767582, 0x79646472), Four(0x3a266972, 0xe4d3e878, 0x8088483a, 0x69723326),
        Four(0x846c363a, 0xeee8c5a5, 0x5154e784, 0x363ace6c), Four(0x7a2e7280, 0x09a469e9, 0x919e974a, 0x72807a2e)),
      Columns4(
        Four(0xabbaa25c, 0x3a465196, 0x6b3ca454, 0xdec62ed2), Four(0x1efa51ea, 0x1c7e64f6, 0x08eb14b1, 0x8862cc77),
        Four(0x7354fbdf, 0xb12fb628, 0xbf8a9ac9, 0x6e35b345), Four(0x83d2dc69, 0xf05b6976, 0xe444df3b, 0x52a647f1)),
      Columns4(
        Four(0xc8390752, 0x0519e1c5, 0x002e3568, 0x40a39a9f), Four(0xd02a0812, 0xb580fba2, 0x0b04ee27, 0x26c00eec),
        Four(0x63b06555, 0x4f950e40, 0x145f9026, 0xa922ebd2), Four(0xbe192dff, 0x3b54b9de, 0xa7a5e4dd, 0x9ebad02c)),
      Columns4(
        Four(0xcd52e917, 0x5c2e187a, 0xf1a1bdf5, 0xf173888d), Four(0x85ab03b4, 0xc95eb461, 0x761246ca, 0x6b0d58a3),
        Four(0xb3457395, 0x316c801a, 0x7bf7d740, 0x6798471a), Four(0xf96de7dd, 0xc4b7cd22, 0x7eddd644, 0xd737f167)));
  }

  lemma Round2()
    ensures DoubleRound(Whole(ROUND_1)) == Whole(ROUND_2)
  {
    DoubleRoundMeaning(ROUND_1, ROUND_2,
      Columns4(
        Four(0x920ab639, 0x51d65ae2, 0x6a92d047, 0xee9af907), Four(0xe1d91c2e, 0xc44ff863, 0xda125c85, 0x5b348641),
        Four(0x7ca427f6, 0xddde9016, 0xc8336988, 0xd691ab93), Four(0x2ada67f7, 0x1a26954e, 0x658d2273, 0xef7adba9)),
      Columns4(
        Four(0xe3e1111b, 0xd65b5b5b, 0xe67aec54, 0x7be81c0d), Four(0xa6291491, 0xf56af099, 0xf7a52d82, 0x1d92d0fd),
        Four(0x5a82b80c, 0x4ccc8103, 0xdb470914, 0x13139f8c), Four(0x4500fd45, 0xc94d29e2, 0xdfb40f1d, 0x7a26ecaa)),
      Columns4(
        Four(0xd94c01b4, 0xf5ce73d0, 0xc865ac7e, 0xed1ea36a), Four(0xf2f59594, 0x11939258, 0x694d983a, 0x8999891d),
        Four(0x23cfe1ee, 0x30353dec, 0x178e2ab1, 0x31133e5d), Four(0x1b5c58a0, 0xa6e8a688, 0xbed135d1, 0xc72c084f)),
      Columns4(
        Four(0xcf1a7584, 0x7974b81c, 0xcd3c9aa0, 0x04d6ee22), Four(0x048927ec, 0x378dcfb4, 0x79fc89c7, 0x10aef18d),
        Four(0x54051fda, 0xcd47fd0e, 0x2dafb216, 0x16218765), Four(0xc244ff28, 0x901d2f40, 0x27c89cd6, 0x68f76705)));
  }

  lemma Round3()
    ensures DoubleRound(Whole(ROUND_2)) == Whole(ROUND_3)
  {
    DoubleRoundMeaning(ROUND_2, ROUND_3,
      Columns4(
        Four(0x5f37a4c4, 0x42eef12e, 0x82f901af, 0x55494f99), Four(0x7dfde008, 0x2b0aef64, 0x8f3608b2, 0x676d6bdc),
        Four(0x8b92ef8e, 0x5b1b1624, 0x55c87e05, 0x888be365), Four(0x8f8cfc36, 0x6e82f415, 0x8c111521, 0x12148b5a)),
      Columns4(
        Four(0xa22695f2, 0x1ece4458, 0xf2d36da6, 0x6fda6bf7), Four(0xa908cf6c, 0xe82b726f, 0xf4dab980, 0x65a4b0ce),
        Four(0xe6ae05b2, 0x5a21ab90, 0x7baf5573, 0x25e6d76e), Four(0xfe0ff04b, 0x87698c64, 0xa78c270d, 0x1b7b11ec)),
      Columns4(
        Four(0x8a520861, 0x794f37d1, 0x953ce69c, 0x198d9129), Four(0x032a7afc, 0x6386de2b, 0xb89793fd, 0x110b6cf0),
        Four(0x6e179216, 0x2f53d92c, 0x15ab7959, 0x22d80bb3), Four(0x1cde34a3, 0x9b6e0c66, 0xd8a7f2b8, 0xe3cd3938)),
      Columns4(
        Four(0x03a14032, 0xa09b33dd, 0xc20e01b6, 0x2cd11b1a), Four(0x66b15927, 0xa5daaf88, 0x72cd6b74, 0xba35d777),
        Four(0x9d6b6b42, 0x2fd91a73, 0xc90c6b18, 0xb360f1bf), Four(0xb84c4109, 0xa7143ae0, 0x5a202413, 0x8178315b)));
  }

  lemma Round4()
    ensures DoubleRound(Whole(ROUND_3)) == Whole(ROUND_4)
  {
    DoubleRoundMeaning(ROUND_3, ROUND_4,
      Columns4(
        Four(0xaab57b12, 0x54178d26, 0x75717b98, 0xac651080), Four(0x074c8d04, 0x0ebe2764, 0xd6dbd83f, 0x7cbbb42c),
        Four(0x43461aca, 0x56c7c484, 0xed9fc3f4, 0x2b91c23e), Four(0xe8255b7c, 0xd2a1b9ce, 0xb3343068, 0x4066c4f4)),
      Columns4(
        Four(0xfecd0838, 0xcedf6624, 0x1d8a33ea, 0xa818b852), Four(0x160ab468, 0xb11de6c4, 0x87dc1ca9, 0xb100446a),
        Four(0x9a0ddf4e, 0xbd7810ef, 0x89bd34a5, 0x9c1d70b1), Four(0xbac7154a, 0xd22b5643, 0x5505ef62, 0xa1d1befa)),
      Columns4(
        Four(0xafeaeefc, 0xea42468d, 0xd9c342e0, 0x50060e3b), Four(0xd382c557, 0x37a136f7, 0xd20b6afc, 0x7d057b9a),
        Four(0x6c393591, 0xd47605da, 0x8f861123, 0x71fbdd39), Four(0x89a67b6e, 0x454405d6, 0x93bb3264, 0x0bdf15bb)),
      Columns4(
        Four(0x9a2d3589, 0x5e5993f7, 0x04fef5aa, 0x2b3bb2ca), Four(0x0b23fc4e, 0x9904c2e7, 0xf8933f72, 0x2687d476),
        Four(0x40af3b6b, 0x0d334718, 0xe46c6354, 0x54e65231), Four(0xceea8144, 0x0a1bffc6, 0xc9503229, 0x3594ffc5)));
  }

  lemma Round5()
    ensures DoubleRound(Whole(ROUND_4)) == Whole(ROUND_5)
  {
    DoubleRoundMeaning(ROUND_4, ROUND_5,
      Columns4(
        Four(0xa449354f, 0xe19e4cfb, 0xc5a5e622, 0xe13982ce), Four(0x697d9045, 0xdfc33d59, 0x8bc46fc4, 0xc2743d9b),
        Four(0xd9b3fe52, 0x223369f9, 0x0696e1d1, 0x0197ec27), Four(0xdc1dc85c, 0x971807e1, 0x732a3698, 0x7a96f726)),
      Columns4(
        Four(0x85e7824a, 0x1c133ea1, 0xa3a66a86, 0xde008464), Four(0x4940cd9e, 0xbba40b0f, 0xc0b4754f, 0x34f0058b),
        Four(0xfbe7684b, 0x9413992a, 0x771b4ecb, 0x70846cfa), Four(0x7335d03d, 0xa4ab2040, 0x165151a1, 0xa3271b09)),
      Columns4(
        Four(0x418b8d59, 0x83a78b6c, 0x0d6c3177, 0x9650e2ac), Four(0xdd5466c8, 0xecddf6ce, 0xf8fd54f5, 0xe2ac0354),
        Four(0xa092888b, 0xddea8940, 0x30a6fee8, 0x8d009462), Four(0x8f490ede, 0xa4bbd3ec, 0x22d9751c, 0x6224ffcd)),
      Columns4(
        Four(0xc53318c5, 0x6088d379, 0x71669aca, 0x63fa6953), Four(0xca325d96, 0xc0f0e9bd, 0x975c171d, 0x9e5ec228),
        Four(0x7e7d11cb, 0xe310cdb9, 0xae2ca8db, 0x7d85a9f3), Four(0x3404e2ca, 0x26d7cf73, 0x42f67c72, 0x201d0756)));
  }

  lemma Round6()
    ensures DoubleRound(Whole(ROUND_5)) == Whole(ROUND_6)
  {
    DoubleRoundMeaning(ROUND_5, ROUND_6,
      Columns4(
        Four(0xec0ae838, 0xad45cfee, 0xd83d1b2f, 0x2a107254), Four(0x2abb310f, 0xa00c9bb7, 0xdbf2d3b0, 0x98fc573e),
        Four(0x3f6dfb88, 0x45387aeb, 0x6e44ba3a, 0xfcde1f70), Four(0x1715b083, 0xc41b5923, 0x712c8c0c, 0xd9d074ef)),
      Columns4(
        Four(0x9950b826, 0x2121065a, 0x19078de2, 0x40ca72b3), Four(0xcac7ccc6, 0xc12bdadb, 0x178ecc02, 0x3b9bf852),
        Four(0x84a67673, 0xcae3acd1, 0xe6adbdb2, 0x78690378), Four(0xdb3109a6, 0x594616cb, 0x52a9d50e, 0xe17d4902)),
      Columns4(
        Four(0x5a7c9301, 0xaa268019, 0xc0b178b3, 0xda03bb01), Four(0x95ab7997, 0xd06be972, 0x5dceaa6f, 0x0b24d561),
        Four(0xddec8d3e, 0x26292d73, 0x8e747459, 0x756ce677), Four(0xfc521000, 0x656670a2, 0x2b07503d, 0x1378843b)),
      Columns4(
        Four(0x04a3131a, 0xbf8a4465, 0x61599491, 0xa0a81bde), Four(0x66176309, 0xf77dd720, 0x918512dc, 0x33b6686d),
        Four(0x0415bab1, 0xfc0bdc90, 0x07d13aca, 0x795cc671), Four(0x61b880a2, 0x36cc86c7, 0xeb0be9af, 0xc0049972)));
  }

  lemma Round7()
    ensures DoubleRound(Whole(ROUND_6)) == Whole(ROUND_7)
  {
    DoubleRoundMeaning(ROUND_6, ROUND_7,
      Columns4(
        Four(0x3b6f99e1, 0x1c564cf9, 0xf95d43a3, 0xf18c08d9), Four(0x25a1a76e, 0x102c9f3a, 0x4c2b46ac, 0x611f5cfd),
        Four(0xfb9391d1, 0x107089e8, 0x69fcd028, 0x08a33b97), Four(0x5dc45d32, 0x9ccd8247, 0xd8721048, 0x46ecfd6c)),
      Columns4(
        Four(0x57c5e6da, 0x8e85d82f, 0x434b4749, 0x49ee03a6), Four(0x35ce46a8, 0xb4819d06, 0x1d459c00, 0xd11a5554),
        Four(0x0c041bb9, 0xb63be200, 0x111cfe2c, 0xa7202e04), Four(0xfa91df79, 0xacd221e4, 0x55942604, 0x7d2215bc)),
      Columns4(
        Four(0x0c4783e0, 0x8f29713f, 0xa7796f91, 0x965c7165), Four(0xec0a28a8, 0x929e8369, 0x80a2cbe8, 0x2b0ea5e4),
        Four(0xb8d63d9d, 0x690f100c, 0xac14b115, 0x68c969cc), Four(0x8917b7a8, 0x41218387, 0xb6f1ca37, 0x99ac2e37)),
      Columns4(
        Four(0x9b70f51f, 0x6a4c50ae, 0xd3fde99e, 0x2c847a0d), Four(0x7ea8ac11, 0x19212a5a, 0x26acc13d, 0xa609f555),
        Four(0x21e54da9, 0x9b032958, 0xd839165e, 0x2c246549), Four(0xca393b2f, 0x93b08686, 0x4c06e28a, 0x95151853)));
  }

  lemma Round8()
    ensures DoubleRound(Whole(ROUND_7)) == Whole(ROUND_8)
  {
    DoubleRoundMeaning(ROUND_7, ROUND_8,
      Columns4(
        Four(0x2f217ba5, 0x91900f49, 0x67299f86, 0x8ef08928), Four(0xe8f4fcbf, 0x1f7f48fb, 0xe5fda75a, 0x99f6c4d0),
        Four(0x3b067803, 0xfbdeb2d6, 0x344e97b1, 0x6050ae13), Four(0x653c6487, 0x423adde3, 0x45370af5, 0x1e8a49b8)),
      Columns4(
        Four(0xc0b18aee, 0xdeb54e9c, 0xa82d65d4, 0x4103c64e), Four(0x087445ba, 0x802c883b, 0x687f11eb, 0x82816a91),
        Four(0x36e52ad9, 0x06e86889, 0xe9d36207, 0xb584ca56), Four(0xa777426a, 0x3c002680, 0x4242ddae, 0xfd0bd2b9)),
      Columns4(
        Four(0x40de1329, 0x897e72b4, 0xab641fdc, 0xc190bdd5), Four(0x0f5cae43, 0x84484acb, 0xaa502c0d, 0x680d4e5f),
        Four(0x72e55159, 0x670b8dff, 0xe3f65638, 0x3bc8f064), Four(0x862c9106, 0xa0b0f1d7, 0xc3cf4593, 0x5b5033a8)),
      Columns4(
        Four(0xca5c85dd, 0x712aa9ff, 0x779c27e7, 0xcc38080b), Four(0x93a4f90e, 0x279a61e8, 0x54077e08, 0xa9b751fb),
        Four(0xd9f0df58, 0x970f72bd, 0x1c25931a, 0x382f3ce2), Four(0x26dd82dd, 0x982563f8, 0x5180bb10, 0x8db1757d)));
  }

  lemma Round9()
    ensures DoubleRound(Whole(ROUND_8)) == Whole(ROUND_9)
  {
    DoubleRoundMeaning(ROUND_8, ROUND_9,
      Columns4(
        Four(0x6281e9d5, 0x13da84c7, 0xd4545e50, 0xb82ecb36), Four(0x04cfa30d, 0x55e0f804, 0xf16ff7f0, 0x9fef3ce0),
        Four(0x018b4140, 0x3d5c98c4, 0xabd9b421, 0x343d8c3a), Four(0xbdecf59a, 0x79d61c69, 0x5198efdc, 0xfd9171d4)),
      Columns4(
        Four(0x765c6e9c, 0x9046ecaa, 0x46fa091e, 0x72a5aace), Four(0x5ab09b11, 0x7b88d882, 0x5117e9b5, 0x5fa7f1c5),
        Four(0x3ee7da04, 0xb9b577dd, 0x862ff22b, 0xda563e0a), Four(0x37c31203, 0x156de7ed, 0xa3fcc7a6, 0x5263d7ca)),
      Columns4(
        Four(0xf1e5471e, 0xc4d336c8, 0x170495b1, 0x90d4a386), Four(0x146612ee, 0x859b4e5a, 0x5c1d2e69, 0xb82066c3),
        Four(0x5455c1f1, 0x3f2fd624, 0x772e1510, 0x30340bf2), Four(0xc809fead, 0x810be81f, 0x11befc14, 0xc0a7125f)),
      Columns4(
        Four(0xb6b87de6, 0x98e18fa3, 0x83e2f5d7, 0x6cde6026), Four(0x9a016148, 0x5ffbe8fc, 0x7d24b98b, 0x21078b22),
        Four(0x93859815, 0xf7154b8b, 0x28c1fcb3, 0xb193e7a3), Four(0x4915e6cc, 0xdc33c122, 0xc4b38f9d, 0xb2f49389)));
  }

  lemma Round10()
    ensures DoubleRound(Whole(ROUND_9)) == Whole(ROUND_10)
  {
    DoubleRoundMeaning(ROUND_9, ROUND_10,
      Columns4(
        Four(0x92ec3f08, 0xf71bc00d, 0xdcecb09e, 0xb42ab3eb), Four(0x32e2f0eb, 0xd9cad431, 0xdbfc130e, 0x17488371),
        Four(0xf3818111, 0x0dfb0c98, 0x967b374c, 0x12984175), Four(0x402b3257, 0x0ad0b388, 0xcf95e680, 0x52712cf5)),
      Columns4(
        Four(0x8a07ff15, 0x913768fe, 0x0a39aedc, 0x2d4cfe3e), Four(0x0cadc51c, 0x442a0c0c, 0xc1428029, 0xe5466d1b),
        Four(0x017c8da9, 0x598fe3bb, 0x7b48135f, 0xe4ccdc13), Four(0x4afbe5df, 0x47d18828, 0x5a5f1098, 0x8ac92a18)),
      Columns4(
        Four(0xce320b21, 0xb5456d8a, 0x9c81585a, 0x213944fb), Four(0x663da8d7, 0x7bfb2e8c, 0xb1485c09, 0x56e94b71),
        Four(0x494e15d1, 0x5d2ccc4d, 0x83045ae4, 0x78caac08), Four(0xdc334edd, 0x7d1d6c52, 0x5410b928, 0x92ce38ff)),
      Columns4(
        Four(0x837778ab, 0xfc62bb2f, 0xeabda8fc, 0x4e3c50a2), Four(0xe238d763, 0x8fa018fc, 0x82e46ebd, 0xd19c12b4),
        Four(0xa67ae21e, 0x3f5ec7b7, 0x335271c2, 0xb04e16de), Four(0x5950bb2f, 0xc4f2d0c7, 0xf29489f3, 0x9e83d0cb)));
  }


  const KEY: bytes := [0x00, 0x01, 0x02, 0x03, 0x04, 0x05, 0x06, 0x07, 0x08, 0x09, 0x0a, 0x0b, 0x0c, 0x0d, 0x0e, 0x0f] +
                      [0x10, 0x11, 0x12, 0x13, 0x14, 0x15, 0x16, 0x17, 0x18, 0x19, 0x1a, 0x1b, 0x1c, 0x1d, 0x1e, 0x1f]
  const NONCE: bytes := [0x00, 0x00, 0x00, 0x09, 0x00, 0x00, 0x00, 0x4a, 0x00, 0x00, 0x00, 0x00]

  lemma SigmaWords()
    ensures Load32(SIGMA, 0) == Int(0x61707865)
    ensures Load32(SIGMA, 4) == Int(0x3320646e)
  {
    hide Int, Load32, LE;
    IntValue(0x61707865);
    IntValue(0x3320646e);
  }

  lemma MoreSigmaWords()
    ensures Load32(SIGMA, 8) == Int(0x79622d32)
    ensures Load32(SIGMA, 12) == Int(0x6b206574)
  {
    hide Int, Load32, LE;
    IntValue(0x79622d32);
    IntValue(0x6b206574);
  }

  lemma KeyWords0()
    ensures Load32(KEY, 0) == Int(0x03020100)
    ensures Load32(KEY, 4) == Int(0x07060504)
  {
    hide Int, Load32, LE;
    IntValue(0x03020100);
    IntValue(0x07060504);
  }

  lemma KeyWords1()
    ensures Load32(KEY, 8) == Int(0x0b0a0908)
    ensures Load32(KEY, 12) == Int(0x0f0e0d0c)
  {
    hide Int, Load32, LE;
    IntValue(0x0b0a0908);
    IntValue(0x0f0e0d0c);
  }

  lemma KeyWords2()
    ensures Load32(KEY, 16) == Int(0x13121110)
    ensures Load32(KEY, 20) == Int(0x17161514)
  {
    hide Int, Load32, LE;
    IntValue(0x13121110);
    IntValue(0x17161514);
  }

  lemma KeyWords3()
    ensures Load32(KEY, 24) == Int(0x1b1a1918)
    ensures Load32(KEY, 28) == Int(0x1f1e1d1c)
  {
    hide Int, Load32, LE;
    IntValue(0x1b1a1918);
    IntValue(0x1f1e1d1c);
  }

  lemma NonceWords()
    ensures Load32(NONCE, 0) == Int(0x09000000)
    ensures Load32(NONCE, 4) == Int(0x4a000000)
    ensures Load32(NONCE, 8) == Int(0x00000000)
  {
    hide Int, Load32, LE;
    IntValue(0x09000000);
    IntValue(0x4a000000);
    IntValue(0x00000000);
  }

  /** The input block of the example, with the counter 1. */
  lemma InputVector()
    ensures Input(KEY, NONCE, 1) == Whole(ROUND_0)
  {
    hide Int, Load32, LE, Value;
    SigmaWords();
    MoreSigmaWords();
    KeyWords0();
    KeyWords1();
    KeyWords2();
    KeyWords3();
    NonceWords();
    IntValue(1);
    ValueOne();
  }

  lemma ValueOne()
    ensures Value(1) == 1
  {
  }

  lemma RoundsUp(x: Block, n: nat)
    ensures Rounds(x, n + 1) == DoubleRound(Rounds(x, n)) && Rounds(x, 0) == x
  {
    hide DoubleRound;
  }

  /** Twenty rounds. */
  lemma TenDoubleRounds()
    ensures Rounds(Whole(ROUND_0), 10) == Whole(ROUND_10)
  {
    hide Whole, DoubleRound, Rounds;
    RoundsUp(Whole(ROUND_0), 0);
    Round1();
    RoundsUp(Whole(ROUND_0), 1);
    Round2();
    RoundsUp(Whole(ROUND_0), 2);
    Round3();
    RoundsUp(Whole(ROUND_0), 3);
    Round4();
    RoundsUp(Whole(ROUND_0), 4);
    Round5();
    RoundsUp(Whole(ROUND_0), 5);
    Round6();
    RoundsUp(Whole(ROUND_0), 6);
    Round7();
    RoundsUp(Whole(ROUND_0), 7);
    Round8();
    RoundsUp(Whole(ROUND_0), 8);
    Round9();
    RoundsUp(Whole(ROUND_0), 9);
    Round10();
  }

  const OUTPUT := Columns4(
    Four(0xe4e7f110, 0xc7f4d1c7, 0x466482d2, 0xd19c12b5), Four(0x15593bd1, 0x0368c033, 0x09aa9f07, 0xb94e16de),
    Four(0x1fdd0f50, 0x9aaa2204, 0x05d7c214, 0xe883d0cb), Four(0xc47120a3, 0x4e6cd4c3, 0xa2028bd9, 0x4e3c50a2))

  lemma SumWords(x: Four, y: Four, z: Four)
    requires Adds(x.a, y.a, z.a) && Adds(x.b, y.b, z.b) && Adds(x.c, y.c, z.c) && Adds(x.d, y.d, z.d)
    ensures Add32(Int(x.a), Int(y.a)) == Int(z.a) && Add32(Int(x.b), Int(y.b)) == Int(z.b)
    ensures Add32(Int(x.c), Int(y.c)) == Int(z.c) && Add32(Int(x.d), Int(y.d)) == Int(z.d)
  {
    hide Int, Adds, Add32;
    AddWord(x.a, y.a, z.a);
    AddWord(x.b, y.b, z.b);
    AddWord(x.c, y.c, z.c);
    AddWord(x.d, y.d, z.d);
  }

  /** The input added to the twenty rounds. */
  lemma FeedForward()
    ensures AddWords(Whole(ROUND_10), Whole(ROUND_0)) == Whole(OUTPUT)
  {
    hide Int, Add32;
    SumWords(ROUND_10.p, ROUND_0.p, OUTPUT.p);
    SumWords(ROUND_10.q, ROUND_0.q, OUTPUT.q);
    SumWords(ROUND_10.r, ROUND_0.r, OUTPUT.r);
    SumWords(ROUND_10.s, ROUND_0.s, OUTPUT.s);
  }

  /** The block of the example. */
  lemma BlockVector()
    ensures BlockOf(Input(KEY, NONCE, 1)) == Whole(OUTPUT)
  {
    hide Whole, Rounds, Input;
    InputVector();
    TenDoubleRounds();
    FeedForward();
  }
}
