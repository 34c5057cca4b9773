/** The functions on words bit by bit, section 4.1.2 of FIPS 180-4, and the digest of the standard's example. */
module Sha256Standard {
  import opened Sha256

  // ---------------------------------------------------------------------------
  // Bits
  // ---------------------------------------------------------------------------

  /** Bit `i` of a word, the lowest being bit 0. */
  predicate Bit(x: Word, i: Word)
    requires i < 32
  {
    (x >> i) & 1 == 1
  }

  lemma XorBit(x: Word, y: Word, i: Word)
    requires i < 32
    ensures Bit(Xor(x, y), i) <==> Bit(x, i) != Bit(y, i)
  {
    PlainXor(x, y, i);
    hide Bit;
  }

  lemma PlainXor(x: Word, y: Word, i: Word)
    requires i < 32
    ensures Bit(x ^ y, i) <==> Bit(x, i) != Bit(y, i)
  {
  }

  lemma AndBit(x: Word, y: Word, i: Word)
    requires i < 32
    ensures Bit(And(x, y), i) <==> Bit(x, i) && Bit(y, i)
  {
  }

  lemma NotBit(x: Word, i: Word)
    requires i < 32
    ensures Bit(Not(x), i) <==> !Bit(x, i)
  {
  }

  /** The bit `n` places up, around the end. */
  predicate Turned(x: Word, i: Word, n: Word) {
    Bit(x, (i + n) % 32)
  }

  /** The bit `n` places up, none past the end. */
  predicate Moved(x: Word, i: Word, n: Word)
    requires i < 32 && n < 32
  {
    i + n < 32 && Bit(x, i + n)
  }

  /** Three bits added without carry. */
  predicate Odd(a: bool, b: bool, c: bool) {
    (a != b) != c
  }

  lemma Rotations(x: Word, i: Word)
    requires i < 32
    ensures Bit(x.RotateRight(2), i) == Turned(x, i, 2) && Bit(x.RotateRight(13), i) == Turned(x, i, 13)
    ensures Bit(x.RotateRight(22), i) == Turned(x, i, 22) && Bit(x.RotateRight(6), i) == Turned(x, i, 6)
    ensures Bit(x.RotateRight(11), i) == Turned(x, i, 11) && Bit(x.RotateRight(25), i) == Turned(x, i, 25)
  {
  }

  lemma Shifts(x: Word, i: Word)
    requires i < 32
    ensures Bit(x.RotateRight(7), i) == Turned(x, i, 7) && Bit(x.RotateRight(18), i) == Turned(x, i, 18)
    ensures Bit(x.RotateRight(17), i) == Turned(x, i, 17) && Bit(x.RotateRight(19), i) == Turned(x, i, 19)
    ensures Bit(x >> 3, i) == Moved(x, i, 3) && Bit(x >> 10, i) == Moved(x, i, 10)
  {
  }

  lemma Xor3Bit(x: Word, y: Word, z: Word, i: Word)
    requires i < 32
    ensures Bit(Xor(Xor(x, y), z), i) == Odd(Bit(x, i), Bit(y, i), Bit(z, i))
  {
    hide Bit, Xor;
    XorBit(Xor(x, y), z, i);
    XorBit(x, y, i);
  }

  /** The four sigma functions. */
  lemma SigmaBits(x: Word, i: Word)
    requires i < 32
    ensures Bit(BigSigma0(x), i) == Odd(Turned(x, i, 2), Turned(x, i, 13), Turned(x, i, 22))
    ensures Bit(BigSigma1(x), i) == Odd(Turned(x, i, 6), Turned(x, i, 11), Turned(x, i, 25))
    ensures Bit(SmallSigma0(x), i) == Odd(Turned(x, i, 7), Turned(x, i, 18), Moved(x, i, 3))
    ensures Bit(SmallSigma1(x), i) == Odd(Turned(x, i, 17), Turned(x, i, 19), Moved(x, i, 10))
  {
    BigBits(x, i);
    SmallBits(x, i);
    hide *;
  }

  lemma BigBits(x: Word, i: Word)
    requires i < 32
    ensures Bit(BigSigma0(x), i) == Odd(Turned(x, i, 2), Turned(x, i, 13), Turned(x, i, 22))
    ensures Bit(BigSigma1(x), i) == Odd(Turned(x, i, 6), Turned(x, i, 11), Turned(x, i, 25))
  {
    hide Bit, Turned, Odd, Xor;
    Rotations(x, i);
    Xor3Bit(x.RotateRight(2), x.RotateRight(13), x.RotateRight(22), i);
    Xor3Bit(x.RotateRight(6), x.RotateRight(11), x.RotateRight(25), i);
  }

  lemma SmallBits(x: Word, i: Word)
    requires i < 32
    ensures Bit(SmallSigma0(x), i) == Odd(Turned(x, i, 7), Turned(x, i, 18), Moved(x, i, 3))
    ensures Bit(SmallSigma1(x), i) == Odd(Turned(x, i, 17), Turned(x, i, 19), Moved(x, i, 10))
  {
    hide Bit, Turned, Moved, Odd, Xor;
    Shifts(x, i);
    Xor3Bit(x.RotateRight(7), x.RotateRight(18), x >> 3, i);
    Xor3Bit(x.RotateRight(17), x.RotateRight(19), x >> 10, i);
  }

  /** The first word chooses between the other two, bit by bit. */
  lemma ChooseBits(x: Word, y: Word, z: Word, i: Word)
    requires i < 32
    ensures Bit(Choose(x, y, z), i) == if Bit(x, i) then Bit(y, i) else Bit(z, i)
  {
    hide Bit, Xor, And, Not;
    XorBit(And(x, y), And(Not(x), z), i);
    AndBit(x, y, i);
    AndBit(Not(x), z, i);
    NotBit(x, i);
  }

  function Votes(a: bool, b: bool, c: bool): nat {
    (if a then 1 else 0) + (if b then 1 else 0) + (if c then 1 else 0)
  }

  /** Two of three votes decide each bit. */
  lemma MajorityBits(x: Word, y: Word, z: Word, i: Word)
    requires i < 32
    ensures Bit(Majority(x, y, z), i) <==> 2 <= Votes(Bit(x, i), Bit(y, i), Bit(z, i))
  {
    hide Bit, Xor, And;
    Xor3Bit(And(x, y), And(x, z), And(y, z), i);
    AndBit(x, y, i);
    AndBit(x, z, i);
    AndBit(y, z, i);
  }

  /** Bytes and words turn into each other, most significant byte first. */
  lemma WordOfBytes(b0: Byte, b1: Byte, b2: Byte, b3: Byte, w: Word)
    ensures WordBytes(BigEndian(b0, b1, b2, b3)) == [b0, b1, b2, b3]
    ensures var b := WordBytes(w); BigEndian(b[0], b[1], b[2], b[3]) == w
    ensures BigEndian(b0, b1, b2, b3) >> 24 == b0 as Word
  {
  }

  // ---------------------------------------------------------------------------
  // The digest of "abc"
  // ---------------------------------------------------------------------------

  /** Eight rounds. */
  function Eight(v: Vars, k: seq<Word>, w: seq<Word>): Vars
    requires |k| == |w| == 8
  {
    var v4 := Round(Round(Round(Round(v, k[0], w[0]), k[1], w[1]), k[2], w[2]), k[3], w[3]);
    Round(Round(Round(Round(v4, k[4], w[4]), k[5], w[5]), k[6], w[6]), k[7], w[7])
  }

  /** Eight words of the schedule. */
  function ScheduleRow(block: seq<Byte>, r: nat): (row: seq<Word>)
    requires |block| == BLOCK
    ensures |row| == 8
  {
    var t := 8 * r;
    [Schedule(block, t), Schedule(block, t + 1), Schedule(block, t + 2), Schedule(block, t + 3),
     Schedule(block, t + 4), Schedule(block, t + 5), Schedule(block, t + 6), Schedule(block, t + 7)]
  }

  /** The eight words after the sixteen in `a` and `b`. */
  function NextRow(a: seq<Word>, b: seq<Word>): (row: seq<Word>)
    requires |a| == |b| == 8
    ensures |row| == 8
  {
    var n0, n1 := Extend(b[6], b[1], a[1], a[0]), Extend(b[7], b[2], a[2], a[1]);
    var n2, n3 := Extend(n0, b[3], a[3], a[2]), Extend(n1, b[4], a[4], a[3]);
    var n4, n5 := Extend(n2, b[5], a[5], a[4]), Extend(n3, b[6], a[6], a[5]);
    [n0, n1, n2, n3, n4, n5, Extend(n4, b[7], a[7], a[6]), Extend(n5, n0, b[0], a[7])]
  }

  lemma NextRowIs(a: seq<Word>, b: seq<Word>, n: seq<Word>)
    requires |a| == |b| == |n| == 8
    requires n[0] == Extend(b[6], b[1], a[1], a[0]) && n[1] == Extend(b[7], b[2], a[2], a[1])
    requires n[2] == Extend(n[0], b[3], a[3], a[2]) && n[3] == Extend(n[1], b[4], a[4], a[3])
    requires n[4] == Extend(n[2], b[5], a[5], a[4]) && n[5] == Extend(n[3], b[6], a[6], a[5])
    requires n[6] == Extend(n[4], b[7], a[7], a[6]) && n[7] == Extend(n[5], n[0], b[0], a[7])
    ensures n == NextRow(a, b)
  {
    hide Extend;
  }

  lemma RowEntries(block: seq<Byte>, r: nat)
    requires |block| == BLOCK
    ensures var row, t := ScheduleRow(block, r), 8 * r;
            && row[0] == Schedule(block, t) && row[1] == Schedule(block, t + 1)
            && row[2] == Schedule(block, t + 2) && row[3] == Schedule(block, t + 3)
            && row[4] == Schedule(block, t + 4) && row[5] == Schedule(block, t + 5)
            && row[6] == Schedule(block, t + 6) && row[7] == Schedule(block, t + 7)
  {
    hide Schedule;
  }

  lemma RowIsNext(block: seq<Byte>, r: nat)
    requires |block| == BLOCK && 2 <= r
    ensures ScheduleRow(block, r) == NextRow(ScheduleRow(block, r - 2), ScheduleRow(block, r - 1))
  {
    hide Schedule, ScheduleRow, Extend, NextRow;
    RowEntries(block, r - 2);
    RowEntries(block, r - 1);
    RowEntries(block, r);
    var t := 8 * r;
    ScheduleStep(block, t);
    ScheduleStep(block, t + 1);
    ScheduleStep(block, t + 2);
    ScheduleStep(block, t + 3);
    ScheduleStep(block, t + 4);
    ScheduleStep(block, t + 5);
    ScheduleStep(block, t + 6);
    ScheduleStep(block, t + 7);
    NextRowIs(ScheduleRow(block, r - 2), ScheduleRow(block, r - 1), ScheduleRow(block, r));
  }

  lemma EightRounds(v: Vars, block: seq<Byte>, r: nat)
    requires |block| == BLOCK && r < 8
    ensures Rounds(v, block, 8 * r + 8) == Eight(Rounds(v, block, 8 * r), ConstantRow(r), ScheduleRow(block, r))
  {
    hide Schedule, Round, Rounds, ConstantRow, RoundConstants;
    var t := 8 * r;
    RowInTable(r);
    OneRound(v, block, t);
    OneRound(v, block, t + 1);
    OneRound(v, block, t + 2);
    OneRound(v, block, t + 3);
    OneRound(v, block, t + 4);
    OneRound(v, block, t + 5);
    OneRound(v, block, t + 6);
    OneRound(v, block, t + 7);
  }

  lemma RowInTable(r: nat)
    requires r < 8
    ensures forall j :: 0 <= j < 8 ==> RoundConstants()[8 * r + j] == ConstantRow(r)[j]
  {
    hide ConstantRow;
  }

  const ABC: seq<Byte> := [0x61, 0x62, 0x63]

  lemma Length24()
    ensures LengthBytes(24) == [0, 0, 0, 0, 0, 0, 0, 24]
  {
    assert Digits(24, 8) == [0, 0, 0, 0, 0, 0, 0, 24];
  }

  /** The one padded block. */
  lemma AbcBlock()
    ensures PaddedBlocks(3) == 1 && |Pad(ABC)| == BLOCK
    ensures Pad(ABC)[..4] == [0x61, 0x62, 0x63, 0x80] && Pad(ABC)[63] == 24
    ensures forall i :: 4 <= i < 63 ==> Pad(ABC)[i] == 0
  {
    hide LengthBytes;
    Length24();
    assert ZeroCount(3) == 52;
  }

  /** The first sixteen words: the message with its 0x80 byte, zeros, and 24 bits. */
  function FirstWord(t: nat): Word {
    if t == 0 then 0x61626380 else if t == 15 then 24 else 0
  }

  lemma FirstWords(t: nat)
    requires |Pad(ABC)| == BLOCK && t < 16
    ensures Schedule(Pad(ABC), t) == FirstWord(t)
  {
    hide Pad, BigEndian;
    AbcBlock();
    var block := Pad(ABC);
    assert block[..4][0] == block[0] && block[..4][1] == block[1];
    assert block[..4][2] == block[2] && block[..4][3] == block[3];
    ScheduleStart(block, t);
    Numbers();
  }

  lemma Numbers()
    ensures BigEndian(0x61, 0x62, 0x63, 0x80) == 0x61626380
    ensures BigEndian(0, 0, 0, 0) == 0 && BigEndian(0, 0, 0, 24) == 24
  {
  }

  lemma Words0()
    requires |Pad(ABC)| == BLOCK
    ensures ScheduleRow(Pad(ABC), 0) ==
            [0x61626380, 0x00000000, 0x00000000, 0x00000000, 0x00000000, 0x00000000, 0x00000000, 0x00000000]
  {
    hide Pad, Schedule;
    for t := 0 to 8
      invariant forall u :: 0 <= u < t ==> Schedule(Pad(ABC), u) == FirstWord(u)
    {
      FirstWords(t);
    }
  }

  lemma Words1()
    requires |Pad(ABC)| == BLOCK
    ensures ScheduleRow(Pad(ABC), 1) ==
            [0x00000000, 0x00000000, 0x00000000, 0x00000000, 0x00000000, 0x00000000, 0x00000000, 0x00000018]
  {
    hide Pad, Schedule;
    for t := 8 to 16
      invariant forall u :: 8 <= u < t ==> Schedule(Pad(ABC), u) == FirstWord(u)
    {
      FirstWords(t);
    }
  }

  lemma Words2()
    requires |Pad(ABC)| == BLOCK
    ensures ScheduleRow(Pad(ABC), 2) ==
            [0x61626380, 0x000f0000, 0x7da86405, 0x600003c6, 0x3e9d7b78, 0x0183fc00, 0x12dcbfdb, 0xe2e2c38e]
  {
    hide Pad, ScheduleRow;
    Words0();
    Words1();
    RowIsNext(Pad(ABC), 2);
  }

  lemma Words3()
    requires |Pad(ABC)| == BLOCK
    ensures ScheduleRow(Pad(ABC), 3) ==
            [0xc8215c1a, 0xb73679a2, 0xe5bc3909, 0x32663c5b, 0x9d209d67, 0xec8726cb, 0x702138a4, 0xd3b7973b]
  {
    hide Pad, ScheduleRow;
    Words1();
    Words2();
    RowIsNext(Pad(ABC), 3);
  }

  lemma Words4()
    requires |Pad(ABC)| == BLOCK
    ensures ScheduleRow(Pad(ABC), 4) ==
            [0x93f5997f, 0x3b68ba73, 0xaff4ffc1, 0xf10a5c62, 0x0a8b3996, 0x72af830a, 0x9409e33e, 0x24641522]
  {
    hide Pad, ScheduleRow;
    Words2();
    Words3();
    RowIsNext(Pad(ABC), 4);
  }

  lemma Words5()
    requires |Pad(ABC)| == BLOCK
    ensures ScheduleRow(Pad(ABC), 5) ==
            [0x9f47bf94, 0xf0a64f5a, 0x3e246a79, 0x27333ba3, 0x0c4763f2, 0x840abf27, 0x7a290d5d, 0x065c43da]
  {
    hide Pad, ScheduleRow;
    Words3();
    Words4();
    RowIsNext(Pad(ABC), 5);
  }

  lemma Words6()
    requires |Pad(ABC)| == BLOCK
    ensures ScheduleRow(Pad(ABC), 6) ==
            [0xfb3e89cb, 0xcc7617db, 0xb9e66c34, 0xa9993667, 0x84badedd, 0xc21462bc, 0x1487472c, 0xb20f7a99]
  {
    hide Pad, ScheduleRow;
    Words4();
    Words5();
    RowIsNext(Pad(ABC), 6);
  }

  lemma Words7()
    requires |Pad(ABC)| == BLOCK
    ensures ScheduleRow(Pad(ABC), 7) ==
            [0xef57b9cd, 0xebe6b238, 0x9fe3095e, 0x78bc8d4b, 0xa43fcf15, 0x668b2ff8, 0xeeaba2cc, 0x12b1edeb]
  {
    hide Pad, ScheduleRow;
    Words5();
    Words6();
    RowIsNext(Pad(ABC), 7);
  }

  /** The working variables after 8 * r rounds. */
  ghost function AbcAfter(r: nat): Vars
    requires |Pad(ABC)| == BLOCK && r <= 8
  {
    Rounds(Start(InitialHash()), Pad(ABC), 8 * r)
  }

  lemma AbcEight(r: nat)
    requires |Pad(ABC)| == BLOCK && r < 8
    ensures AbcAfter(r + 1) == Eight(AbcAfter(r), ConstantRow(r), ScheduleRow(Pad(ABC), r))
  {
    hide Pad, Eight, Rounds, ConstantRow, ScheduleRow, Start, InitialHash;
    EightRounds(Start(InitialHash()), Pad(ABC), r);
  }

  lemma After0()
    requires |Pad(ABC)| == BLOCK
    ensures AbcAfter(0) ==
            Vars(0x6a09e667, 0xbb67ae85, 0x3c6ef372, 0xa54ff53a, 0x510e527f, 0x9b05688c, 0x1f83d9ab, 0x5be0cd19)
  {
    hide Pad, Rounds;
    NoRounds(Start(InitialHash()), Pad(ABC));
  }

  lemma After1()
    requires |Pad(ABC)| == BLOCK
    ensures AbcAfter(1) ==
            Vars(0x85a07b5f, 0xe5030380, 0x2b4209f5, 0x04409a6a, 0x0c657a79, 0x9b27a401, 0x714260ad, 0x43ada245)
  {
    hide AbcAfter, Pad, ScheduleRow;
    After0();
    AbcEight(0);
    Words0();
  }

  lemma After2()
    requires |Pad(ABC)| == BLOCK
    ensures AbcAfter(2) ==
            Vars(0xb0fa238e, 0xc0645fde, 0xd932eb16, 0x87912990, 0x07590dcd, 0x0b92f20c, 0x745a48de, 0x1e578218)
  {
    hide AbcAfter, Pad, ScheduleRow;
    After1();
    AbcEight(1);
    Words1();
  }

  lemma After3()
    requires |Pad(ABC)| == BLOCK
    ensures AbcAfter(3) ==
            Vars(0xc5d53d8d, 0xa7a3623f, 0xc2606d6d, 0x9dc68b63, 0xaa47c347, 0x49f5114a, 0xe1257970, 0x8ada8930)
  {
    hide AbcAfter, Pad, ScheduleRow;
    After2();
    AbcEight(2);
    Words2();
  }

  lemma After4()
    requires |Pad(ABC)| == BLOCK
    ensures AbcAfter(4) ==
            Vars(0x73b33bf5, 0xea992a22, 0xa0060b30, 0x363482c9, 0xba591112, 0x0109ab3a, 0xade79437, 0x6112a3b7)
  {
    hide AbcAfter, Pad, ScheduleRow;
    After3();
    AbcEight(3);
    Words3();
  }

  lemma After5()
    requires |Pad(ABC)| == BLOCK
    ensures AbcAfter(5) ==
            Vars(0x79ea687a, 0x6dc57a8a, 0x34df1604, 0x41a65cb1, 0x1efbc0a0, 0xf0781bc8, 0xa507a53d, 0x0772a26b)
  {
    hide AbcAfter, Pad, ScheduleRow;
    After4();
    AbcEight(4);
    Words4();
  }

  lemma After6()
    requires |Pad(ABC)| == BLOCK
    ensures AbcAfter(6) ==
            Vars(0x4172328d, 0xa14c14b0, 0x72ab4b91, 0x26628815, 0xfecf0bc6, 0xd57b94a9, 0xb7755da1, 0xa80f11f0)
  {
    hide AbcAfter, Pad, ScheduleRow;
    After5();
    AbcEight(5);
    Words5();
  }

  lemma After7()
    requires |Pad(ABC)| == BLOCK
    ensures AbcAfter(7) ==
            Vars(0x38cc9913, 0x3ec45cdb, 0xf5702fdb, 0x101fd28f, 0x54cb266b, 0xe50e1b4f, 0x9f4787c3, 0x529e7d00)
  {
    hide AbcAfter, Pad, ScheduleRow;
    After6();
    AbcEight(6);
    Words6();
  }

  lemma After8()
    requires |Pad(ABC)| == BLOCK
    ensures AbcAfter(8) ==
            Vars(0x506e3058, 0xd39a2165, 0x04d24d6c, 0xb85e2ce9, 0x5ef50f24, 0xfb121210, 0x948d25b6, 0x961f4894)
  {
    hide AbcAfter, Pad, ScheduleRow;
    After7();
    AbcEight(7);
    Words7();
  }

  lemma AbcCompressed()
    requires |Pad(ABC)| == BLOCK
    ensures Compress(InitialHash(), Pad(ABC)) ==
            [0xba7816bf, 0x8f01cfea, 0x414140de, 0x5dae2223, 0xb00361a3, 0x96177a9c, 0xb410ff61, 0xf20015ad]
  {
    hide Pad, Rounds;
    After8();
  }

  lemma DigestNone()
    ensures Digest([]) == []
  {
  }

  lemma DigestSnoc(all: seq<Word>, hash: seq<Word>, w: Word)
    requires all == hash + [w]
    ensures Digest(all) == Digest(hash) + WordBytes(w)
  {
    hide WordBytes;
    assert all[..|hash|] == hash;
  }

  lemma DigestOf(h0: Word, h1: Word, h2: Word, h3: Word, h4: Word, h5: Word, h6: Word, h7: Word)
    ensures Digest([h0, h1, h2, h3, h4, h5, h6, h7]) ==
            WordBytes(h0) + WordBytes(h1) + WordBytes(h2) + WordBytes(h3) +
            WordBytes(h4) + WordBytes(h5) + WordBytes(h6) + WordBytes(h7)
  {
    hide WordBytes, Digest;
    DigestNone();
    DigestSnoc([h0], [], h0);
    DigestSnoc([h0, h1], [h0], h1);
    DigestSnoc([h0, h1, h2], [h0, h1], h2);
    DigestSnoc([h0, h1, h2, h3], [h0, h1, h2], h3);
    DigestSnoc([h0, h1, h2, h3, h4], [h0, h1, h2, h3], h4);
    DigestSnoc([h0, h1, h2, h3, h4, h5], [h0, h1, h2, h3, h4], h5);
    DigestSnoc([h0, h1, h2, h3, h4, h5, h6], [h0, h1, h2, h3, h4, h5], h6);
    DigestSnoc([h0, h1, h2, h3, h4, h5, h6, h7], [h0, h1, h2, h3, h4, h5, h6], h7);
  }

  lemma AbcBytes()
    ensures WordBytes(0xba7816bf) == [0xba, 0x78, 0x16, 0xbf]
    ensures WordBytes(0x8f01cfea) == [0x8f, 0x01, 0xcf, 0xea]
    ensures WordBytes(0x414140de) == [0x41, 0x41, 0x40, 0xde]
    ensures WordBytes(0x5dae2223) == [0x5d, 0xae, 0x22, 0x23]
    ensures WordBytes(0xb00361a3) == [0xb0, 0x03, 0x61, 0xa3]
    ensures WordBytes(0x96177a9c) == [0x96, 0x17, 0x7a, 0x9c]
    ensures WordBytes(0xb410ff61) == [0xb4, 0x10, 0xff, 0x61]
    ensures WordBytes(0xf20015ad) == [0xf2, 0x00, 0x15, 0xad]
  {
  }

  lemma AbcHash()
    ensures Hash(ABC) ==
            Digest([0xba7816bf, 0x8f01cfea, 0x414140de, 0x5dae2223, 0xb00361a3, 0x96177a9c, 0xb410ff61, 0xf20015ad])
  {
    AbcBlock();
    AbcCompressed();
    hide Compress, Pad, InitialHash, Digest;
    var block := Pad(ABC);
    AbsorbNone(InitialHash(), block);
    AbsorbNext(InitialHash(), block, 0);
    assert block[At(0)..At(0) + BLOCK] == block;
  }

  /** The example of the standard: the digest of "abc". */
  lemma AbcDigest()
    ensures Hash(ABC) ==
            [0xba, 0x78, 0x16, 0xbf, 0x8f, 0x01, 0xcf, 0xea, 0x41, 0x41, 0x40, 0xde, 0x5d, 0xae, 0x22, 0x23,
             0xb0, 0x03, 0x61, 0xa3, 0x96, 0x17, 0x7a, 0x9c, 0xb4, 0x10, 0xff, 0x61, 0xf2, 0x00, 0x15, 0xad]
  {
    hide Hash, Digest, WordBytes;
    AbcHash();
    DigestOf(0xba7816bf, 0x8f01cfea, 0x414140de, 0x5dae2223, 0xb00361a3, 0x96177a9c, 0xb410ff61, 0xf20015ad);
    AbcBytes();
  }
}
