/** Digests of the test suite in appendix A.5 of RFC 1321. */
module Md5Suite {
  import opened MachineWords
  import opened Container
  import opened Md5

  // ---------- the listing of section 3.4: word, shift and constant of every operation ----------

  lemma FirstRound()
    ensures RfcIndex(0) == 0 && RfcShift(0) == 7 && T(0) == 0xd76aa478
    ensures RfcIndex(1) == 1 && RfcShift(1) == 12 && T(1) == 0xe8c7b756
    ensures RfcIndex(2) == 2 && RfcShift(2) == 17 && T(2) == 0x242070db
    ensures RfcIndex(3) == 3 && RfcShift(3) == 22 && T(3) == 0xc1bdceee
    ensures RfcIndex(4) == 4 && RfcShift(4) == 7 && T(4) == 0xf57c0faf
    ensures RfcIndex(5) == 5 && RfcShift(5) == 12 && T(5) == 0x4787c62a
    ensures RfcIndex(6) == 6 && RfcShift(6) == 17 && T(6) == 0xa8304613
    ensures RfcIndex(7) == 7 && RfcShift(7) == 22 && T(7) == 0xfd469501
    ensures RfcIndex(8) == 8 && RfcShift(8) == 7 && T(8) == 0x698098d8
    ensures RfcIndex(9) == 9 && RfcShift(9) == 12 && T(9) == 0x8b44f7af
    ensures RfcIndex(10) == 10 && RfcShift(10) == 17 && T(10) == 0xffff5bb1
    ensures RfcIndex(11) == 11 && RfcShift(11) == 22 && T(11) == 0x895cd7be
    ensures RfcIndex(12) == 12 && RfcShift(12) == 7 && T(12) == 0x6b901122
    ensures RfcIndex(13) == 13 && RfcShift(13) == 12 && T(13) == 0xfd987193
    ensures RfcIndex(14) == 14 && RfcShift(14) == 17 && T(14) == 0xa679438e
    ensures RfcIndex(15) == 15 && RfcShift(15) == 22 && T(15) == 0x49b40821
  {
    hide T, RfcShift, RfcIndex;
    FirstIndices();
    FirstShifts();
    FirstConstants();
    FirstMoreConstants();
  }

  lemma FirstIndices()
    ensures RfcIndex(0) == 0 && RfcIndex(1) == 1 && RfcIndex(2) == 2 && RfcIndex(3) == 3
    ensures RfcIndex(4) == 4 && RfcIndex(5) == 5 && RfcIndex(6) == 6 && RfcIndex(7) == 7
    ensures RfcIndex(8) == 8 && RfcIndex(9) == 9 && RfcIndex(10) == 10 && RfcIndex(11) == 11
    ensures RfcIndex(12) == 12 && RfcIndex(13) == 13 && RfcIndex(14) == 14 && RfcIndex(15) == 15
  {
    hide RfcIndex;
    forall i | 0 <= i < 16 ensures RfcIndex(i) == i { IndexFormulas(i); }
  }

  lemma FirstShifts()
    ensures RfcShift(0) == 7 && RfcShift(1) == 12 && RfcShift(2) == 17 && RfcShift(3) == 22
    ensures RfcShift(4) == 7 && RfcShift(5) == 12 && RfcShift(6) == 17 && RfcShift(7) == 22
    ensures RfcShift(8) == 7 && RfcShift(9) == 12 && RfcShift(10) == 17 && RfcShift(11) == 22
    ensures RfcShift(12) == 7 && RfcShift(13) == 12 && RfcShift(14) == 17 && RfcShift(15) == 22
  {
  }

  lemma FirstConstants()
    ensures T(0) == 0xd76aa478 && T(1) == 0xe8c7b756
    ensures T(2) == 0x242070db && T(3) == 0xc1bdceee
    ensures T(4) == 0xf57c0faf && T(5) == 0x4787c62a
    ensures T(6) == 0xa8304613 && T(7) == 0xfd469501
  {
  }

  lemma FirstMoreConstants()
    ensures T(8) == 0x698098d8 && T(9) == 0x8b44f7af
    ensures T(10) == 0xffff5bb1 && T(11) == 0x895cd7be
    ensures T(12) == 0x6b901122 && T(13) == 0xfd987193
    ensures T(14) == 0xa679438e && T(15) == 0x49b40821
  {
  }

  lemma SecondRound()
    ensures RfcIndex(16) == 1 && RfcShift(16) == 5 && T(16) == 0xf61e2562
    ensures RfcIndex(17) == 6 && RfcShift(17) == 9 && T(17) == 0xc040b340
    ensures RfcIndex(18) == 11 && RfcShift(18) == 14 && T(18) == 0x265e5a51
    ensures RfcIndex(19) == 0 && RfcShift(19) == 20 && T(19) == 0xe9b6c7aa
    ensures RfcIndex(20) == 5 && RfcShift(20) == 5 && T(20) == 0xd62f105d
    ensures RfcIndex(21) == 10 && RfcShift(21) == 9 && T(21) == 0x02441453
    ensures RfcIndex(22) == 15 && RfcShift(22) == 14 && T(22) == 0xd8a1e681
    ensures RfcIndex(23) == 4 && RfcShift(23) == 20 && T(23) == 0xe7d3fbc8
    ensures RfcIndex(24) == 9 && RfcShift(24) == 5 && T(24) == 0x21e1cde6
    ensures RfcIndex(25) == 14 && RfcShift(25) == 9 && T(25) == 0xc33707d6
    ensures RfcIndex(26) == 3 && RfcShift(26) == 14 && T(26) == 0xf4d50d87
    ensures RfcIndex(27) == 8 && RfcShift(27) == 20 && T(27) == 0x455a14ed
    ensures RfcIndex(28) == 13 && RfcShift(28) == 5 && T(28) == 0xa9e3e905
    ensures RfcIndex(29) == 2 && RfcShift(29) == 9 && T(29) == 0xfcefa3f8
    ensures RfcIndex(30) == 7 && RfcShift(30) == 14 && T(30) == 0x676f02d9
    ensures RfcIndex(31) == 12 && RfcShift(31) == 20 && T(31) == 0x8d2a4c8a
  {
    hide T, RfcShift, RfcIndex;
    SecondIndices();
    SecondShifts();
    SecondConstants();
    SecondMoreConstants();
  }

  lemma SecondIndices()
    ensures RfcIndex(16) == 1 && RfcIndex(17) == 6 && RfcIndex(18) == 11 && RfcIndex(19) == 0
    ensures RfcIndex(20) == 5 && RfcIndex(21) == 10 && RfcIndex(22) == 15 && RfcIndex(23) == 4
    ensures RfcIndex(24) == 9 && RfcIndex(25) == 14 && RfcIndex(26) == 3 && RfcIndex(27) == 8
    ensures RfcIndex(28) == 13 && RfcIndex(29) == 2 && RfcIndex(30) == 7 && RfcIndex(31) == 12
  {
    hide RfcIndex;
    forall i | 16 <= i < 32 ensures RfcIndex(i) == (5 * i + 1) % 16 { IndexFormulas(i); }
  }

  lemma SecondShifts()
    ensures RfcShift(16) == 5 && RfcShift(17) == 9 && RfcShift(18) == 14 && RfcShift(19) == 20
    ensures RfcShift(20) == 5 && RfcShift(21) == 9 && RfcShift(22) == 14 && RfcShift(23) == 20
    ensures RfcShift(24) == 5 && RfcShift(25) == 9 && RfcShift(26) == 14 && RfcShift(27) == 20
    ensures RfcShift(28) == 5 && RfcShift(29) == 9 && RfcShift(30) == 14 && RfcShift(31) == 20
  {
  }

  lemma SecondConstants()
    ensures T(16) == 0xf61e2562 && T(17) == 0xc040b340
    ensures T(18) == 0x265e5a51 && T(19) == 0xe9b6c7aa
    ensures T(20) == 0xd62f105d && T(21) == 0x02441453
    ensures T(22) == 0xd8a1e681 && T(23) == 0xe7d3fbc8
  {
  }

  lemma SecondMoreConstants()
    ensures T(24) == 0x21e1cde6 && T(25) == 0xc33707d6
    ensures T(26) == 0xf4d50d87 && T(27) == 0x455a14ed
    ensures T(28) == 0xa9e3e905 && T(29) == 0xfcefa3f8
    ensures T(30) == 0x676f02d9 && T(31) == 0x8d2a4c8a
  {
  }

  lemma ThirdRound()
    ensures RfcIndex(32) == 5 && RfcShift(32) == 4 && T(32) == 0xfffa3942
    ensures RfcIndex(33) == 8 && RfcShift(33) == 11 && T(33) == 0x8771f681
    ensures RfcIndex(34) == 11 && RfcShift(34) == 16 && T(34) == 0x6d9d6122
    ensures RfcIndex(35) == 14 && RfcShift(35) == 23 && T(35) == 0xfde5380c
    ensures RfcIndex(36) == 1 && RfcShift(36) == 4 && T(36) == 0xa4beea44
    ensures RfcIndex(37) == 4 && RfcShift(37) == 11 && T(37) == 0x4bdecfa9
    ensures RfcIndex(38) == 7 && RfcShift(38) == 16 && T(38) == 0xf6bb4b60
    ensures RfcIndex(39) == 10 && RfcShift(39) == 23 && T(39) == 0xbebfbc70
    ensures RfcIndex(40) == 13 && RfcShift(40) == 4 && T(40) == 0x289b7ec6
    ensures RfcIndex(41) == 0 && RfcShift(41) == 11 && T(41) == 0xeaa127fa
    ensures RfcIndex(42) == 3 && RfcShift(42) == 16 && T(42) == 0xd4ef3085
    ensures RfcIndex(43) == 6 && RfcShift(43) == 23 && T(43) == 0x04881d05
    ensures RfcIndex(44) == 9 && RfcShift(44) == 4 && T(44) == 0xd9d4d039
    ensures RfcIndex(45) == 12 && RfcShift(45) == 11 && T(45) == 0xe6db99e5
    ensures RfcIndex(46) == 15 && RfcShift(46) == 16 && T(46) == 0x1fa27cf8
    ensures RfcIndex(47) == 2 && RfcShift(47) == 23 && T(47) == 0xc4ac5665
  {
    hide T, RfcShift, RfcIndex;
    ThirdIndices();
    ThirdShifts();
    ThirdConstants();
    ThirdMoreConstants();
  }

  lemma ThirdIndices()
    ensures RfcIndex(32) == 5 && RfcIndex(33) == 8 && RfcIndex(34) == 11 && RfcIndex(35) == 14
    ensures RfcIndex(36) == 1 && RfcIndex(37) == 4 && RfcIndex(38) == 7 && RfcIndex(39) == 10
    ensures RfcIndex(40) == 13 && RfcIndex(41) == 0 && RfcIndex(42) == 3 && RfcIndex(43) == 6
    ensures RfcIndex(44) == 9 && RfcIndex(45) == 12 && RfcIndex(46) == 15 && RfcIndex(47) == 2
  {
    hide RfcIndex;
    forall i | 32 <= i < 48 ensures RfcIndex(i) == (3 * i + 5) % 16 { IndexFormulas(i); }
  }

  lemma ThirdShifts()
    ensures RfcShift(32) == 4 && RfcShift(33) == 11 && RfcShift(34) == 16 && RfcShift(35) == 23
    ensures RfcShift(36) == 4 && RfcShift(37) == 11 && RfcShift(38) == 16 && RfcShift(39) == 23
    ensures RfcShift(40) == 4 && RfcShift(41) == 11 && RfcShift(42) == 16 && RfcShift(43) == 23
    ensures RfcShift(44) == 4 && RfcShift(45) == 11 && RfcShift(46) == 16 && RfcShift(47) == 23
  {
  }

  lemma ThirdConstants()
    ensures T(32) == 0xfffa3942 && T(33) == 0x8771f681
    ensures T(34) == 0x6d9d6122 && T(35) == 0xfde5380c
    ensures T(36) == 0xa4beea44 && T(37) == 0x4bdecfa9
    ensures T(38) == 0xf6bb4b60 && T(39) == 0xbebfbc70
  {
  }

  lemma ThirdMoreConstants()
    ensures T(40) == 0x289b7ec6 && T(41) == 0xeaa127fa
    ensures T(42) == 0xd4ef3085 && T(43) == 0x04881d05
    ensures T(44) == 0xd9d4d039 && T(45) == 0xe6db99e5
    ensures T(46) == 0x1fa27cf8 && T(47) == 0xc4ac5665
  {
  }

  lemma FourthRound()
    ensures RfcIndex(48) == 0 && RfcShift(48) == 6 && T(48) == 0xf4292244
    ensures RfcIndex(49) == 7 && RfcShift(49) == 10 && T(49) == 0x432aff97
    ensures RfcIndex(50) == 14 && RfcShift(50) == 15 && T(50) == 0xab9423a7
    ensures RfcIndex(51) == 5 && RfcShift(51) == 21 && T(51) == 0xfc93a039
    ensures RfcIndex(52) == 12 && RfcShift(52) == 6 && T(52) == 0x655b59c3
    ensures RfcIndex(53) == 3 && RfcShift(53) == 10 && T(53) == 0x8f0ccc92
    ensures RfcIndex(54) == 10 && RfcShift(54) == 15 && T(54) == 0xffeff47d
    ensures RfcIndex(55) == 1 && RfcShift(55) == 21 && T(55) == 0x85845dd1
    ensures RfcIndex(56) == 8 && RfcShift(56) == 6 && T(56) == 0x6fa87e4f
    ensures RfcIndex(57) == 15 && RfcShift(57) == 10 && T(57) == 0xfe2ce6e0
    ensures RfcIndex(58) == 6 && RfcShift(58) == 15 && T(58) == 0xa3014314
    ensures RfcIndex(59) == 13 && RfcShift(59) == 21 && T(59) == 0x4e0811a1
    ensures RfcIndex(60) == 4 && RfcShift(60) == 6 && T(60) == 0xf7537e82
    ensures RfcIndex(61) == 11 && RfcShift(61) == 10 && T(61) == 0xbd3af235
    ensures RfcIndex(62) == 2 && RfcShift(62) == 15 && T(62) == 0x2ad7d2bb
    ensures RfcIndex(63) == 9 && RfcShift(63) == 21 && T(63) == 0xeb86d391
  {
    hide T, RfcShift, RfcIndex;
    FourthIndices();
    FourthShifts();
    FourthConstants();
    FourthMoreConstants();
  }

  lemma FourthIndices()
    ensures RfcIndex(48) == 0 && RfcIndex(49) == 7 && RfcIndex(50) == 14 && RfcIndex(51) == 5
    ensures RfcIndex(52) == 12 && RfcIndex(53) == 3 && RfcIndex(54) == 10 && RfcIndex(55) == 1
    ensures RfcIndex(56) == 8 && RfcIndex(57) == 15 && RfcIndex(58) == 6 && RfcIndex(59) == 13
    ensures RfcIndex(60) == 4 && RfcIndex(61) == 11 && RfcIndex(62) == 2 && RfcIndex(63) == 9
  {
    hide RfcIndex;
    forall i | 48 <= i < 64 ensures RfcIndex(i) == 7 * i % 16 { IndexFormulas(i); }
  }

  lemma FourthShifts()
    ensures RfcShift(48) == 6 && RfcShift(49) == 10 && RfcShift(50) == 15 && RfcShift(51) == 21
    ensures RfcShift(52) == 6 && RfcShift(53) == 10 && RfcShift(54) == 15 && RfcShift(55) == 21
    ensures RfcShift(56) == 6 && RfcShift(57) == 10 && RfcShift(58) == 15 && RfcShift(59) == 21
    ensures RfcShift(60) == 6 && RfcShift(61) == 10 && RfcShift(62) == 15 && RfcShift(63) == 21
  {
  }

  lemma FourthConstants()
    ensures T(48) == 0xf4292244 && T(49) == 0x432aff97
    ensures T(50) == 0xab9423a7 && T(51) == 0xfc93a039
    ensures T(52) == 0x655b59c3 && T(53) == 0x8f0ccc92
    ensures T(54) == 0xffeff47d && T(55) == 0x85845dd1
  {
  }

  lemma FourthMoreConstants()
    ensures T(56) == 0x6fa87e4f && T(57) == 0xfe2ce6e0
    ensures T(58) == 0xa3014314 && T(59) == 0x4e0811a1
    ensures T(60) == 0xf7537e82 && T(61) == 0xbd3af235
    ensures T(62) == 0x2ad7d2bb && T(63) == 0xeb86d391
  {
  }

  /** Four operations bring the registers round to their places. */
  lemma FourOperations(start: Registers, x: seq<word>, i: nat, r: Registers, s: Registers)
    requires |x| == 16 && i % 4 == 0 && i + 4 <= 64 && RfcSteps(start, x, i) == r
    requires s.a == Operation(r.a, r.b, r.c, r.d, x, i)
    requires s.d == Operation(r.d, s.a, r.b, r.c, x, i + 1)
    requires s.c == Operation(r.c, s.d, s.a, r.b, x, i + 2)
    requires s.b == Operation(r.b, s.c, s.d, s.a, x, i + 3)
    ensures RfcSteps(start, x, i + 4) == s
  {
    hide Operation;
    assert (i + 1) % 4 == 1 && (i + 2) % 4 == 2 && (i + 3) % 4 == 3;
    assert RfcSteps(start, x, i + 1) == r.(a := s.a);
    assert RfcSteps(start, x, i + 2) == r.(a := s.a, d := s.d);
    assert RfcSteps(start, x, i + 3) == r.(a := s.a, d := s.d, c := s.c);
  }

  lemma NoSteps(start: Registers, x: seq<word>)
    requires |x| == 16
    ensures RfcSteps(start, x, 0) == start
  {
  }

  // ---------- the empty text ----------

  ghost predicate EmptyWords(x: seq<word>) {
    && |x| == 16
    && x[0] == 0x80 && x[1] == 0x00 && x[2] == 0x00 && x[3] == 0x00
    && x[4] == 0x00 && x[5] == 0x00 && x[6] == 0x00 && x[7] == 0x00
    && x[8] == 0x00 && x[9] == 0x00 && x[10] == 0x00 && x[11] == 0x00
    && x[12] == 0x00 && x[13] == 0x00 && x[14] == 0x00 && x[15] == 0x00
  }

  lemma EmptyFirst(start: Registers, x: seq<word>)
    requires EmptyWords(x)
    requires start == Registers(0x67452301, 0xefcdab89, 0x98badcfe, 0x10325476)
    ensures RfcSteps(start, x, 16) == Registers(0xf56c7cf1, 0xd6819c6a, 0x5aa53f75, 0x374943a7)
  {
    hide RfcSteps, RfcStep, T, RfcIndex, RfcShift;
    FirstRound();
    NoSteps(start, x);
    var r1 := Registers(0xa5202774, 0x1b163203, 0xe7f06b23, 0xf59592dd);
    var r2 := Registers(0x32033344, 0x9bc13ce9, 0xf5b158db, 0x2f35d494);
    var r3 := Registers(0x3893b991, 0x70768a29, 0xe1ef0576, 0xfce4a312);
    var r4 := Registers(0xf56c7cf1, 0xd6819c6a, 0x5aa53f75, 0x374943a7);
    FourOperations(start, x, 0, start, r1);
    FourOperations(start, x, 4, r1, r2);
    FourOperations(start, x, 8, r2, r3);
    FourOperations(start, x, 12, r3, r4);
  }

  lemma EmptySecond(start: Registers, x: seq<word>)
    requires EmptyWords(x)
    requires RfcSteps(start, x, 16) == Registers(0xf56c7cf1, 0xd6819c6a, 0x5aa53f75, 0x374943a7)
    ensures RfcSteps(start, x, 32) == Registers(0x13707036, 0xa2205f1f, 0x1c31c384, 0xae7813db)
  {
    hide RfcSteps, RfcStep, T, RfcIndex, RfcShift;
    SecondRound();
    var r := Registers(0xf56c7cf1, 0xd6819c6a, 0x5aa53f75, 0x374943a7);
    var r1 := Registers(0x1c7d7513, 0xbd782e17, 0xc095f13a, 0x7bd57a3a);
    var r2 := Registers(0x3d1e3e6c, 0xe422531a, 0xeb41643e, 0x68b7b3e3);
    var r3 := Registers(0x306ec122, 0xa0572807, 0xa3c663da, 0xd28c77c2);
    var r4 := Registers(0x13707036, 0xa2205f1f, 0x1c31c384, 0xae7813db);
    FourOperations(start, x, 16, r, r1);
    FourOperations(start, x, 20, r1, r2);
    FourOperations(start, x, 24, r2, r3);
    FourOperations(start, x, 28, r3, r4);
  }

  lemma EmptyThird(start: Registers, x: seq<word>)
    requires EmptyWords(x)
    requires RfcSteps(start, x, 32) == Registers(0x13707036, 0xa2205f1f, 0x1c31c384, 0xae7813db)
    ensures RfcSteps(start, x, 48) == Registers(0x3f55edfd, 0xca7d2dbd, 0x68d84ea2, 0x22a31f54)
  {
    hide RfcSteps, RfcStep, T, RfcIndex, RfcShift;
    ThirdRound();
    var r := Registers(0x13707036, 0xa2205f1f, 0x1c31c384, 0xae7813db);
    var r1 := Registers(0xdf63eaa1, 0x004b6669, 0x12f3e755, 0xc3689f5b);
    var r2 := Registers(0x5f7a9b2e, 0xc5dc8c15, 0x91ca4cb7, 0xabc34e16);
    var r3 := Registers(0x4497169d, 0x0fe32453, 0xfd95f243, 0x76fd93d4);
    var r4 := Registers(0x3f55edfd, 0xca7d2dbd, 0x68d84ea2, 0x22a31f54);
    FourOperations(start, x, 32, r, r1);
    FourOperations(start, x, 36, r1, r2);
    FourOperations(start, x, 40, r2, r3);
    FourOperations(start, x, 44, r3, r4);
  }

  lemma EmptyFourth(start: Registers, x: seq<word>)
    requires EmptyWords(x)
    requires RfcSteps(start, x, 48) == Registers(0x3f55edfd, 0xca7d2dbd, 0x68d84ea2, 0x22a31f54)
    ensures RfcSteps(start, x, 64) == Registers(0x7246fad3, 0x14e45506, 0xff4ea3eb, 0x6e10a476)
  {
    hide RfcSteps, RfcStep, T, RfcIndex, RfcShift;
    FourthRound();
    var r := Registers(0x3f55edfd, 0xca7d2dbd, 0x68d84ea2, 0x22a31f54);
    var r1 := Registers(0x93aa2577, 0x561e0689, 0xcd85b8cb, 0x1688dc85);
    var r2 := Registers(0x5625a114, 0x1e77fa61, 0x392ad0d0, 0x3450f42b);
    var r3 := Registers(0x474a9c8c, 0x30130182, 0x36594b14, 0xdfce00bc);
    var r4 := Registers(0x7246fad3, 0x14e45506, 0xff4ea3eb, 0x6e10a476);
    FourOperations(start, x, 48, r, r1);
    FourOperations(start, x, 52, r1, r2);
    FourOperations(start, x, 56, r2, r3);
    FourOperations(start, x, 60, r3, r4);
  }

  lemma EmptyBlock(start: Registers, block: seq<byte>)
    requires start == Registers(0x67452301, 0xefcdab89, 0x98badcfe, 0x10325476)
    requires |block| == 64 && EmptyWords(Words(block))
    ensures RfcBlock(start, block) == Registers(0xd98c1dd4, 0x04b2008f, 0x980980e9, 0x7e42f8ec)
  {
    hide RfcSteps, RfcStep, EmptyWords, Words;
    EmptyFirst(start, Words(block));
    EmptySecond(start, Words(block));
    EmptyThird(start, Words(block));
    EmptyFourth(start, Words(block));
  }

  // ---------- "abc" ----------

  ghost predicate AbcWords(x: seq<word>) {
    && |x| == 16
    && x[0] == 0x80636261 && x[1] == 0x00 && x[2] == 0x00 && x[3] == 0x00
    && x[4] == 0x00 && x[5] == 0x00 && x[6] == 0x00 && x[7] == 0x00
    && x[8] == 0x00 && x[9] == 0x00 && x[10] == 0x00 && x[11] == 0x00
    && x[12] == 0x00 && x[13] == 0x00 && x[14] == 0x18 && x[15] == 0x00
  }

  lemma AbcFirst(start: Registers, x: seq<word>)
    requires AbcWords(x)
    requires start == Registers(0x67452301, 0xefcdab89, 0x98badcfe, 0x10325476)
    ensures RfcSteps(start, x, 16) == Registers(0xdda9b9a6, 0x72aff2e0, 0xe396856b, 0xa1051895)
  {
    hide RfcSteps, RfcStep, T, RfcIndex, RfcShift;
    FirstRound();
    NoSteps(start, x);
    var r1 := Registers(0xd6d117b4, 0x7ad956f2, 0x2f6fbd72, 0x344a8432);
    var r2 := Registers(0xc73741ef, 0x928d99f6, 0x207dc67b, 0x8bac3051);
    var r3 := Registers(0x854b3712, 0x5ed49596, 0x3020401c, 0x74e2f284);
    var r4 := Registers(0xdda9b9a6, 0x72aff2e0, 0xe396856b, 0xa1051895);
    FourOperations(start, x, 0, start, r1);
    FourOperations(start, x, 4, r1, r2);
    FourOperations(start, x, 8, r2, r3);
    FourOperations(start, x, 12, r3, r4);
  }

  lemma AbcSecond(start: Registers, x: seq<word>)
    requires AbcWords(x)
    requires RfcSteps(start, x, 16) == Registers(0xdda9b9a6, 0x72aff2e0, 0xe396856b, 0xa1051895)
    ensures RfcSteps(start, x, 32) == Registers(0x790a77fb, 0x726342d3, 0xa62884aa, 0x9f47e4f8)
  {
    hide RfcSteps, RfcStep, T, RfcIndex, RfcShift;
    SecondRound();
    var r := Registers(0xdda9b9a6, 0x72aff2e0, 0xe396856b, 0xa1051895);
    var r1 := Registers(0x3e9e9126, 0xb5b204e4, 0xe25e1652, 0x4a1d804e);
    var r2 := Registers(0x59a8ffda, 0x47092c07, 0xabfc7920, 0x6d002f1e);
    var r3 := Registers(0xb7f268cf, 0x786acb8f, 0xfe1623b1, 0x09388eff);
    var r4 := Registers(0x790a77fb, 0x726342d3, 0xa62884aa, 0x9f47e4f8);
    FourOperations(start, x, 16, r, r1);
    FourOperations(start, x, 20, r1, r2);
    FourOperations(start, x, 24, r2, r3);
    FourOperations(start, x, 28, r3, r4);
  }

  lemma AbcThird(start: Registers, x: seq<word>)
    requires AbcWords(x)
    requires RfcSteps(start, x, 32) == Registers(0x790a77fb, 0x726342d3, 0xa62884aa, 0x9f47e4f8)
    ensures RfcSteps(start, x, 48) == Registers(0x7f2e507b, 0x7beb9700, 0x8fae6399, 0x99d9679d)
  {
    hide RfcSteps, RfcStep, T, RfcIndex, RfcShift;
    ThirdRound();
    var r := Registers(0x790a77fb, 0x726342d3, 0xa62884aa, 0x9f47e4f8);
    var r1 := Registers(0xb3707ebf, 0x3b0875c7, 0x8d212ff5, 0x60127b2e);
    var r2 := Registers(0x21b117b9, 0x5a2f5ea5, 0x3575227e, 0x6e7429d5);
    var r3 := Registers(0x11de1779, 0x4c6124f4, 0x31c465ca, 0xfadcaa38);
    var r4 := Registers(0x7f2e507b, 0x7beb9700, 0x8fae6399, 0x99d9679d);
    FourOperations(start, x, 32, r, r1);
    FourOperations(start, x, 36, r1, r2);
    FourOperations(start, x, 40, r2, r3);
    FourOperations(start, x, 44, r3, r4);
  }

  lemma AbcFourth(start: Registers, x: seq<word>)
    requires AbcWords(x)
    requires RfcSteps(start, x, 48) == Registers(0x7f2e507b, 0x7beb9700, 0x8fae6399, 0x99d9679d)
    ensures RfcSteps(start, x, 64) == Registers(0x310ade8f, 0xc08226b3, 0xe484b9d8, 0x624d8cb2)
  {
    hide RfcSteps, RfcStep, T, RfcIndex, RfcShift;
    FourthRound();
    var r := Registers(0x7f2e507b, 0x7beb9700, 0x8fae6399, 0x99d9679d);
    var r1 := Registers(0x7b201df8, 0x8bf025c4, 0xb298cefd, 0xf4e8e96e);
    var r2 := Registers(0x06cc5e8a, 0x3bfa2c27, 0x7d632dd0, 0x5b0d97aa);
    var r3 := Registers(0x7f81cc35, 0x7327d604, 0x4f9dbe3f, 0x094454ab);
    var r4 := Registers(0x310ade8f, 0xc08226b3, 0xe484b9d8, 0x624d8cb2);
    FourOperations(start, x, 48, r, r1);
    FourOperations(start, x, 52, r1, r2);
    FourOperations(start, x, 56, r2, r3);
    FourOperations(start, x, 60, r3, r4);
  }

  lemma AbcBlock(start: Registers, block: seq<byte>)
    requires start == Registers(0x67452301, 0xefcdab89, 0x98badcfe, 0x10325476)
    requires |block| == 64 && AbcWords(Words(block))
    ensures RfcBlock(start, block) == Registers(0x98500190, 0xb04fd23c, 0x7d3f96d6, 0x727fe128)
  {
    hide RfcSteps, RfcStep, AbcWords, Words;
    AbcFirst(start, Words(block));
    AbcSecond(start, Words(block));
    AbcThird(start, Words(block));
    AbcFourth(start, Words(block));
  }

  // ---------- letters and digits, first block ----------

  ghost predicate AlnumHeadWords(x: seq<word>) {
    && |x| == 16
    && x[0] == 0x44434241 && x[1] == 0x48474645 && x[2] == 0x4c4b4a49 && x[3] == 0x504f4e4d
    && x[4] == 0x54535251 && x[5] == 0x58575655 && x[6] == 0x62615a59 && x[7] == 0x66656463
    && x[8] == 0x6a696867 && x[9] == 0x6e6d6c6b && x[10] == 0x7271706f && x[11] == 0x76757473
    && x[12] == 0x7a797877 && x[13] == 0x33323130 && x[14] == 0x37363534 && x[15] == 0x00803938
  }

  lemma AlnumHeadFirst(start: Registers, x: seq<word>)
    requires AlnumHeadWords(x)
    requires start == Registers(0x67452301, 0xefcdab89, 0x98badcfe, 0x10325476)
    ensures RfcSteps(start, x, 16) == Registers(0x3cbdcd45, 0x5d38e690, 0xfa148c8a, 0xb8dec763)
  {
    hide RfcSteps, RfcStep, T, RfcIndex, RfcShift;
    FirstRound();
    NoSteps(start, x);
    var r1 := Registers(0xc6c10796, 0x27bce07a, 0x11067980, 0x99a09999);
    var r2 := Registers(0xf22e6c4e, 0xa4799506, 0xa95a2fc0, 0xb4ac9218);
    var r3 := Registers(0x1eb3e7c1, 0x8a7612ec, 0xca27520b, 0xa6e70cfe);
    var r4 := Registers(0x3cbdcd45, 0x5d38e690, 0xfa148c8a, 0xb8dec763);
    FourOperations(start, x, 0, start, r1);
    FourOperations(start, x, 4, r1, r2);
    FourOperations(start, x, 8, r2, r3);
    FourOperations(start, x, 12, r3, r4);
  }

  lemma AlnumHeadSecond(start: Registers, x: seq<word>)
    requires AlnumHeadWords(x)
    requires RfcSteps(start, x, 16) == Registers(0x3cbdcd45, 0x5d38e690, 0xfa148c8a, 0xb8dec763)
    ensures RfcSteps(start, x, 32) == Registers(0x9b085fa9, 0xdd789ecc, 0x5993248f, 0x4400a9bd)
  {
    hide RfcSteps, RfcStep, T, RfcIndex, RfcShift;
    SecondRound();
    var r := Registers(0x3cbdcd45, 0x5d38e690, 0xfa148c8a, 0xb8dec763);
    var r1 := Registers(0x04b9d52a, 0x47ae7c81, 0xd3ee3ed1, 0x783002eb);
    var r2 := Registers(0x2d7d8a3f, 0x75292030, 0x4b534dc3, 0xd1210823);
    var r3 := Registers(0x9d2a6e33, 0xf2ff6ea0, 0xd473b564, 0x0e8d2e44);
    var r4 := Registers(0x9b085fa9, 0xdd789ecc, 0x5993248f, 0x4400a9bd);
    FourOperations(start, x, 16, r, r1);
    FourOperations(start, x, 20, r1, r2);
    FourOperations(start, x, 24, r2, r3);
    FourOperations(start, x, 28, r3, r4);
  }

  lemma AlnumHeadThird(start: Registers, x: seq<word>)
    requires AlnumHeadWords(x)
    requires RfcSteps(start, x, 32) == Registers(0x9b085fa9, 0xdd789ecc, 0x5993248f, 0x4400a9bd)
    ensures RfcSteps(start, x, 48) == Registers(0x2dbee21d, 0xf166f514, 0xee46e961, 0xe95c3a43)
  {
    hide RfcSteps, RfcStep, T, RfcIndex, RfcShift;
    ThirdRound();
    var r := Registers(0x9b085fa9, 0xdd789ecc, 0x5993248f, 0x4400a9bd);
    var r1 := Registers(0x21c8d2b7, 0x1b9504f8, 0x056ec119, 0x1d55a18e);
    var r2 := Registers(0x436b7fe9, 0xcf0341ed, 0xf404c2f6, 0x075800c1);
    var r3 := Registers(0x888e7d8a, 0x047b9419, 0xce620273, 0xbbdaecd8);
    var r4 := Registers(0x2dbee21d, 0xf166f514, 0xee46e961, 0xe95c3a43);
    FourOperations(start, x, 32, r, r1);
    FourOperations(start, x, 36, r1, r2);
    FourOperations(start, x, 40, r2, r3);
    FourOperations(start, x, 44, r3, r4);
  }

  lemma AlnumHeadFourth(start: Registers, x: seq<word>)
    requires AlnumHeadWords(x)
    requires RfcSteps(start, x, 48) == Registers(0x2dbee21d, 0xf166f514, 0xee46e961, 0xe95c3a43)
    ensures RfcSteps(start, x, 64) == Registers(0x1cb80f0a, 0xef2e3a46, 0x10f68731, 0xea3d3eb4)
  {
    hide RfcSteps, RfcStep, T, RfcIndex, RfcShift;
    FourthRound();
    var r := Registers(0x2dbee21d, 0xf166f514, 0xee46e961, 0xe95c3a43);
    var r1 := Registers(0xe47fd4f3, 0x7a13bc5c, 0xf22aedcc, 0xfb887751);
    var r2 := Registers(0xa691d430, 0xefb0e72f, 0x3fc23df6, 0x528452f2);
    var r3 := Registers(0x27145703, 0x49d9a5b4, 0x374fbe79, 0x21a11069);
    var r4 := Registers(0x1cb80f0a, 0xef2e3a46, 0x10f68731, 0xea3d3eb4);
    FourOperations(start, x, 48, r, r1);
    FourOperations(start, x, 52, r1, r2);
    FourOperations(start, x, 56, r2, r3);
    FourOperations(start, x, 60, r3, r4);
  }

  lemma AlnumHeadBlock(start: Registers, block: seq<byte>)
    requires start == Registers(0x67452301, 0xefcdab89, 0x98badcfe, 0x10325476)
    requires |block| == 64 && AlnumHeadWords(Words(block))
    ensures RfcBlock(start, block) == Registers(0x83fd320b, 0xdefbe5cf, 0xa9b1642f, 0xfa6f932a)
  {
    hide RfcSteps, RfcStep, AlnumHeadWords, Words;
    AlnumHeadFirst(start, Words(block));
    AlnumHeadSecond(start, Words(block));
    AlnumHeadThird(start, Words(block));
    AlnumHeadFourth(start, Words(block));
  }

  // ---------- letters and digits, second block ----------

  ghost predicate AlnumTailWords(x: seq<word>) {
    && |x| == 16
    && x[0] == 0x00 && x[1] == 0x00 && x[2] == 0x00 && x[3] == 0x00
    && x[4] == 0x00 && x[5] == 0x00 && x[6] == 0x00 && x[7] == 0x00
    && x[8] == 0x00 && x[9] == 0x00 && x[10] == 0x00 && x[11] == 0x00
    && x[12] == 0x00 && x[13] == 0x00 && x[14] == 0x000001f0 && x[15] == 0x00
  }

  lemma AlnumTailFirst(start: Registers, x: seq<word>)
    requires AlnumTailWords(x)
    requires start == Registers(0x83fd320b, 0xdefbe5cf, 0xa9b1642f, 0xfa6f932a)
    ensures RfcSteps(start, x, 16) == Registers(0xa70737da, 0xa36f556f, 0x96f6586e, 0x5473f8a7)
  {
    hide RfcSteps, RfcStep, T, RfcIndex, RfcShift;
    FirstRound();
    NoSteps(start, x);
    var r1 := Registers(0xeda23ed1, 0xddcf0634, 0x3c307338, 0x989939cf);
    var r2 := Registers(0x75144433, 0x99b6b699, 0xc783cb60, 0xc8875807);
    var r3 := Registers(0xa60a3f69, 0x64cc7c5a, 0x64db26e9, 0xaa6630be);
    var r4 := Registers(0xa70737da, 0xa36f556f, 0x96f6586e, 0x5473f8a7);
    FourOperations(start, x, 0, start, r1);
    FourOperations(start, x, 4, r1, r2);
    FourOperations(start, x, 8, r2, r3);
    FourOperations(start, x, 12, r3, r4);
  }

  lemma AlnumTailSecond(start: Registers, x: seq<word>)
    requires AlnumTailWords(x)
    requires RfcSteps(start, x, 16) == Registers(0xa70737da, 0xa36f556f, 0x96f6586e, 0x5473f8a7)
    ensures RfcSteps(start, x, 32) == Registers(0x24eba695, 0x9c03e2e8, 0x10c42a2f, 0x4bd0378b)
  {
    hide RfcSteps, RfcStep, T, RfcIndex, RfcShift;
    SecondRound();
    var r := Registers(0xa70737da, 0xa36f556f, 0x96f6586e, 0x5473f8a7);
    var r1 := Registers(0xa5050ad3, 0x82b8827c, 0x27dcd8b4, 0x28776046);
    var r2 := Registers(0xe04f070c, 0xdf35cb56, 0xc0d22b61, 0x2f3cd2a2);
    var r3 := Registers(0x242dd210, 0x2291191a, 0x5c295967, 0x576ace33);
    var r4 := Registers(0x24eba695, 0x9c03e2e8, 0x10c42a2f, 0x4bd0378b);
    FourOperations(start, x, 16, r, r1);
    FourOperations(start, x, 20, r1, r2);
    FourOperations(start, x, 24, r2, r3);
    FourOperations(start, x, 28, r3, r4);
  }

  lemma AlnumTailThird(start: Registers, x: seq<word>)
    requires AlnumTailWords(x)
    requires RfcSteps(start, x, 32) == Registers(0x24eba695, 0x9c03e2e8, 0x10c42a2f, 0x4bd0378b)
    ensures RfcSteps(start, x, 48) == Registers(0x54c9eb3a, 0x79c0710a, 0x2ec86f72, 0xd4d9c6ac)
  {
    hide RfcSteps, RfcStep, T, RfcIndex, RfcShift;
    ThirdRound();
    var r := Registers(0x24eba695, 0x9c03e2e8, 0x10c42a2f, 0x4bd0378b);
    var r1 := Registers(0x5be1d526, 0xa2448453, 0x9f4a1a7e, 0x9e414279);
    var r2 := Registers(0xe14e403d, 0xfe314121, 0x60cc183a, 0xe8cfd670);
    var r3 := Registers(0xfff62809, 0x7c7e974c, 0x8cb5221c, 0xe37209ac);
    var r4 := Registers(0x54c9eb3a, 0x79c0710a, 0x2ec86f72, 0xd4d9c6ac);
    FourOperations(start, x, 32, r, r1);
    FourOperations(start, x, 36, r1, r2);
    FourOperations(start, x, 40, r2, r3);
    FourOperations(start, x, 44, r3, r4);
  }

  lemma AlnumTailFourth(start: Registers, x: seq<word>)
    requires AlnumTailWords(x)
    requires RfcSteps(start, x, 48) == Registers(0x54c9eb3a, 0x79c0710a, 0x2ec86f72, 0xd4d9c6ac)
    ensures RfcSteps(start, x, 64) == Registers(0x14ae42c6, 0x16dd9203, 0x826afd76, 0xa52dae75)
  {
    hide RfcSteps, RfcStep, T, RfcIndex, RfcShift;
    FourthRound();
    var r := Registers(0x54c9eb3a, 0x79c0710a, 0x2ec86f72, 0xd4d9c6ac);
    var r1 := Registers(0x02095af1, 0x2ba98e3f, 0xa8dcfe26, 0x13d245fd);
    var r2 := Registers(0xe126c1aa, 0xfb7bcee0, 0x6f287ff5, 0x96b00fa7);
    var r3 := Registers(0x452c1099, 0x5ac74608, 0xc197ea8e, 0xca801ba6);
    var r4 := Registers(0x14ae42c6, 0x16dd9203, 0x826afd76, 0xa52dae75);
    FourOperations(start, x, 48, r, r1);
    FourOperations(start, x, 52, r1, r2);
    FourOperations(start, x, 56, r2, r3);
    FourOperations(start, x, 60, r3, r4);
  }

  lemma AlnumTailBlock(start: Registers, block: seq<byte>)
    requires start == Registers(0x83fd320b, 0xdefbe5cf, 0xa9b1642f, 0xfa6f932a)
    requires |block| == 64 && AlnumTailWords(Words(block))
    ensures RfcBlock(start, block) == Registers(0x98ab74d1, 0xf5d977d2, 0x2c1c61a5, 0x9f9d419f)
  {
    hide RfcSteps, RfcStep, AlnumTailWords, Words;
    AlnumTailFirst(start, Words(block));
    AlnumTailSecond(start, Words(block));
    AlnumTailThird(start, Words(block));
    AlnumTailFourth(start, Words(block));
  }

  // ---------- the digests ----------

  lemma WordAt(block: seq<byte>, k: nat, a: byte, b: byte, c: byte, d: byte)
    requires |block| == 64 && k < 16
    requires block[4 * k] == a && block[4 * k + 1] == b && block[4 * k + 2] == c && block[4 * k + 3] == d
    ensures Words(block)[k] == Join32(a, b, c, d)
  {
    hide Join32;
  }

  lemma ZeroWords(block: seq<byte>, from: nat, to: nat)
    requires |block| == 64 && from <= to <= 16
    requires forall i :: 4 * from <= i < 4 * to ==> block[i] == 0
    ensures forall k :: from <= k < to ==> Words(block)[k] == 0
  {
    hide Join32, Words;
    NothingJoined();
    forall k | from <= k < to ensures Words(block)[k] == 0 {
      WordAt(block, k, 0, 0, 0, 0);
    }
  }

  lemma NothingJoined()
    ensures Join32(0, 0, 0, 0) == 0
  {
  }

  /** The length of a text shorter than 8192 bytes takes two bytes. */
  lemma LengthWords(front: seq<byte>, n: nat, lo: byte, hi: byte)
    requires |front| == 56 && LengthBytes(n) == [lo, hi, 0, 0, 0, 0, 0, 0]
    ensures var x := Words(front + LengthBytes(n)); x[14] == Join32(lo, hi, 0, 0) && x[15] == 0
  {
    hide Join32, Words, LengthBytes;
    var block := front + LengthBytes(n);
    forall i | 0 <= i < 8 ensures block[56 + i] == LengthBytes(n)[i] {}
    NothingJoined();
    WordAt(block, 14, lo, hi, 0, 0);
    WordAt(block, 15, 0, 0, 0, 0);
  }

  lemma ShortDigest(m: seq<byte>)
    requires |m| <= 55
    ensures RfcMd5(m) == Output(RfcBlock(START, m + [0x80] + Zeros(55 - |m|) + LengthBytes(|m|)))
  {
    hide RfcBlock, RfcBlocks, LengthBytes, Padding, Output;
    TailBlocks(START, m, |m|);
  }

  lemma EmptyDigest()
    ensures RfcMd5([]) ==
            [0xd4, 0x1d, 0x8c, 0xd9, 0x8f, 0x00, 0xb2, 0x04, 0xe9, 0x80, 0x09, 0x98, 0xec, 0xf8, 0x42, 0x7e]
  {
    hide RfcMd5, RfcBlock, Words, LengthBytes, Padding, Join32;
    var front := [] + [0x80] + Zeros(55);
    var block := front + LengthBytes(0);
    ShortDigest([]);
    NoLength();
    LengthWords(front, 0, 0, 0);
    WordAt(block, 0, 0x80, 0, 0, 0);
    ZeroWords(block, 1, 14);
    EmptyJoined();
    EmptyBlock(START, block);
    EmptyOutput();
  }

  lemma EmptyJoined()
    ensures Join32(0x80, 0, 0, 0) == 0x80 && Join32(0, 0, 0, 0) == 0
  {
  }

  lemma NoLength()
    ensures LengthBytes(0) == [0, 0, 0, 0, 0, 0, 0, 0]
  {
    hide PutLe32, Low, High, BitLength;
    NoBits();
    NoFields();
  }

  lemma NoBits()
    ensures BitLength(0) == 0
  {
    assert 0 * 8 % 0x1_0000_0000_0000_0000 == 0;
  }

  lemma NoFields()
    ensures PutLe32(Low(0)) == [0, 0, 0, 0] && PutLe32(High(0)) == [0, 0, 0, 0]
  {
  }

  lemma EmptyOutput()
    ensures Output(Registers(0xd98c1dd4, 0x04b2008f, 0x980980e9, 0x7e42f8ec)) ==
            [0xd4, 0x1d, 0x8c, 0xd9, 0x8f, 0x00, 0xb2, 0x04, 0xe9, 0x80, 0x09, 0x98, 0xec, 0xf8, 0x42, 0x7e]
  {
  }

  lemma AbcDigest()
    ensures RfcMd5([0x61, 0x62, 0x63]) ==
            [0x90, 0x01, 0x50, 0x98, 0x3c, 0xd2, 0x4f, 0xb0, 0xd6, 0x96, 0x3f, 0x7d, 0x28, 0xe1, 0x7f, 0x72]
  {
    hide RfcMd5, RfcBlock, Words, LengthBytes, Padding, Join32;
    var abc: seq<byte> := [0x61, 0x62, 0x63];
    var front := abc + [0x80] + Zeros(52);
    var block := front + LengthBytes(3);
    ShortDigest(abc);
    AbcLength();
    LengthWords(front, 3, 24, 0);
    WordAt(block, 0, 0x61, 0x62, 0x63, 0x80);
    ZeroWords(block, 1, 14);
    AbcJoined();
    AbcBlock(START, block);
    AbcOutput();
  }

  lemma AbcJoined()
    ensures Join32(0x61, 0x62, 0x63, 0x80) == 0x80636261 && Join32(24, 0, 0, 0) == 24
  {
  }

  lemma AbcLength()
    ensures LengthBytes(3) == [24, 0, 0, 0, 0, 0, 0, 0]
  {
    hide PutLe32, Low, High, BitLength;
    AbcBits();
    AbcFields();
  }

  lemma AbcBits()
    ensures BitLength(3) == 24
  {
    assert 3 * 8 % 0x1_0000_0000_0000_0000 == 24;
  }

  lemma AbcFields()
    ensures PutLe32(Low(24)) == [24, 0, 0, 0] && PutLe32(High(24)) == [0, 0, 0, 0]
  {
  }

  lemma AbcOutput()
    ensures Output(Registers(0x98500190, 0xb04fd23c, 0x7d3f96d6, 0x727fe128)) ==
            [0x90, 0x01, 0x50, 0x98, 0x3c, 0xd2, 0x4f, 0xb0, 0xd6, 0x96, 0x3f, 0x7d, 0x28, 0xe1, 0x7f, 0x72]
  {
  }

  const ALNUM0: seq<byte> :=
    [0x41, 0x42, 0x43, 0x44, 0x45, 0x46, 0x47, 0x48, 0x49, 0x4a, 0x4b, 0x4c, 0x4d, 0x4e, 0x4f, 0x50]
  const ALNUM1: seq<byte> :=
    [0x51, 0x52, 0x53, 0x54, 0x55, 0x56, 0x57, 0x58, 0x59, 0x5a, 0x61, 0x62, 0x63, 0x64, 0x65, 0x66]
  const ALNUM2: seq<byte> :=
    [0x67, 0x68, 0x69, 0x6a, 0x6b, 0x6c, 0x6d, 0x6e, 0x6f, 0x70, 0x71, 0x72, 0x73, 0x74, 0x75, 0x76]
  const ALNUM3: seq<byte> :=
    [0x77, 0x78, 0x79, 0x7a, 0x30, 0x31, 0x32, 0x33, 0x34, 0x35, 0x36, 0x37, 0x38, 0x39]

  /** "A" to "Z", "a" to "z", "0" to "9". */
  function Alnum(): (m: seq<byte>)
    ensures |m| == 62
  {
    ALNUM0 + ALNUM1 + ALNUM2 + ALNUM3
  }

  /** Its 62 bytes leave no room for the length, so the padding takes a second block. */
  lemma AlnumDigest()
    ensures RfcMd5(Alnum()) ==
            [0xd1, 0x74, 0xab, 0x98, 0xd2, 0x77, 0xd9, 0xf5, 0xa5, 0x61, 0x1c, 0x2c, 0x9f, 0x41, 0x9d, 0x9f]
  {
    hide RfcBlock, RfcBlocks, Words, LengthBytes, Padding, Output, Alnum;
    var head, tail := Alnum() + [0x80] + Zeros(1), Zeros(56) + LengthBytes(62);
    TailBlocks(START, Alnum(), 62);
    AlnumHeadHolds();
    AlnumHeadBlock(START, head);
    AlnumTailHolds();
    AlnumTailBlock(RfcBlock(START, head), tail);
    AlnumOutput();
  }

  /** Sixteen bytes are four words. */
  lemma FourWords(block: seq<byte>, k: nat, row: seq<byte>)
    requires |block| == 64 && k < 4 && |row| == 16 && block[16 * k..16 * k + 16] == row
    ensures var x := Words(block);
            && x[4 * k] == Join32(row[0], row[1], row[2], row[3])
            && x[4 * k + 1] == Join32(row[4], row[5], row[6], row[7])
            && x[4 * k + 2] == Join32(row[8], row[9], row[10], row[11])
            && x[4 * k + 3] == Join32(row[12], row[13], row[14], row[15])
  {
    hide Join32, Words;
    forall j | 0 <= j < 16 ensures block[16 * k + j] == row[j] {}
    WordAt(block, 4 * k, row[0], row[1], row[2], row[3]);
    WordAt(block, 4 * k + 1, row[4], row[5], row[6], row[7]);
    WordAt(block, 4 * k + 2, row[8], row[9], row[10], row[11]);
    WordAt(block, 4 * k + 3, row[12], row[13], row[14], row[15]);
  }

  lemma Quarters(m: seq<byte>, a: seq<byte>, b: seq<byte>, c: seq<byte>, d: seq<byte>)
    requires |a| == |b| == |c| == |d| == 16 && m == a + b + c + d
    ensures m[0..16] == a && m[16..32] == b && m[32..48] == c && m[48..64] == d
  {
  }

  lemma AlnumHeadHolds()
    ensures AlnumHeadWords(Words(Alnum() + [0x80] + Zeros(1)))
  {
    hide Words, Join32, ALNUM0, ALNUM1, ALNUM2, ALNUM3;
    var last := ALNUM3 + [0x80] + Zeros(1);
    var head := Alnum() + [0x80] + Zeros(1);
    FirstSixteen();
    SecondSixteen();
    ThirdSixteen();
    LastSixteen();
    Quarters(head, ALNUM0, ALNUM1, ALNUM2, last);
    FourWords(head, 0, ALNUM0);
    FourWords(head, 1, ALNUM1);
    FourWords(head, 2, ALNUM2);
    FourWords(head, 3, last);
  }

  lemma FirstSixteen()
    ensures var row := ALNUM0;
            && |row| == 16
            && Join32(row[0], row[1], row[2], row[3]) == 0x44434241
            && Join32(row[4], row[5], row[6], row[7]) == 0x48474645
            && Join32(row[8], row[9], row[10], row[11]) == 0x4c4b4a49
            && Join32(row[12], row[13], row[14], row[15]) == 0x504f4e4d
  {
  }

  lemma SecondSixteen()
    ensures var row := ALNUM1;
            && |row| == 16
            && Join32(row[0], row[1], row[2], row[3]) == 0x54535251
            && Join32(row[4], row[5], row[6], row[7]) == 0x58575655
            && Join32(row[8], row[9], row[10], row[11]) == 0x62615a59
            && Join32(row[12], row[13], row[14], row[15]) == 0x66656463
  {
  }

  lemma ThirdSixteen()
    ensures var row := ALNUM2;
            && |row| == 16
            && Join32(row[0], row[1], row[2], row[3]) == 0x6a696867
            && Join32(row[4], row[5], row[6], row[7]) == 0x6e6d6c6b
            && Join32(row[8], row[9], row[10], row[11]) == 0x7271706f
            && Join32(row[12], row[13], row[14], row[15]) == 0x76757473
  {
  }

  lemma LastSixteen()
    ensures var row := ALNUM3 + [0x80] + Zeros(1);
            && |row| == 16
            && Join32(row[0], row[1], row[2], row[3]) == 0x7a797877
            && Join32(row[4], row[5], row[6], row[7]) == 0x33323130
            && Join32(row[8], row[9], row[10], row[11]) == 0x37363534
            && Join32(row[12], row[13], row[14], row[15]) == 0x00803938
  {
    assert Zeros(1)[0] == 0;
  }
  lemma AlnumTailHolds()
    ensures AlnumTailWords(Words(Zeros(56) + LengthBytes(62)))
  {
    hide Words, LengthBytes, Join32;
    AlnumLength();
    LengthWords(Zeros(56), 62, 0xf0, 0x01);
    ZeroWords(Zeros(56) + LengthBytes(62), 0, 14);
    assert Join32(0xf0, 0x01, 0, 0) == 0x1f0 by { AlnumLengthJoined(); }
  }

  lemma AlnumLengthJoined()
    ensures Join32(0xf0, 0x01, 0, 0) == 0x1f0
  {
  }

  lemma AlnumLength()
    ensures LengthBytes(62) == [0xf0, 0x01, 0, 0, 0, 0, 0, 0]
  {
    hide PutLe32, Low, High, BitLength;
    AlnumBits();
    AlnumFields();
  }

  lemma AlnumBits()
    ensures BitLength(62) == 496
  {
    assert 62 * 8 % 0x1_0000_0000_0000_0000 == 496;
  }

  lemma AlnumFields()
    ensures PutLe32(Low(496)) == [0xf0, 0x01, 0, 0] && PutLe32(High(496)) == [0, 0, 0, 0]
  {
  }

  lemma AlnumOutput()
    ensures Output(Registers(0x98ab74d1, 0xf5d977d2, 0x2c1c61a5, 0x9f9d419f)) ==
            [0xd1, 0x74, 0xab, 0x98, 0xd2, 0x77, 0xd9, 0xf5, 0xa5, 0x61, 0x1c, 0x2c, 0x9f, 0x41, 0x9d, 0x9f]
  {
  }
}
