/** The one-shot MD5 of the daemon against RFC 1321. */
module Md5 {
  import opened MachineWords
  import opened Container

  datatype Registers = Registers(a: word, b: word, c: word, d: word)

  // ---------- RFC 1321, section 3.4 ----------

  function RfcF(x: word, y: word, z: word): word { (x & y) | (!x & z) }

  function RfcG(x: word, y: word, z: word): word { (x & z) | (y & !z) }

  function RfcH(x: word, y: word, z: word): word { x ^ y ^ z }

  function RfcI(x: word, y: word, z: word): word { y ^ (x | !z) }

  function RfcMix(i: nat, x: word, y: word, z: word): word {
    if i < 16 then RfcF(x, y, z) else if i < 32 then RfcG(x, y, z) else if i < 48 then RfcH(x, y, z) else RfcI(x, y, z)
  }

  /** The word indices of a round, in the order its operations are listed. */
  function RfcRow(round: nat): (row: seq<nat>)
    ensures |row| == 16 && forall j :: 0 <= j < 16 ==> row[j] < 16
  {
    if round == 0 then [0, 1, 2, 3, 4, 5, 6, 7, 8, 9, 10, 11, 12, 13, 14, 15]
    else if round == 1 then [1, 6, 11, 0, 5, 10, 15, 4, 9, 14, 3, 8, 13, 2, 7, 12]
    else if round == 2 then [5, 8, 11, 14, 1, 4, 7, 10, 13, 0, 3, 6, 9, 12, 15, 2]
    else [0, 7, 14, 5, 12, 3, 10, 1, 8, 15, 6, 13, 4, 11, 2, 9]
  }

  function RfcIndex(i: nat): (k: nat)
    requires i < 64
    ensures k < 16
  {
    RfcRow(i / 16)[i % 16]
  }

  /** Each round repeats four shift amounts. */
  function RfcShift(i: nat): (s: nat)
    requires i < 64
    ensures 4 <= s <= 23
  {
    if i < 16 then [7, 12, 17, 22][i % 4]
    else if i < 32 then [5, 9, 14, 20][i % 4]
    else if i < 48 then [4, 11, 16, 23][i % 4]
    else [6, 10, 15, 21][i % 4]
  }

  /** One constant an operation, four rounds of sixteen. */
  function T(i: nat): word
    requires i < 64
  {
    if i < 16 then
      [0xd76aa478, 0xe8c7b756, 0x242070db, 0xc1bdceee, 0xf57c0faf, 0x4787c62a, 0xa8304613, 0xfd469501,
       0x698098d8, 0x8b44f7af, 0xffff5bb1, 0x895cd7be, 0x6b901122, 0xfd987193, 0xa679438e, 0x49b40821][i]
    else if i < 32 then
      [0xf61e2562, 0xc040b340, 0x265e5a51, 0xe9b6c7aa, 0xd62f105d, 0x02441453, 0xd8a1e681, 0xe7d3fbc8,
       0x21e1cde6, 0xc33707d6, 0xf4d50d87, 0x455a14ed, 0xa9e3e905, 0xfcefa3f8, 0x676f02d9, 0x8d2a4c8a][i - 16]
    else if i < 48 then
      [0xfffa3942, 0x8771f681, 0x6d9d6122, 0xfde5380c, 0xa4beea44, 0x4bdecfa9, 0xf6bb4b60, 0xbebfbc70,
       0x289b7ec6, 0xeaa127fa, 0xd4ef3085, 0x04881d05, 0xd9d4d039, 0xe6db99e5, 0x1fa27cf8, 0xc4ac5665][i - 32]
    else
      [0xf4292244, 0x432aff97, 0xab9423a7, 0xfc93a039, 0x655b59c3, 0x8f0ccc92, 0xffeff47d, 0x85845dd1,
       0x6fa87e4f, 0xfe2ce6e0, 0xa3014314, 0x4e0811a1, 0xf7537e82, 0xbd3af235, 0x2ad7d2bb, 0xeb86d391][i - 48]
  }

  function RotateLeft(x: word, s: nat): word
    requires s < 32
  {
    x.RotateLeft(s)
  }

  function Sum(p: word, q: word, r: word, s: word): word { p + q + r + s }

  /** `a = b + ((a + mix(b,c,d) + X[k] + T[i]) <<< s)`. */
  function Operation(a: word, b: word, c: word, d: word, x: seq<word>, i: nat): word
    requires |x| == 16 && i < 64
  {
    Add(b, RotateLeft(Sum(a, RfcMix(i, b, c, d), x[RfcIndex(i)], T(i)), RfcShift(i)))
  }

  /** The four registers take turns: ABCD, DABC, CDAB, BCDA. */
  function RfcStep(r: Registers, x: seq<word>, i: nat): Registers
    requires |x| == 16 && i < 64
  {
    if i % 4 == 0 then r.(a := Operation(r.a, r.b, r.c, r.d, x, i))
    else if i % 4 == 1 then r.(d := Operation(r.d, r.a, r.b, r.c, x, i))
    else if i % 4 == 2 then r.(c := Operation(r.c, r.d, r.a, r.b, x, i))
    else r.(b := Operation(r.b, r.c, r.d, r.a, x, i))
  }

  function RfcSteps(r: Registers, x: seq<word>, n: nat): Registers
    requires |x| == 16 && n <= 64
  {
    if n == 0 then r else RfcStep(RfcSteps(r, x, n - 1), x, n - 1)
  }

  function Words(block: seq<byte>): (x: seq<word>)
    requires |block| == 64
    ensures |x| == 16
  {
    seq(16, i requires 0 <= i < 16 => GetLe32(block[4 * i..4 * i + 4]))
  }

  function RfcBlock(r: Registers, block: seq<byte>): Registers
    requires |block| == 64
  {
    var s := RfcSteps(r, Words(block), 64);
    Registers(Add(r.a, s.a), Add(r.b, s.b), Add(r.c, s.c), Add(r.d, s.d))
  }

  // ---------- RFC 1321, sections 3.1 to 3.3 and 3.5 ----------

  function Zeros(n: nat): (z: seq<byte>)
    ensures |z| == n && forall i :: 0 <= i < n ==> z[i] == 0
  {
    seq(n, _ => 0)
  }

  /** The zeros that bring `n` bytes and the marker to 56 modulo 64. */
  function ZeroCount(n: nat): (k: nat)
    ensures k < 64 && (n + k + 9) % 64 == 0
  {
    if n % 64 <= 55 then 55 - n % 64 else 119 - n % 64
  }

  /** The length in bits, of which only the low 64 bits are used. */
  function BitLength(n: nat): long {
    (n * 8 % 0x1_0000_0000_0000_0000) as long
  }

  /** Low-order word first, each with its low-order byte first. */
  function LengthBytes(n: nat): (s: seq<byte>)
    ensures |s| == 8
  {
    PutLe64(BitLength(n))
  }

  function Padding(n: nat): (p: seq<byte>)
    ensures (n + |p|) % 64 == 0
  {
    [0x80] + Zeros(ZeroCount(n)) + LengthBytes(n)
  }

  const START := Registers(0x67452301, 0xefcdab89, 0x98badcfe, 0x10325476)

  function RfcBlocks(r: Registers, m: seq<byte>): Registers
    requires |m| % 64 == 0
    decreases |m|
  {
    if m == [] then r else RfcBlocks(RfcBlock(r, m[..64]), m[64..])
  }

  function Output(r: Registers): (s: seq<byte>)
    ensures |s| == 16
  {
    PutLe32(r.a) + PutLe32(r.b) + PutLe32(r.c) + PutLe32(r.d)
  }

  function RfcMd5(m: seq<byte>): (s: seq<byte>)
    ensures |s| == 16
  {
    Output(RfcBlocks(START, m + Padding(|m|)))
  }

  // ---------- the rewritten operations ----------

  function F(x: word, y: word, z: word): word { z ^ (x & (y ^ z)) }

  function G(x: word, y: word, z: word): word { y ^ (z & (x ^ y)) }

  function Rotl(x: word, n: nat): word
    requires 0 < n < 32
  {
    (x << n) | (x >> (32 - n))
  }

  function ShiftTable(i: nat): (s: nat)
    requires i < 64
  {
    var row := if i < 16 then [7, 12, 17, 22, 7, 12, 17, 22, 7, 12, 17, 22, 7, 12, 17, 22]
               else if i < 32 then [5, 9, 14, 20, 5, 9, 14, 20, 5, 9, 14, 20, 5, 9, 14, 20]
               else if i < 48 then [4, 11, 16, 23, 4, 11, 16, 23, 4, 11, 16, 23, 4, 11, 16, 23]
               else [6, 10, 15, 21, 6, 10, 15, 21, 6, 10, 15, 21, 6, 10, 15, 21];
    row[i % 16]
  }

  lemma FIsRfcF(x: word, y: word, z: word)
    ensures F(x, y, z) == RfcF(x, y, z)
  {
    FBits(x, y, z);
  }

  lemma FBits(x: bv32, y: bv32, z: bv32)
    ensures z ^ (x & (y ^ z)) == (x & y) | (!x & z)
  {
  }

  lemma GIsRfcG(x: word, y: word, z: word)
    ensures G(x, y, z) == RfcG(x, y, z)
  {
    GBits(x, y, z);
  }

  lemma GBits(x: bv32, y: bv32, z: bv32)
    ensures y ^ (z & (x ^ y)) == (x & z) | (y & !z)
  {
  }

  lemma RotlIsRotation(x: word, n: nat)
    requires 4 <= n <= 23
    ensures Rotl(x, n) == RotateLeft(x, n)
  {
    if n == 4 { assert (x << 4) | (x >> 28) == x.RotateLeft(4); }
    if n == 5 { assert (x << 5) | (x >> 27) == x.RotateLeft(5); }
    if n == 6 { assert (x << 6) | (x >> 26) == x.RotateLeft(6); }
    if n == 7 { assert (x << 7) | (x >> 25) == x.RotateLeft(7); }
    if n == 8 { assert (x << 8) | (x >> 24) == x.RotateLeft(8); }
    if n == 9 { assert (x << 9) | (x >> 23) == x.RotateLeft(9); }
    if n == 10 { assert (x << 10) | (x >> 22) == x.RotateLeft(10); }
    if n == 11 { assert (x << 11) | (x >> 21) == x.RotateLeft(11); }
    if n == 12 { assert (x << 12) | (x >> 20) == x.RotateLeft(12); }
    if n == 13 { assert (x << 13) | (x >> 19) == x.RotateLeft(13); }
    if n == 14 { assert (x << 14) | (x >> 18) == x.RotateLeft(14); }
    if n == 15 { assert (x << 15) | (x >> 17) == x.RotateLeft(15); }
    if n == 16 { assert (x << 16) | (x >> 16) == x.RotateLeft(16); }
    if n == 17 { assert (x << 17) | (x >> 15) == x.RotateLeft(17); }
    if n == 18 { assert (x << 18) | (x >> 14) == x.RotateLeft(18); }
    if n == 19 { assert (x << 19) | (x >> 13) == x.RotateLeft(19); }
    if n == 20 { assert (x << 20) | (x >> 12) == x.RotateLeft(20); }
    if n == 21 { assert (x << 21) | (x >> 11) == x.RotateLeft(21); }
    if n == 22 { assert (x << 22) | (x >> 10) == x.RotateLeft(22); }
    if n == 23 { assert (x << 23) | (x >> 9) == x.RotateLeft(23); }
  }

  lemma ShiftsAgree(i: nat)
    requires i < 64
    ensures ShiftTable(i) == RfcShift(i)
  {
    SixteenCases(i % 16);
    assert i % 16 % 4 == i % 4;
  }

  lemma SixteenCases(j: nat)
    requires j < 16
    ensures [7, 12, 17, 22, 7, 12, 17, 22, 7, 12, 17, 22, 7, 12, 17, 22][j] == [7, 12, 17, 22][j % 4]
    ensures [5, 9, 14, 20, 5, 9, 14, 20, 5, 9, 14, 20, 5, 9, 14, 20][j] == [5, 9, 14, 20][j % 4]
    ensures [4, 11, 16, 23, 4, 11, 16, 23, 4, 11, 16, 23, 4, 11, 16, 23][j] == [4, 11, 16, 23][j % 4]
    ensures [6, 10, 15, 21, 6, 10, 15, 21, 6, 10, 15, 21, 6, 10, 15, 21][j] == [6, 10, 15, 21][j % 4]
  {
  }

  lemma IndexFormulas(i: nat)
    requires i < 64
    ensures i < 16 ==> RfcIndex(i) == i
    ensures 16 <= i < 32 ==> RfcIndex(i) == (5 * i + 1) % 16
    ensures 32 <= i < 48 ==> RfcIndex(i) == (3 * i + 5) % 16
    ensures 48 <= i ==> RfcIndex(i) == 7 * i % 16
  {
    hide RfcRow;
    var j := i % 16;
    FirstRow(j);
    SecondRow(j);
    ThirdRow(j);
    FourthRow(j);
    if i < 16 {
    } else if i < 32 {
      assert i == 16 + j;
      WholeRounds(5, 5 * j + 1);
    } else if i < 48 {
      assert i == 32 + j;
      WholeRounds(6, 3 * j + 5);
    } else {
      assert i == 48 + j;
      WholeRounds(21, 7 * j);
    }
  }

  lemma WholeRounds(k: nat, a: nat)
    ensures (16 * k + a) % 16 == a % 16
  {
  }

  lemma FirstRow(j: nat)
    requires j < 16
    ensures RfcRow(0)[j] == j
  {
  }

  lemma SecondRow(j: nat)
    requires j < 16
    ensures RfcRow(1)[j] == (5 * j + 1) % 16
  {
  }

  lemma ThirdRow(j: nat)
    requires j < 16
    ensures RfcRow(2)[j] == (3 * j + 5) % 16
  {
  }

  lemma FourthRow(j: nat)
    requires j < 16
    ensures RfcRow(3)[j] == 7 * j % 16
  {
  }

  // ---------- the loop of one block ----------

  /** The registers as the loop holds them after `turn` operations since they last lined up. */
  function Turn(r: Registers, turn: nat): Registers {
    if turn == 0 then r
    else if turn == 1 then Registers(r.d, r.a, r.b, r.c)
    else if turn == 2 then Registers(r.c, r.d, r.a, r.b)
    else Registers(r.b, r.c, r.d, r.a)
  }

  lemma StepTurns(r: Registers, x: seq<word>, i: nat)
    requires |x| == 16 && i < 64
    ensures var t := Turn(r, i % 4);
            Turn(RfcStep(r, x, i), (i + 1) % 4) == Registers(t.d, Operation(t.a, t.b, t.c, t.d, x, i), t.b, t.c)
  {
    hide Operation;
    NextTurn(i);
    if i % 4 == 0 {
    } else if i % 4 == 1 {
    } else if i % 4 == 2 {
    } else {
    }
  }

  lemma NextTurn(i: nat)
    ensures 0 <= i % 4 < 4 && (i + 1) % 4 == if i % 4 == 3 then 0 else i % 4 + 1
  {
  }

  lemma SumReorders(f: word, a: word, t: word, x: word)
    ensures Sum(f, a, t, x) == Sum(a, f, x, t)
  {
    WordsReorder(f, a, t, x);
  }

  lemma WordsReorder(f: bv32, a: bv32, t: bv32, x: bv32)
    ensures f + a + t + x == a + f + x + t
  {
  }

  function Contents(state: seq<word>): Registers
    requires |state| == 4
  {
    Registers(state[0], state[1], state[2], state[3])
  }

  method Transform(state: array<word>, block: seq<byte>)
    requires state.Length == 4 && |block| == 64
    modifies state
    ensures Contents(state[..]) == RfcBlock(old(Contents(state[..])), block)
  {
    hide Add, Sum, RfcF, RfcG, RfcH, RfcI, F, G, T, RotateLeft, Rotl, RfcShift, ShiftTable, RfcRow, RfcIndex;
    hide RfcStep, GetLe32;
    hide Turn, Operation;
    ghost var start := Contents(state[..]);
    var a, b, c, d := state[0], state[1], state[2], state[3];
    var x := new word[16];
    var i := 0;
    while i < 16
      invariant 0 <= i <= 16 && state[..] == old(state[..])
      invariant x[..i] == Words(block)[..i]
    {
      x[i] := GetLe32(block[4 * i..4 * i + 4]);
      i := i + 1;
    }
    assert x[..] == Words(block);
    i := 0;
    TurnedOnce(start);
    while i < 64
      invariant 0 <= i <= 64 && x[..] == Words(block) && state[..] == old(state[..])
      invariant Registers(a, b, c, d) == Turn(RfcSteps(start, x[..], i), i % 4)
    {
      StepTurns(RfcSteps(start, x[..], i), x[..], i);
      IndexFormulas(i);
      ShiftsAgree(i);
      var f: word, g: nat;
      if i < 16 {
        f, g := F(b, c, d), i;
      } else if i < 32 {
        f, g := G(b, c, d), (5 * i + 1) % 16;
      } else if i < 48 {
        f, g := RfcH(b, c, d), (3 * i + 5) % 16;
      } else {
        f, g := RfcI(b, c, d), 7 * i % 16;
      }
      StepIsOperation(a, b, c, d, x[..], i, f, g);
      f := Sum(f, a, T(i), x[g]);
      a := d;
      d := c;
      c := b;
      b := Add(b, Rotl(f, ShiftTable(i)));
      i := i + 1;
    }
    TurnedOnce(RfcSteps(start, x[..], 64));
    assert RfcBlock(start, block) == Registers(Add(state[0], a), Add(state[1], b), Add(state[2], c), Add(state[3], d));
    state[0], state[1], state[2], state[3] := Add(state[0], a), Add(state[1], b), Add(state[2], c), Add(state[3], d);
  }

  lemma TurnedOnce(r: Registers)
    ensures Turn(r, 0) == r
  {
  }

  /** The rewritten mix, index formula and shift table compute the listed operation. */
  lemma StepIsOperation(a: word, b: word, c: word, d: word, x: seq<word>, i: nat, f: word, g: nat)
    requires |x| == 16 && i < 64 && g == RfcIndex(i)
    requires f == if i < 16 then F(b, c, d) else if i < 32 then G(b, c, d)
                  else if i < 48 then RfcH(b, c, d) else RfcI(b, c, d)
    ensures 4 <= ShiftTable(i) <= 23
    ensures Add(b, Rotl(Sum(f, a, T(i), x[g]), ShiftTable(i))) == Operation(a, b, c, d, x, i)
  {
    hide Add, Sum, RfcF, RfcG, RfcH, RfcI, F, G, T, RotateLeft, Rotl, RfcShift, ShiftTable, RfcRow, RfcIndex;
    FIsRfcF(b, c, d);
    GIsRfcG(b, c, d);
    ShiftsAgree(i);
    SumReorders(f, a, T(i), x[g]);
    RotlIsRotation(Sum(f, a, T(i), x[g]), ShiftTable(i));
  }

  // ---------- the whole message ----------

  lemma OneBlock(r: Registers, block: seq<byte>)
    requires |block| == 64
    ensures RfcBlocks(r, block) == RfcBlock(r, block)
  {
    hide RfcBlock;
    assert block[..64] == block && block[64..] == [];
  }

  lemma FirstBlock(r: Registers, m: seq<byte>, p: seq<byte>)
    requires |m| >= 64 && (|m| + |p|) % 64 == 0
    ensures (|m[64..]| + |p|) % 64 == 0
    ensures RfcBlocks(r, m + p) == RfcBlocks(RfcBlock(r, m[..64]), m[64..] + p)
  {
    hide RfcBlock;
    assert (m + p)[..64] == m[..64] && (m + p)[64..] == m[64..] + p;
  }

  /** What is left after the whole blocks, with the padding, is one block or two. */
  lemma TailBlocks(r: Registers, rest: seq<byte>, n: nat)
    requires |rest| == n % 64
    ensures (|rest| + |Padding(n)|) % 64 == 0
    ensures |rest| <= 55 ==>
              RfcBlocks(r, rest + Padding(n)) ==
              RfcBlock(r, rest + [0x80] + Zeros(55 - |rest|) + LengthBytes(n))
    ensures |rest| > 55 ==>
              RfcBlocks(r, rest + Padding(n)) ==
              RfcBlock(RfcBlock(r, rest + [0x80] + Zeros(63 - |rest|)), Zeros(56) + LengthBytes(n))
  {
    hide RfcBlock, LengthBytes, RfcBlocks;
    if |rest| <= 55 {
      var block := rest + [0x80] + Zeros(55 - |rest|) + LengthBytes(n);
      assert rest + Padding(n) == block;
      OneBlock(r, block);
    } else {
      var first, last := rest + [0x80] + Zeros(63 - |rest|), Zeros(56) + LengthBytes(n);
      assert Zeros(119 - |rest|) == Zeros(63 - |rest|) + Zeros(56);
      assert rest + Padding(n) == first + last;
      FirstBlock(r, first, last);
      assert first[..64] == first && first[64..] + last == last;
      OneBlock(RfcBlock(r, first), last);
    }
  }

  method StoreLe32(block: array<byte>, at: nat, v: word)
    requires at + 4 <= block.Length
    modifies block
    ensures block[..] == old(block[..at]) + PutLe32(v) + old(block[at + 4..])
  {
    hide ByteAt;
    block[at], block[at + 1], block[at + 2], block[at + 3] := ByteAt(v, 0), ByteAt(v, 1), ByteAt(v, 2), ByteAt(v, 3);
  }

  /** The marker, the zeros and the length go into one block, or into two when they do not fit. */
  method Finish(state: array<word>, rest: seq<byte>, n: nat)
    requires state.Length == 4 && |rest| == n % 64 && (|rest| + |Padding(n)|) % 64 == 0
    modifies state
    ensures Contents(state[..]) == RfcBlocks(old(Contents(state[..])), rest + Padding(n))
  {
    hide RfcBlock, RfcBlocks, LengthBytes, Padding, Zeros, BitLength, PutLe32, Low, High;
    var len, bitLen := |rest|, BitLength(n);
    TailBlocks(Contents(state[..]), rest, n);
    var block := new byte[64](_ => 0);
    forall i | 0 <= i < len { block[i] := rest[i]; }
    block[len] := 0x80;
    ghost var front;
    if len + 1 > 56 {
      assert block[..] == rest + [0x80] + Zeros(63 - len) by { ZerosAre(63 - len); }
      Transform(state, block[..]);
      forall i | 0 <= i < 64 { block[i] := 0; }
      front := Zeros(56);
      assert block[..56] == front by { ZerosAre(56); }
    } else {
      front := rest + [0x80] + Zeros(55 - len);
      assert block[..56] == front by { ZerosAre(55 - len); }
    }
    StoreLe32(block, 56, Low(bitLen));
    StoreLe32(block, 60, High(bitLen));
    LengthIs(n);
    assert block[..] == front + LengthBytes(n);
    Transform(state, block[..]);
  }

  method Md5(data: seq<byte>) returns (digest: seq<byte>)
    ensures digest == RfcMd5(data)
  {
    hide RfcBlock, RfcBlocks, Padding, Output;
    var state := new word[] [0x67452301, 0xefcdab89, 0x98badcfe, 0x10325476];
    ghost var pad := Padding(|data|);
    var pos, len := 0, |data|;
    assert data[0..] == data;
    while len >= 64
      invariant 0 <= pos && 0 <= len && pos + len == |data| && pos % 64 == 0
      invariant (len + |pad|) % 64 == 0
      invariant RfcBlocks(Contents(state[..]), data[pos..] + pad) == RfcBlocks(START, data + pad)
    {
      FirstBlock(Contents(state[..]), data[pos..], pad);
      assert data[pos..][..64] == data[pos..pos + 64] && data[pos..][64..] == data[pos + 64..];
      Transform(state, data[pos..pos + 64]);
      pos, len := pos + 64, len - 64;
    }
    Finish(state, data[pos..], |data|);
    digest := Output(Contents(state[..]));
  }

  lemma LengthIs(n: nat)
    ensures LengthBytes(n) == PutLe32(Low(BitLength(n))) + PutLe32(High(BitLength(n)))
  {
  }

  lemma ZerosAre(n: nat)
    ensures |Zeros(n)| == n && forall i :: 0 <= i < n ==> Zeros(n)[i] == 0
  {
  }

  /** Different messages never share their padded form: the marker is its last byte that is not zero or length. */
  lemma PaddingIsInjective(m1: seq<byte>, m2: seq<byte>)
    requires m1 + Padding(|m1|) == m2 + Padding(|m2|)
    ensures m1 == m2
  {
    if |m1| <= |m2| {
      MarkerIsLast(m1, m2);
    } else {
      MarkerIsLast(m2, m1);
    }
  }

  lemma MarkerIsLast(m1: seq<byte>, m2: seq<byte>)
    requires m1 + Padding(|m1|) == m2 + Padding(|m2|) && |m1| <= |m2|
    ensures m1 == m2
  {
    hide Padding;
    var p1, p2 := m1 + Padding(|m1|), m2 + Padding(|m2|);
    Parts(m1);
    Parts(m2);
    assert |m1| == |m2|;
    assert p1[..|m1|] == m1 && p2[..|m2|] == m2;
  }

  lemma Parts(m: seq<byte>)
    ensures var p := m + Padding(|m|);
            |m| < |p| - 8 && p[|m|] == 0x80 && forall k :: |m| < k < |p| - 8 ==> p[k] == 0
  {
    hide LengthBytes, ZeroCount;
    var p := m + Padding(|m|);
    forall k | |m| < k < |p| - 8 ensures p[k] == 0 {
      assert p[k] == Zeros(ZeroCount(|m|))[k - |m| - 1];
    }
  }
}
