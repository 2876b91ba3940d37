/** The container's CRC-32 and what it detects. */
module Crc {
  import opened MachineWords

  const POLYNOMIAL: word := 0xedb8_8320
  const ALL_ONES: word := 0xffff_ffff

  function Xor(a: word, b: word): word { a ^ b }

  function Widen(b: byte): word { b as word }

  /** One bit of the division: shift right, subtract the polynomial when a one falls out. */
  function BitStep(c: word): word {
    (c >> 1) ^ (if c & 1 == 1 then POLYNOMIAL else 0)
  }

  function BitSteps(c: word, n: nat): word
    decreases n
  {
    if n == 0 then c else BitSteps(BitStep(c), n - 1)
  }

  function ByteStep(c: word, b: byte): word {
    BitSteps(Xor(c, Widen(b)), 8)
  }

  /** The register after a run of bytes. */
  function Register(c: word, data: seq<byte>): word
    decreases |data|
  {
    if data == [] then c else Register(ByteStep(c, data[0]), data[1..])
  }

  function Checksum(data: seq<byte>): word {
    !Register(ALL_ONES, data)
  }

  method DivideByte(x: word) returns (crc: word)
    ensures crc == BitSteps(x, 8)
  {
    crc := x;
    var bit := 0;
    while bit < 8
      invariant 0 <= bit <= 8
      invariant BitSteps(crc, 8 - bit) == BitSteps(x, 8)
    {
      ghost var before := crc;
      crc := (crc >> 1) ^ (POLYNOMIAL & (0 - (crc & 1)));
      MaskIsChoice(before);
      hide BitStep;
      bit := bit + 1;
    }
  }

  lemma MaskIsChoice(c: word)
    ensures (c >> 1) ^ (POLYNOMIAL & (0 - (c & 1))) == BitStep(c)
  {
    LowBit(c);
    NoMask(c >> 1, POLYNOMIAL);
    FullMask(POLYNOMIAL);
  }

  lemma LowBit(c: bv32)
    ensures c & 1 == 0 || c & 1 == 1
  {
  }

  lemma NoMask(x: bv32, p: bv32)
    ensures x ^ (p & (0 - 0)) == x
  {
  }

  lemma FullMask(p: bv32)
    ensures p & (0 - 1) == p
  {
  }

  method FeatureCrc32(data: seq<byte>) returns (r: word)
    ensures r == Checksum(data)
  {
    hide BitStep, BitSteps, Xor, Widen;
    var crc := ALL_ONES;
    var i := 0;
    assert data[0..] == data;
    while i < |data|
      invariant 0 <= i <= |data|
      invariant Register(crc, data[i..]) == Register(ALL_ONES, data)
    {
      assert data[i..][1..] == data[i + 1..];
      crc := DivideByte(Xor(crc, Widen(data[i])));
      i := i + 1;
    }
    return !crc;
  }

  // ---------- every step loses nothing ----------

  lemma XorCancel(a: word, b: word, x: word)
    requires Xor(a, x) == Xor(b, x)
    ensures a == b
  {
  }

  lemma XorCancelLeft(x: word, a: word, b: word)
    requires Xor(x, a) == Xor(x, b)
    ensures a == b
  {
  }

  lemma BitStepInjective(a: word, b: word)
    requires BitStep(a) == BitStep(b)
    ensures a == b
  {
  }

  lemma {:induction false} BitStepsInjective(a: word, b: word, n: nat)
    requires BitSteps(a, n) == BitSteps(b, n)
    ensures a == b
    decreases n
  {
    hide BitStep;
    if n > 0 {
      BitStepsInjective(BitStep(a), BitStep(b), n - 1);
      BitStepInjective(a, b);
    }
  }

  lemma ByteStepInjective(a: word, b: word, x: byte)
    requires ByteStep(a, x) == ByteStep(b, x)
    ensures a == b
  {
    hide BitSteps, Xor, Widen;
    BitStepsInjective(Xor(a, Widen(x)), Xor(b, Widen(x)), 8);
    XorCancel(a, b, Widen(x));
  }

  lemma {:induction false} RegisterInjective(a: word, b: word, data: seq<byte>)
    requires Register(a, data) == Register(b, data)
    ensures a == b
    decreases |data|
  {
    hide ByteStep;
    if data != [] {
      RegisterInjective(ByteStep(a, data[0]), ByteStep(b, data[0]), data[1..]);
      ByteStepInjective(a, b, data[0]);
    }
  }

  // ---------- bits above the low one only wait their turn ----------

  function Double(y: word): word { y << 1 }

  lemma RawBitStepWaits(c: word, y: word)
    requires y <= 0x7fff_ffff
    ensures BitStep(c ^ (y << 1)) == BitStep(c) ^ y
  {
  }

  lemma BitStepWaits(c: word, y: word)
    requires y <= 0x7fff_ffff
    ensures BitStep(Xor(c, Double(y))) == Xor(BitStep(c), y)
  {
    hide BitStep;
    RawBitStepWaits(c, y);
  }

  ghost function Shifted(y: word, n: nat): word
    decreases n
  {
    if n == 0 then y else Double(Shifted(y, n - 1))
  }

  /** Doubling `n` times pushes nothing out. */
  ghost predicate Roomy(y: word, n: nat)
    decreases n
  {
    n == 0 || (Shifted(y, n - 1) <= 0x7fff_ffff && Roomy(y, n - 1))
  }

  lemma {:induction false} StepsWait(c: word, y: word, n: nat)
    requires Roomy(y, n)
    ensures BitSteps(Xor(c, Shifted(y, n)), n) == Xor(BitSteps(c, n), y)
    decreases n
  {
    hide BitStep, Xor, Double;
    if n > 0 {
      BitStepWaits(c, Shifted(y, n - 1));
      StepsWait(BitStep(c), y, n - 1);
    }
  }

  function Up8(y: word): word { y << 8 }

  lemma DoubleSmall(y: word, bound: word)
    requires bound <= 0x3fff_ffff && y <= bound
    ensures Double(y) <= bound << 1 && bound << 1 <= 0x7fff_ffff
  {
  }

  lemma RawDoubleEight(y: word)
    ensures (((((((y << 1) << 1) << 1) << 1) << 1) << 1) << 1) << 1 == y << 8
  {
  }

  lemma DoubleEight(y: word)
    ensures Double(Double(Double(Double(Double(Double(Double(Double(y)))))))) == Up8(y)
  {
    RawDoubleEight(y);
  }

  lemma ShiftedEight(y: word)
    requires y <= 0x00ff_ffff
    ensures Shifted(y, 8) == Up8(y) && Roomy(y, 8)
  {
    hide Double, Up8;
    DoubleEight(y);
    var y1, y2, y3 := Double(y), Double(Double(y)), Double(Double(Double(y)));
    var y4, y5, y6 := Double(y3), Double(Double(y3)), Double(Double(Double(y3)));
    assert Shifted(y, 1) == y1 && Shifted(y, 2) == y2 && Shifted(y, 3) == y3 && Shifted(y, 4) == y4;
    assert Shifted(y, 5) == y5 && Shifted(y, 6) == y6;
    assert Shifted(y, 7) == Double(y6) && Shifted(y, 8) == Double(Double(y6));
    DoubleSmall(y, 0x00ff_ffff);
    DoubleSmall(y1, 0x01ff_fffe);
    DoubleSmall(y2, 0x03ff_fffc);
    DoubleSmall(y3, 0x07ff_fff8);
    DoubleSmall(y4, 0x0fff_fff0);
    DoubleSmall(y5, 0x1fff_ffe0);
    DoubleSmall(y6, 0x3fff_ffc0);
    assert Roomy(y, 2) && Roomy(y, 4);
    assert Roomy(y, 6);
  }

  /** Xoring a value in after eight steps is xoring it in, moved up a byte, before them. */
  lemma ByteWaits(c: word, y: word)
    requires y <= 0x00ff_ffff
    ensures Xor(BitSteps(c, 8), y) == BitSteps(Xor(c, Up8(y)), 8)
  {
    hide *;
    ShiftedEight(y);
    StepsWait(c, y, 8);
  }

  /** Four bytes as one little-endian word. */
  function Word4(a: byte, b: byte, c: byte, d: byte): word {
    Xor(Xor(Xor(Widen(a), Up8(Widen(b))), Up8(Up8(Widen(c)))), Up8(Up8(Up8(Widen(d)))))
  }

  lemma WidenInjective(x: byte, y: byte)
    requires Widen(x) == Widen(y)
    ensures x == y
  {
  }

  lemma RawWordInjective(a0: word, a1: word, a2: word, a3: word, b0: word, b1: word, b2: word, b3: word)
    requires a0 <= 0xff && a1 <= 0xff && a2 <= 0xff && a3 <= 0xff
    requires b0 <= 0xff && b1 <= 0xff && b2 <= 0xff && b3 <= 0xff
    requires ((a0 ^ (a1 << 8)) ^ ((a2 << 8) << 8)) ^ (((a3 << 8) << 8) << 8) ==
             ((b0 ^ (b1 << 8)) ^ ((b2 << 8) << 8)) ^ (((b3 << 8) << 8) << 8)
    ensures a0 == b0 && a1 == b1 && a2 == b2 && a3 == b3
  {
  }

  lemma Word4Injective(a0: byte, a1: byte, a2: byte, a3: byte, b0: byte, b1: byte, b2: byte, b3: byte)
    requires Word4(a0, a1, a2, a3) == Word4(b0, b1, b2, b3)
    ensures a0 == b0 && a1 == b1 && a2 == b2 && a3 == b3
  {
    RawWordInjective(Widen(a0), Widen(a1), Widen(a2), Widen(a3), Widen(b0), Widen(b1), Widen(b2), Widen(b3));
    forall x: byte, y: byte | Widen(x) == Widen(y) ensures x == y { WidenInjective(x, y); }
    forall x: byte ensures Widen(x) <= 0xff { WidenSmall(x); }
  }

  lemma XorAssoc(a: word, b: word, c: word)
    ensures Xor(Xor(a, b), c) == Xor(a, Xor(b, c))
  {
  }

  lemma WidenSmall(b: byte)
    ensures Widen(b) <= 0xff
  {
  }

  lemma Up8Small(y: word)
    ensures y <= 0xff ==> Up8(y) <= 0xffff
    ensures y <= 0xffff ==> Up8(y) <= 0xff_ffff
  {
  }

  lemma Word4Layers(s: word, a: byte, b: byte, c: byte, d: byte)
    ensures Xor(Xor(Xor(Xor(s, Widen(a)), Up8(Widen(b))), Up8(Up8(Widen(c)))), Up8(Up8(Up8(Widen(d)))))
            == Xor(s, Word4(a, b, c, d))
  {
    hide Xor, Up8, Widen;
    var b', c', d' := Up8(Widen(b)), Up8(Up8(Widen(c))), Up8(Up8(Up8(Widen(d))));
    XorAssoc(s, Widen(a), b');
    XorAssoc(s, Xor(Widen(a), b'), c');
    XorAssoc(s, Xor(Xor(Widen(a), b'), c'), d');
  }

  lemma Smaller(y: word)
    ensures y <= 0xff || y <= 0xffff ==> y <= 0xff_ffff
  {
  }

  function Steps32(c: word): word {
    BitSteps(BitSteps(BitSteps(BitSteps(c, 8), 8), 8), 8)
  }

  lemma UnfoldRegister(s: word, a: byte, b: byte, c: byte, d: byte)
    ensures Register(s, [a, b, c, d]) == ByteStep(ByteStep(ByteStep(ByteStep(s, a), b), c), d)
  {
    hide ByteStep;
    var abcd, bcd, cd, d' := [a, b, c, d], [b, c, d], [c, d], [d];
    assert abcd[1..] == bcd && bcd[1..] == cd && cd[1..] == d' && d'[1..] == [];
    assert forall w :: Register(w, d') == ByteStep(w, d);
    assert forall w :: Register(w, cd) == ByteStep(ByteStep(w, c), d);
  }

  /** Four bytes go through the register as if their word had been xored in at once. */
  lemma FourBytesAtOnce(s: word, a: byte, b: byte, c: byte, d: byte)
    ensures Register(s, [a, b, c, d]) == Steps32(Xor(s, Word4(a, b, c, d)))
  {
    hide BitSteps, Xor, Widen, Up8, Word4, Register;
    var b', c', d' := Widen(b), Widen(c), Widen(d);
    var w0 := Xor(s, Widen(a));
    var w1 := Xor(w0, Up8(b'));
    var w2 := Xor(w1, Up8(Up8(c')));
    Word4Layers(s, a, b, c, d);
    WidenSmall(b);
    WidenSmall(c);
    WidenSmall(d);
    Up8Small(c');
    Up8Small(d');
    Up8Small(Up8(d'));
    Smaller(b');
    Smaller(c');
    Smaller(d');
    Smaller(Up8(c'));
    Smaller(Up8(d'));
    ByteWaits(w0, b');
    ByteWaits(BitSteps(w1, 8), c');
    ByteWaits(w1, Up8(c'));
    ByteWaits(BitSteps(BitSteps(w2, 8), 8), d');
    ByteWaits(BitSteps(w2, 8), Up8(d'));
    ByteWaits(w2, Up8(Up8(d')));
    UnfoldRegister(s, a, b, c, d);
  }

  lemma Steps32Injective(x: word, y: word)
    requires Steps32(x) == Steps32(y)
    ensures x == y
  {
    hide BitSteps;
    BitStepsInjective(BitSteps(BitSteps(BitSteps(x, 8), 8), 8), BitSteps(BitSteps(BitSteps(y, 8), 8), 8), 8);
    BitStepsInjective(BitSteps(BitSteps(x, 8), 8), BitSteps(BitSteps(y, 8), 8), 8);
    BitStepsInjective(BitSteps(x, 8), BitSteps(y, 8), 8);
    BitStepsInjective(x, y, 8);
  }

  lemma FourBytesInjective(c: word, a: seq<byte>, b: seq<byte>)
    requires |a| == |b| == 4 && Register(c, a) == Register(c, b)
    ensures a == b
  {
    hide *;
    assert a == [a[0], a[1], a[2], a[3]] && b == [b[0], b[1], b[2], b[3]];
    var x, y := Word4(a[0], a[1], a[2], a[3]), Word4(b[0], b[1], b[2], b[3]);
    FourBytesAtOnce(c, a[0], a[1], a[2], a[3]);
    FourBytesAtOnce(c, b[0], b[1], b[2], b[3]);
    Steps32Injective(Xor(c, x), Xor(c, y));
    XorCancelLeft(c, x, y);
    Word4Injective(a[0], a[1], a[2], a[3], b[0], b[1], b[2], b[3]);
  }

  lemma {:induction false} RegisterConcat(c: word, a: seq<byte>, b: seq<byte>)
    ensures Register(c, a + b) == Register(Register(c, a), b)
    decreases |a|
  {
    hide ByteStep;
    if a == [] {
      assert a + b == b;
    } else {
      assert (a + b)[1..] == a[1..] + b;
      RegisterConcat(ByteStep(c, a[0]), a[1..], b);
    }
  }

  lemma ChecksumCancel(a: seq<byte>, b: seq<byte>)
    requires Checksum(a) == Checksum(b)
    ensures Register(ALL_ONES, a) == Register(ALL_ONES, b)
  {
    hide Register;
  }

  lemma PadCancel(a: seq<byte>, b: seq<byte>, pad: seq<byte>)
    requires |a| == |b| && a + pad == b + pad
    ensures a == b
  {
    assert a == (a + pad)[..|a|] && b == (b + pad)[..|b|];
  }

  /** Two texts that differ only inside four consecutive bytes never share a checksum. */
  lemma BurstDetected(pre: seq<byte>, a: seq<byte>, b: seq<byte>, post: seq<byte>)
    requires |a| == |b| <= 4 && a != b
    ensures Checksum(pre + a + post) != Checksum(pre + b + post)
  {
    hide *;
    var c := Register(ALL_ONES, pre);
    if Checksum(pre + a + post) == Checksum(pre + b + post) {
      ChecksumCancel(pre + a + post, pre + b + post);
      RegisterConcat(ALL_ONES, pre + a, post);
      RegisterConcat(ALL_ONES, pre + b, post);
      RegisterConcat(ALL_ONES, pre, a);
      RegisterConcat(ALL_ONES, pre, b);
      RegisterInjective(Register(c, a), Register(c, b), post);
      var pad := seq(4 - |a|, _ => 0 as byte);
      RegisterConcat(c, a, pad);
      RegisterConcat(c, b, pad);
      FourBytesInjective(c, a + pad, b + pad);
      PadCancel(a, b, pad);
    }
  }

  // ---------- a known answer ----------

  lemma EightSteps(c: word)
    ensures BitSteps(c, 8) == BitStep(BitStep(BitStep(BitStep(BitStep(BitStep(BitStep(BitStep(c))))))))
  {
    hide BitStep;
  }

  lemma NextByte(c: word, b: byte, x: word, next: word)
    requires Xor(c, Widen(b)) == x
    requires BitStep(BitStep(BitStep(BitStep(BitStep(BitStep(BitStep(BitStep(x)))))))) == next
    ensures ByteStep(c, b) == next
  {
    hide BitStep, BitSteps, Xor, Widen;
    EightSteps(x);
  }

  lemma Digit1()
    ensures ByteStep(0xffffffff, 0x31) == 0x7c231048
  {
    hide BitSteps;
    NextByte(0xffffffff, 0x31, 0xffffffce, 0x7c231048);
  }

  lemma Digit2()
    ensures ByteStep(0x7c231048, 0x32) == 0xb0acbb32
  {
    hide BitSteps;
    NextByte(0x7c231048, 0x32, 0x7c23107a, 0xb0acbb32);
  }

  lemma Digit3()
    ensures ByteStep(0xb0acbb32, 0x33) == 0x77b79c2d
  {
    hide BitSteps;
    NextByte(0xb0acbb32, 0x33, 0xb0acbb01, 0x77b79c2d);
  }

  lemma Digit4()
    ensures ByteStep(0x77b79c2d, 0x34) == 0x641c1f5c
  {
    hide BitSteps;
    NextByte(0x77b79c2d, 0x34, 0x77b79c19, 0x641c1f5c);
  }

  lemma Digit5()
    ensures ByteStep(0x641c1f5c, 0x35) == 0x340ac5e3
  {
    hide BitSteps;
    NextByte(0x641c1f5c, 0x35, 0x641c1f69, 0x340ac5e3);
  }

  lemma Digit6()
    ensures ByteStep(0x340ac5e3, 0x36) == 0xf68d2c9e
  {
    hide BitSteps;
    NextByte(0x340ac5e3, 0x36, 0x340ac5d5, 0xf68d2c9e);
  }

  lemma Digit7()
    ensures ByteStep(0xf68d2c9e, 0x37) == 0xaffc9660
  {
    hide BitSteps;
    NextByte(0xf68d2c9e, 0x37, 0xf68d2ca9, 0xaffc9660);
  }

  lemma Digit8()
    ensures ByteStep(0xaffc9660, 0x38) == 0x651f2550
  {
    hide BitSteps;
    NextByte(0xaffc9660, 0x38, 0xaffc9658, 0x651f2550);
  }

  lemma Digit9()
    ensures ByteStep(0x651f2550, 0x39) == 0x340bc6d9
  {
    hide BitSteps;
    NextByte(0x651f2550, 0x39, 0x651f2569, 0x340bc6d9);
  }

  /** The check value of CRC-32: the checksum of the digits "123456789". */
  lemma CheckValue()
    ensures Checksum([0x31, 0x32, 0x33, 0x34, 0x35, 0x36, 0x37, 0x38, 0x39]) == 0xcbf4_3926
  {
    hide ByteStep, Register;
    var front, middle, last: seq<byte> := [0x31, 0x32, 0x33, 0x34], [0x35, 0x36, 0x37, 0x38], [0x39];
    Digit1();
    Digit2();
    Digit3();
    Digit4();
    Digit5();
    Digit6();
    Digit7();
    Digit8();
    Digit9();
    assert [0x31, 0x32, 0x33, 0x34, 0x35, 0x36, 0x37, 0x38, 0x39] == front + middle + last;
    RegisterConcat(ALL_ONES, front + middle, last);
    RegisterConcat(ALL_ONES, front, middle);
    UnfoldRegister(ALL_ONES, 0x31, 0x32, 0x33, 0x34);
    UnfoldRegister(0x641c1f5c, 0x35, 0x36, 0x37, 0x38);
    OneByte(0x651f2550, 0x39);
  }

  lemma OneByte(c: word, b: byte)
    ensures Register(c, [b]) == ByteStep(c, b)
  {
    hide ByteStep;
    assert [b][1..] == [];
  }
}
