/** The block counters of the container as numbers. */
module Counters {
  import opened MachineWords
  import opened Container

  /** The number a word stands for, low bit first. */
  function Number(c: long): (n: nat)
    ensures n == 0 <==> c == 0
    decreases c
  {
    if c == 0 then 0
    else
      HalfIsLess(c);
      (if c & 1 == 1 then 1 else 0) + 2 * Number(c >> 1)
  }

  lemma HalfIsLess(c: long)
    ensures c != 0 ==> c >> 1 < c && (c & 1 == 1 || c >> 1 != 0)
  {
  }

  const TOP: long := 0xffff_ffff_ffff_ffff

  function Half(c: long): long { c >> 1 }

  predicate Odd(c: long) { c & 1 == 1 }

  lemma NumberSplits(c: long)
    ensures Number(c) == (if Odd(c) then 1 else 0) + 2 * Number(Half(c))
  {
  }

  lemma NextBits(c: long)
    requires c != TOP
    ensures !Odd(c) ==> Odd(Next(c)) && Half(Next(c)) == Half(c)
    ensures Odd(c) ==> !Odd(Next(c)) && Half(Next(c)) == Next(Half(c)) && Half(c) != TOP && c != 0
  {
  }

  lemma {:induction false} NumberNext(c: long)
    requires c != TOP
    ensures Number(Next(c)) == Number(c) + 1
    decreases Number(c)
  {
    hide Number, Half, Odd, Next;
    NextBits(c);
    NumberSplits(c);
    NumberSplits(Next(c));
    if Odd(c) { NumberNext(Half(c)); }
  }

  lemma SplitBits(c: long, d: long)
    requires Odd(c) == Odd(d) && Half(c) == Half(d)
    ensures c == d
  {
  }

  lemma {:induction false} NumberInjective(c: long, d: long)
    requires Number(c) == Number(d)
    ensures c == d
    decreases Number(c)
  {
    hide Number, Half, Odd;
    NumberSplits(c);
    NumberSplits(d);
    if c != 0 {
      NumberInjective(Half(c), Half(d));
      SplitBits(c, d);
    }
  }

  function Upper(c: long): long { c >> 8 }

  predicate LowOnes(c: long) { c & 0xff == 0xff }

  lemma EightBits(c: long)
    ensures Number(c) <= 255 + 256 * Number(Upper(c))
    ensures LowOnes(c) ==> Number(c) == 255 + 256 * Number(Upper(c))
  {
    hide Number, Odd, Half, Upper, LowOnes;
    var c1, c2, c3 := Half(c), Half(Half(c)), Half(Half(Half(c)));
    var c4, c5, c6, c7 := Half(c3), Half(Half(c3)), Half(Half(Half(c3))), Half(Half(Half(Half(c3))));
    Halves(c);
    NumberSplits(c);
    NumberSplits(c1);
    NumberSplits(c2);
    NumberSplits(c3);
    NumberSplits(c4);
    NumberSplits(c5);
    NumberSplits(c6);
    NumberSplits(c7);
  }

  lemma Halves(c: long)
    ensures Half(Half(Half(Half(Half(Half(Half(Half(c)))))))) == Upper(c)
    ensures LowOnes(c) ==> Odd(c) && Odd(Half(c)) && Odd(Half(Half(c))) && Odd(Half(Half(Half(c))))
    ensures var c4 := Half(Half(Half(Half(c))));
            LowOnes(c) ==> Odd(c4) && Odd(Half(c4)) && Odd(Half(Half(c4))) && Odd(Half(Half(Half(c4))))
  {
  }

  lemma NumberBelow(c: long)
    ensures Number(c) <= 0xffff_ffff_ffff_ffff
  {
    hide Number, Upper;
    var c1, c2 := Upper(c), Upper(Upper(c));
    var c3, c4, c5 := Upper(c2), Upper(Upper(c2)), Upper(Upper(Upper(c2)));
    EightBits(c);
    EightBits(c1);
    EightBits(c2);
    EightBits(c3);
    EightBits(c4);
    EightBits(c5);
    EightBits(Upper(c5));
    EightBits(Upper(Upper(c5)));
    NothingLeft(c);
  }

  lemma NothingLeft(c: long)
    ensures Upper(Upper(Upper(Upper(Upper(Upper(Upper(Upper(c)))))))) == 0
  {
  }

  lemma NumberTop()
    ensures Number(TOP) == 0xffff_ffff_ffff_ffff
  {
    hide Number, Upper, LowOnes;
    TopBytes();
    EightBits(TOP);
    EightBits(0xff_ffff_ffff_ffff);
    EightBits(0xffff_ffff_ffff);
    EightBits(0xff_ffff_ffff);
    EightBits(0xffff_ffff);
    EightBits(0xff_ffff);
    EightBits(0xffff);
    EightBits(0xff);
  }

  lemma TopBytes()
    ensures LowOnes(TOP) && Upper(TOP) == 0xff_ffff_ffff_ffff
    ensures LowOnes(0xff_ffff_ffff_ffff) && Upper(0xff_ffff_ffff_ffff) == 0xffff_ffff_ffff
    ensures LowOnes(0xffff_ffff_ffff) && Upper(0xffff_ffff_ffff) == 0xff_ffff_ffff
    ensures LowOnes(0xff_ffff_ffff) && Upper(0xff_ffff_ffff) == 0xffff_ffff
    ensures LowOnes(0xffff_ffff) && Upper(0xffff_ffff) == 0xff_ffff
    ensures LowOnes(0xff_ffff) && Upper(0xff_ffff) == 0xffff
    ensures LowOnes(0xffff) && Upper(0xffff) == 0xff && LowOnes(0xff) && Upper(0xff) == 0
  {
  }

  const WRAP := 0x1_0000_0000_0000_0000

  lemma NumberWraps(c: long)
    ensures Number(Next(c)) == (Number(c) + 1) % WRAP && Number(c) < WRAP
  {
    hide Number;
    NumberBelow(c);
    NumberBelow(Next(c));
    if c == TOP {
      NumberTop();
    } else {
      NumberNext(c);
    }
  }

  /** Block `j` is encrypted from the nonce plus `j`, modulo two to the 64. */
  lemma {:induction false} CounterMeaning(nonce: long, j: nat)
    ensures Number(Counter(nonce, j)) == (Number(nonce) + j) % WRAP
    decreases j
  {
    hide Number, Next;
    NumberWraps(nonce);
    if j > 0 {
      CounterMeaning(nonce, j - 1);
      NumberWraps(Counter(nonce, j - 1));
      ModStep(Number(nonce) + j - 1);
    }
  }

  lemma ModStep(a: nat)
    ensures (a % WRAP + 1) % WRAP == (a + 1) % WRAP
  {
  }

  /** Two blocks of a file share a key stream block only if they are the same. */
  lemma StreamNeverRepeats(nonce: long, i: nat, j: nat)
    requires i < j < WRAP
    ensures StreamBlock(Counter(nonce, i)) != StreamBlock(Counter(nonce, j))
  {
    hide Number, StreamBlock, Counter;
    CounterMeaning(nonce, i);
    CounterMeaning(nonce, j);
    if StreamBlock(Counter(nonce, i)) == StreamBlock(Counter(nonce, j)) {
      StreamBlockInjective(Counter(nonce, i), Counter(nonce, j));
    }
  }
}
