/** The edges of the pattern engine: which texts do not compile, and how short a match can be. */
module RegexEdges {
  import opened Regex
  import opened RegexSyntax

  // ---------- classes that do not compile ----------

  /** What the class reader takes in one go: a character, or a dash and the end of a range. */
  datatype Bit = Plain(c: char) | UpTo(hi: char)

  function BitText(bit: Bit): string {
    match bit
    case Plain(c) => [c]
    case UpTo(hi) => ['-', hi]
  }

  function BitsText(bits: seq<Bit>): string {
    if bits == [] then "" else BitText(bits[0]) + BitsText(bits[1..])
  }

  /** The reader gets through these bits within its buffer, after `prev` and with `acc` collected. */
  ghost predicate Sound(bits: seq<Bit>, prev: char, acc: seq<char>) {
    && |acc| <= CLASS_ROOM
    && (bits != [] ==>
          match bits[0]
          case Plain(c) => c != ']' && c != '-' && Sound(bits[1..], c, acc + [c])
          case UpTo(hi) =>
            acc != [] && hi != ']' && prev <= hi < '\U{80}' && Sound(bits[1..], hi, acc + CharsAfter(prev, hi)))
  }

  /** The class is not closed, or a dash stands first, or one stands last. */
  ghost predicate Spoils(s: string, bits: seq<Bit>, acc: seq<char>) {
    || s == BitsText(bits)
    || (bits == [] && acc == [] && "-" <= s)
    || BitsText(bits) + "-]" <= s
  }

  function NextPrev(bit: Bit): char {
    match bit
    case Plain(c) => c
    case UpTo(hi) => hi
  }

  /** What the class holds after one more bit. */
  function Gained(bit: Bit, prev: char, acc: seq<char>): seq<char>
    requires bit.UpTo? ==> prev <= bit.hi < '\U{80}'
  {
    match bit
    case Plain(c) => acc + [c]
    case UpTo(hi) => acc + CharsAfter(prev, hi)
  }

  lemma SoundStep(bits: seq<Bit>, prev: char, acc: seq<char>, rest: string)
    requires bits != [] && Sound(bits, prev, acc)
    ensures bits[0].UpTo? ==> acc != [] && prev <= bits[0].hi < '\U{80}'
    ensures Sound(bits[1..], NextPrev(bits[0]), Gained(bits[0], prev, acc))
    ensures ReadClass(BitText(bits[0]) + rest, prev, acc) ==
            ReadClass(rest, NextPrev(bits[0]), Gained(bits[0], prev, acc))
  {
    hide CharsAfter;
    var s := BitText(bits[0]) + rest;
    assert bits[0].Plain? ==> s[0] == bits[0].c && s[1..] == rest;
    assert bits[0].UpTo? ==> s[0] == '-' && s[1] == bits[0].hi && s[2..] == rest;
  }

  lemma SpoilsStep(s: string, bits: seq<Bit>, acc: seq<char>, more: seq<char>) returns (rest: string)
    requires bits != [] && Spoils(s, bits, acc)
    ensures s == BitText(bits[0]) + rest && Spoils(rest, bits[1..], more)
  {
    hide BitText;
    var text, tail := BitText(bits[0]), BitsText(bits[1..]);
    assert BitsText(bits) == text + tail;
    assert BitsText(bits) + "-]" == text + (tail + "-]");
    rest := s[|text|..];
  }

  lemma {:induction false} SpoiltClass(s: string, bits: seq<Bit>, prev: char, acc: seq<char>)
    requires Sound(bits, prev, acc) && Spoils(s, bits, acc)
    ensures ReadClass(s, prev, acc) == ClassBad
    decreases |bits|
  {
    if bits != [] {
      hide Sound, Spoils, ReadClass, BitText, BitsText;
      SoundStep(bits, prev, acc, "");
      var rest := SpoilsStep(s, bits, acc, Gained(bits[0], prev, acc));
      SoundStep(bits, prev, acc, rest);
      SpoiltClass(rest, bits[1..], NextPrev(bits[0]), Gained(bits[0], prev, acc));
    }
  }

  lemma {:induction false} BadClassBits(s: string, prev: char, acc: seq<char>) returns (bits: seq<Bit>)
    requires ReadClass(s, prev, acc) == ClassBad
    ensures Sound(bits, prev, acc) && Spoils(s, bits, acc)
    decreases |s|
  {
    bits := [];
    if s == "" || (s[0] == '-' && (acc == [] || (|s| > 1 && s[1] == ']'))) {
      assert BitsText([]) + "-]" == "-]";
      return;
    }
    var first := if s[0] != '-' then Plain(s[0]) else UpTo(s[1]);
    var rest := s[|BitText(first)|..];
    var more := BadClassBits(rest, s[|BitText(first)| - 1],
                             if s[0] != '-' then acc + [s[0]] else acc + CharsAfter(prev, s[1]));
    bits := [first] + more;
    assert bits[1..] == more && BitText(first) + rest == s;
    assert BitsText(bits) == BitText(first) + BitsText(more);
    assert BitText(first) + (BitsText(more) + "-]") == BitsText(bits) + "-]";
  }

  ghost predicate BadClass(body: string) {
    exists bits :: Sound(bits, '[', []) && Spoils(body, bits, [])
  }

  lemma BadClassIff(body: string)
    ensures ReadClass(body, '[', []) == ClassBad <==> BadClass(body)
  {
    hide Sound, Spoils, ReadClass;
    if ReadClass(body, '[', []) == ClassBad {
      var bits := BadClassBits(body, '[', []);
    }
    if BadClass(body) {
      var bits :| Sound(bits, '[', []) && Spoils(body, bits, []);
      SpoiltClass(body, bits, '[', []);
    }
  }

  // ---------- patterns that do not compile ----------

  function ClassBody(s: string): string {
    if s != "" && s[0] == '^' then s[1..] else s
  }

  /** Reading from the front, a token begins at place `i`. */
  ghost predicate TokenAt(s: string, i: nat)
    decreases i
  {
    s != "" &&
    (i == 0 ||
     (ReadToken(s).One? &&
      var width: int := |s| - |ReadToken(s).rest|;
      0 < width <= i && TokenAt(ReadToken(s).rest, i - width)))
  }

  /** Where a token begins there is a bracket whose class is not closed or has a dash at an end. */
  ghost predicate BadAt(p: string, i: nat) {
    i < |p| && TokenAt(p, i) && p[i] == '[' && BadClass(ClassBody(p[i + 1..]))
  }

  lemma TokenBadIff(s: string)
    requires s != ""
    ensures ReadToken(s) == TokenBad <==> s[0] == '[' && BadClass(ClassBody(s[1..]))
  {
    hide ReadClass, BadClass;
    if s[0] == '[' {
      BadClassIff(ClassBody(s[1..]));
      assert |s| > 1 && s[1] == '^' ==> s[1..][1..] == s[2..];
    }
  }

  lemma {:induction false} RestIsSuffix(s: string)
    requires s != "" && ReadToken(s).One?
    ensures |ReadToken(s).rest| < |s| && ReadToken(s).rest == s[|s| - |ReadToken(s).rest|..]
  {
    hide ReadClass;
    ReadTokenShrinks(s);
    if s[0] == '[' {
      var negated := |s| > 1 && s[1] == '^';
      ClassRestIsSuffix(if negated then s[2..] else s[1..], '[', []);
    }
  }

  lemma {:induction false} ClassRestIsSuffix(s: string, prev: char, acc: seq<char>)
    requires ReadClass(s, prev, acc).Closed?
    ensures var rest := ReadClass(s, prev, acc).rest; |rest| < |s| && rest == s[|s| - |rest|..]
    decreases |s|
  {
    if s[0] != ']' {
      if s[0] != '-' {
        ClassRestIsSuffix(s[1..], s[0], acc + [s[0]]);
      } else {
        ClassRestIsSuffix(s[2..], s[1], acc + CharsAfter(prev, s[1]));
      }
    }
  }

  /** Past the first token the places are those of the rest. */
  lemma BadAtShifts(p: string, i: nat)
    requires p != "" && ReadToken(p).One? && |ReadToken(p).rest| < |p|
    requires ReadToken(p).rest == p[|p| - |ReadToken(p).rest|..]
    ensures var width: nat := |p| - |ReadToken(p).rest|;
            && (BadAt(p, i) ==> i == 0 || (i >= width && BadAt(ReadToken(p).rest, i - width)))
            && (BadAt(ReadToken(p).rest, i) ==> BadAt(p, i + width))
  {
    hide ReadToken, BadClass;
    var rest := ReadToken(p).rest;
    var width: nat := |p| - |rest|;
    if i >= width && i < |p| { assert p[i + 1..] == rest[i - width + 1..]; }
    if i < |rest| { assert p[i + width + 1..] == rest[i + 1..]; }
  }

  lemma FirstTokenBad(p: string)
    requires p != ""
    ensures BadAt(p, 0) <==> ReadToken(p) == TokenBad
  {
    hide ReadToken, BadClass;
    TokenBadIff(p);
  }

  lemma OnlyFirstToken(p: string, i: nat)
    requires p != "" && !ReadToken(p).One? && BadAt(p, i)
    ensures i == 0
  {
    hide ReadToken, BadClass;
  }

  /** Exactly these pattern texts do not compile, the empty one apart. */
  lemma {:induction false} BadPatternIff(p: string)
    ensures Lex(p) == Bad <==> exists i: nat :: BadAt(p, i)
    decreases |p|
  {
    if p == "" {
      forall i: nat ensures !BadAt(p, i) {}
    } else {
      hide ReadToken, BadAt;
      FirstTokenBad(p);
      if ReadToken(p).One? {
        var rest := ReadToken(p).rest;
        RestIsSuffix(p);
        BadPatternIff(rest);
        if i: nat :| BadAt(p, i) { BadAtShifts(p, i); }
        if i: nat :| BadAt(rest, i) { BadAtShifts(p, i); }
      } else if i: nat :| BadAt(p, i) {
        OnlyFirstToken(p, i);
      }
    }
  }

  // ---------- short matches ----------

  /** How many characters a match needs at most: one per atom, none for quantifiers and a final `$`. */
  function Weight(re: seq<Token>): nat {
    if re == [] || re == [End] then 0
    else if |re| >= 2 && IsQuantifier(re[1]) then 1 + Weight(re[2..])
    else 1 + Weight(re[1..])
  }

  lemma {:induction false} ShortMatch(re: seq<Token>, s: string) returns (t: string)
    requires Here(re, s)
    ensures Here(re, t) && |t| <= Weight(re)
    decreases |re|
  {
    if re == [] || re == [End] {
      t := "";
    } else if |re| >= 2 && IsQuantifier(re[1]) {
      var k :| 0 <= k <= |s| && CountOk(re[1], k) && AllMatch(re[0], s[..k]) && Here(re[2..], s[k..]);
      var tail := ShortMatch(re[2..], s[k..]);
      var first := if k == 0 then 0 else 1;
      t := s[..first] + tail;
      assert t[..first] == s[..first] && t[first..] == tail;
      assert first == 1 ==> s[..1][0] == s[..k][0];
    } else {
      var tail := ShortMatch(re[1..], s[1..]);
      t := [s[0]] + tail;
      assert t[1..] == tail;
    }
  }

  ghost predicate HasQuantifier(re: seq<Token>) {
    exists i :: 0 <= i < |re| && IsQuantifier(re[i])
  }

  lemma {:induction false} WeightBelow(re: seq<Token>, s: string)
    requires Here(re, s)
    ensures Weight(re) <= |re|
    ensures HasQuantifier(re) || (re != [] && re[|re| - 1].End?) ==> Weight(re) < |re|
    decreases |re|
  {
    if re == [] || re == [End] {
    } else if |re| >= 2 && IsQuantifier(re[1]) {
      var k :| 0 <= k <= |s| && CountOk(re[1], k) && AllMatch(re[0], s[..k]) && Here(re[2..], s[k..]);
      WeightBelow(re[2..], s[k..]);
    } else {
      WeightBelow(re[1..], s[1..]);
      if HasQuantifier(re) {
        var i :| 0 <= i < |re| && IsQuantifier(re[i]);
        assert i > 0 && re[1..][i - 1] == re[i];
      }
    }
  }

  // ---------- token lists and the texts they come from ----------

  lemma {:induction false} LexLength(p: string)
    requires Lex(p).Tokens?
    ensures |Lex(p).re| <= |p|
    ensures '\\' in p || '[' in p ==> |Lex(p).re| < |p|
    decreases |p|
  {
    if p != "" {
      var rest := ReadToken(p).rest;
      RestIsSuffix(p);
      LexLength(rest);
      TokenWidth(p);
      assert p == p[..|p| - |rest|] + rest;
    }
  }

  lemma TokenWidth(p: string)
    requires p != "" && ReadToken(p).One?
    ensures |p| - |ReadToken(p).rest| == 1 || |p| - |ReadToken(p).rest| >= 2
    ensures p[0] == '\\' || p[0] == '[' ==> |p| - |ReadToken(p).rest| >= 2
    ensures p[0] != '\\' && p[0] != '[' ==> ReadToken(p) == RegexSyntax.One(PlainToken(p[0]), p[1..])
  {
    hide ReadClass;
    RestIsSuffix(p);
    if p[0] == '[' {
      var negated := |p| > 1 && p[1] == '^';
      ClassRestIsSuffix(if negated then p[2..] else p[1..], '[', []);
    }
  }

  lemma {:induction false} LexPlain(p: string)
    requires '\\' !in p && '[' !in p
    ensures Lex(p) == Tokens(seq(|p|, i requires 0 <= i < |p| => PlainToken(p[i])))
  {
    if p != "" {
      assert p == [p[0]] + p[1..];
      LexPlain(p[1..]);
    }
  }
}
