/** The spellings of numbers, ports, payload bytes and protocols the daemon takes, beyond those it prints. */
module CustomForms {
  import opened Text
  import opened Strings
  import opened CustomApps
  import opened CustomText

  // ---------- numbers ----------

  ghost predicate AllSpace(w: string) {
    forall i :: 0 <= i < |w| ==> w[i] in " \t\n\U{b}\U{c}\r"
  }

  /** White space, a sign, zeros and the digits of `n`. */
  function Spelling(w: string, sign: string, zeros: nat, n: nat): string {
    w + (sign + (seq(zeros, _ => '0') + Dec(n)))
  }

  lemma {:induction false} SpacesSkipped(w: string, s: string)
    requires AllSpace(w) && s != "" && !IsSpace(s[0])
    ensures SkipSpace(w + s) == s
  {
    if w == "" {
      assert w + s == s;
    } else {
      assert (w + s)[0] == w[0] && (w + s)[1..] == w[1..] + s;
      SpacesSkipped(w[1..], s);
    }
  }

  lemma {:induction false} ZerosRead(zeros: nat, t: string)
    ensures ReadDigits(seq(zeros, _ => '0') + t, 0) == ReadDigits(t, 0)
  {
    var s := seq(zeros, _ => '0') + t;
    if zeros == 0 {
      assert s == t;
    } else {
      assert s[0] == '0' && s[1..] == seq(zeros - 1, _ => '0') + t;
      ZerosRead(zeros - 1, t);
    }
  }

  lemma DigitsFirst(zeros: nat, n: nat, rest: string)
    ensures var s := seq(zeros, _ => '0') + Dec(n) + rest; s != "" && IsDigit(s[0])
  {
    hide Dec;
    DecIsDigits(n);
    var s := seq(zeros, _ => '0') + Dec(n) + rest;
    assert s[0] == if zeros > 0 then '0' else Dec(n)[0];
  }

  lemma DigitsRead(zeros: nat, n: nat, rest: string)
    requires rest == "" || !IsDigit(rest[0])
    ensures ReadDigits(seq(zeros, _ => '0') + Dec(n) + rest, 0) == (n, rest)
  {
    hide Dec, ReadDigits;
    assert seq(zeros, _ => '0') + Dec(n) + rest == seq(zeros, _ => '0') + (Dec(n) + rest);
    ZerosRead(zeros, Dec(n) + rest);
    ReadsDec(n, rest);
    NoDigitsLeft(rest, n);
  }

  /** Every spelling is read as its number, up to where its digits end. */
  lemma SpellingReads(w: string, sign: string, zeros: nat, n: nat, rest: string)
    requires AllSpace(w) && (sign == "" || sign == "+" || sign == "-") && (rest == "" || !IsDigit(rest[0]))
    ensures Strtol(Spelling(w, sign, zeros, n) + rest) == (if sign == "-" then -(n as int) else n, rest)
  {
    hide Dec, ReadDigits, SkipSpace;
    var digits := seq(zeros, _ => '0') + Dec(n) + rest;
    var t := sign + digits;
    DigitsFirst(zeros, n, rest);
    DigitsRead(zeros, n, rest);
    assert Spelling(w, sign, zeros, n) + rest == w + t;
    assert t[0] == if sign == "" then digits[0] else sign[0];
    SpacesSkipped(w, t);
    assert (if sign == "" then t else t[1..]) == digits;
  }

  // ---------- ports ----------

  ghost predicate SpellsPort(text: string, w: string, plus: bool, zeros: nat, p: nat) {
    AllSpace(w) && text == Spelling(w, if plus then "+" else "", zeros, p)
  }

  /** A port may be spelled with spaces, a plus and zeros in front. */
  ghost predicate PortSpelling(text: string, p: nat) {
    exists w, plus: bool, zeros: nat :: SpellsPort(text, w, plus, zeros, p)
  }

  lemma PortReads(text: string, p: nat)
    requires PortSpelling(text, p)
    ensures text != "" && '-' !in text
    ensures ParseInt(text, 1, 65535) == if 1 <= p <= 65535 then Some(p as int) else None
  {
    hide Dec, Strtol;
    var w, plus: bool, zeros: nat :| SpellsPort(text, w, plus, zeros, p);
    SpellingReads(w, if plus then "+" else "", zeros, p, "");
    assert text + "" == text;
    DecIsDigits(p);
    assert forall i :: 0 <= i < |w| ==> w[i] != '-';
  }

  /** One port is taken when it is from 1 to 65535 and fits its field, and is stored plain. */
  lemma OnePortForm(text: string, p: nat)
    requires PortSpelling(text, p)
    ensures NormalizePort(text) == if |text| <= 15 && 1 <= p <= 65535 then Some(IntText(p)) else None
  {
    hide ParseInt, IntText, PortSpelling;
    PortReads(text, p);
  }

  /** A range is taken when both ends are ports and it does not run backwards. */
  lemma PortRangeForm(from: string, p: nat, end: string, q: nat)
    requires PortSpelling(from, p) && PortSpelling(end, q)
    ensures NormalizePort(from + "-" + end) ==
            if |from| + 1 + |end| <= 15 && 1 <= p <= q <= 65535 then Some(IntText(p) + "-" + IntText(q)) else None
  {
    hide ParseInt, IntText, PortSpelling, Find;
    PortReads(from, p);
    PortReads(end, q);
    var text := from + "-" + end;
    FindAfter(from, '-', end);
    assert from + ['-'] + end == text;
    assert text[..|from|] == from && text[|from| + 1..] == end;
  }

  // ---------- payload bytes ----------

  function HexChar(d: nat, upper: bool): char
    requires d < 16
  {
    if upper then "0123456789ABCDEF"[d] else "0123456789abcdef"[d]
  }

  lemma HexCharReads(d: nat, upper: bool)
    requires d < 16
    ensures IsHex(HexChar(d, upper)) && HexValue(HexChar(d, upper)) == d && HexChar(d, upper) != ':'
  {
  }

  /** A payload check is a position and two hexadecimal digits of either case. */
  lemma PayloadForm(w: string, sign: string, zeros: nat, n: nat, high: nat, low: nat, up1: bool, up2: bool)
    requires AllSpace(w) && (sign == "" || sign == "+" || sign == "-") && n <= INT_MAX && high < 16 && low < 16
    ensures ParsePayload(Spelling(w, sign, zeros, n) + [':'] + [HexChar(high, up1), HexChar(low, up2)]) ==
            Some(Payload(if sign == "-" then -(n as int) else n, 16 * high + low))
  {
    hide Dec, Strtol, HexChar, HexValue, IsHex, Find;
    var number, value := Spelling(w, sign, zeros, n), [HexChar(high, up1), HexChar(low, up2)];
    var item := number + [':'] + value;
    HexCharReads(high, up1);
    HexCharReads(low, up2);
    SpellingReads(w, sign, zeros, n, "");
    assert number + "" == number;
    NoColon(w, sign, zeros, n);
    FindAfter(number, ':', value);
    assert item[..|number|] == number && item[|number| + 1..] == value;
  }

  lemma NoColon(w: string, sign: string, zeros: nat, n: nat)
    requires AllSpace(w) && (sign == "" || sign == "+" || sign == "-")
    ensures ':' !in Spelling(w, sign, zeros, n)
  {
    hide Dec;
    DecIsDigits(n);
    assert forall i :: 0 <= i < |w| ==> w[i] != ':';
  }

  // ---------- protocols and names ----------

  /** The protocol is `tcp` or `udp` in any case. */
  lemma ProtocolForms(s: string)
    requires |s| == 3
    ensures LowerAll(s) == "tcp" <==> s[0] in "tT" && s[1] in "cC" && s[2] in "pP"
    ensures LowerAll(s) == "udp" <==> s[0] in "uU" && s[1] in "dD" && s[2] in "pP"
  {
    assert LowerAll(s) == [Lower(s[0]), Lower(s[1]), Lower(s[2])];
    assert "tcp" == ['t', 'c', 'p'] && "udp" == ['u', 'd', 'p'];
  }

  lemma ForbiddenIff(text: string)
    ensures Forbidden(text) <==> exists i :: 0 <= i < |text| && text[i] in " \t\n\U{b}\U{c}\r;,[]"
    ensures ForbiddenInName(text) <==> exists i :: 0 <= i < |text| && text[i] in ":~[];,"
  {
  }
}
