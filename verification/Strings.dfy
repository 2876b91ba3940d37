/** The C string routines the daemon's parsers lean on. */
module Strings {
  import opened Text

  predicate IsDigit(c: char) { '0' <= c <= '9' }

  predicate IsSpace(c: char) {
    c == ' ' || ('\t' <= c <= '\r')
  }

  // ---------- decimal ----------

  function DigitChar(d: nat): char
    requires d < 10
  {
    ('0' as int + d) as char
  }

  function DigitValue(c: char): nat
    requires IsDigit(c)
  {
    c as int - '0' as int
  }

  /** `%d` of a number that is not negative. */
  function Dec(n: nat): string {
    if n < 10 then [DigitChar(n)] else Dec(n / 10) + [DigitChar(n % 10)]
  }

  function IntText(i: int): string {
    if i < 0 then "-" + Dec(-i) else Dec(i)
  }

  /** Reads digits while there are any. */
  function ReadDigits(s: string, acc: nat): (nat, string) {
    if s != "" && IsDigit(s[0]) then ReadDigits(s[1..], acc * 10 + DigitValue(s[0])) else (acc, s)
  }

  function SkipSpace(s: string): string {
    if s != "" && IsSpace(s[0]) then SkipSpace(s[1..]) else s
  }

  /** `strtol` in base ten: the value and where it stopped, at the start if it read no digit. */
  function Strtol(s: string): (int, string) {
    var t := SkipSpace(s);
    var negative := t != "" && t[0] == '-';
    var digits := if t != "" && (t[0] == '-' || t[0] == '+') then t[1..] else t;
    if digits == "" || !IsDigit(digits[0]) then (0, s)
    else
      var read := ReadDigits(digits, 0);
      var value: int := read.0;
      (if negative then -value else value, read.1)
  }

  lemma {:induction false} DecIsDigits(n: nat)
    ensures |Dec(n)| > 0 && forall i :: 0 <= i < |Dec(n)| ==> IsDigit(Dec(n)[i])
  {
    if n >= 10 { DecIsDigits(n / 10); }
  }

  lemma {:induction false} ReadsDec(n: nat, rest: string)
    ensures ReadDigits(Dec(n) + rest, 0) == ReadDigits(rest, n)
    decreases n
  {
    var s := Dec(n) + rest;
    if n < 10 {
      assert s[0] == DigitChar(n) && s[1..] == rest;
    } else {
      var tail := [DigitChar(n % 10)] + rest;
      assert s == Dec(n / 10) + tail;
      ReadsDec(n / 10, tail);
      assert tail[0] == DigitChar(n % 10) && tail[1..] == rest;
    }
  }

  lemma DecStarts(n: nat, rest: string)
    ensures var s := Dec(n) + rest; s != "" && IsDigit(s[0])
  {
    hide Dec;
    DecIsDigits(n);
    assert (Dec(n) + rest)[0] == Dec(n)[0];
  }

  lemma StrtolReadsInt(i: int, rest: string)
    requires rest == "" || !IsDigit(rest[0])
    ensures Strtol(IntText(i) + rest) == (i, rest)
  {
    hide Dec, ReadDigits;
    var n: nat := if i < 0 then -i else i;
    var s, digits := IntText(i) + rest, Dec(n) + rest;
    DecStarts(n, rest);
    ReadsDec(n, rest);
    NoDigitsLeft(rest, n);
    if i < 0 {
      assert s == "-" + digits;
      assert s[0] == '-' && s[1..] == digits;
    } else {
      assert s == digits;
    }
  }

  lemma NoDigitsLeft(s: string, n: nat)
    requires s == "" || !IsDigit(s[0])
    ensures ReadDigits(s, n) == (n, s)
  {
  }

  /** `parse_integer`: the whole text, within bounds. */
  function ParseInt(s: string, lo: int, hi: int): Option<int> {
    var (n, rest) := Strtol(s);
    if s == "" || rest != "" || n < lo || n > hi then None else Some(n)
  }

  lemma ParsesInt(i: int, lo: int, hi: int)
    requires lo <= i <= hi
    ensures ParseInt(IntText(i), lo, hi) == Some(i)
  {
    StrtolReadsInt(i, "");
    assert IntText(i) + "" == IntText(i);
    DecIsDigits(if i < 0 then -i else i);
  }

  // ---------- cutting at a character ----------

  /** `strchr`: place of the first `c`. */
  function Find(s: string, c: char): (r: Option<nat>)
    ensures r.Some? ==> r.value < |s| && s[r.value] == c && c !in s[..r.value]
    ensures r.None? ==> c !in s
  {
    if s == "" then None
    else if s[0] == c then Some(0)
    else
      assert s == [s[0]] + s[1..];
      match Find(s[1..], c)
      case None => None
      case Some(i) =>
        assert s[..i + 1] == [s[0]] + s[1..][..i];
        Some(i + 1)
  }

  /** The pieces between the delimiters, empty ones too. */
  function Split(s: string, c: char): (r: seq<string>)
    ensures |r| > 0
    decreases |s|
  {
    match Find(s, c)
    case None => [s]
    case Some(i) => [s[..i]] + Split(s[i + 1..], c)
  }

  function Join(fields: seq<string>, c: char): string
    requires fields != []
  {
    if |fields| == 1 then fields[0] else fields[0] + [c] + Join(fields[1..], c)
  }

  lemma FindAfter(a: string, c: char, rest: string)
    requires c !in a
    ensures Find(a + [c] + rest, c) == Some(|a|)
  {
    var s := a + [c] + rest;
    assert s[|a|] == c;
    forall i | 0 <= i < |a| ensures s[i] != c {
      assert s[i] == a[i];
    }
    forall v | |a| < v <= |s| ensures c in s[..v] {
      assert s[..v][|a|] == c;
    }
  }

  lemma {:induction false} SplitsJoin(fields: seq<string>, c: char)
    requires fields != [] && forall i :: 0 <= i < |fields| ==> c !in fields[i]
    ensures Split(Join(fields, c), c) == fields
  {
    if |fields| > 1 {
      var rest := Join(fields[1..], c);
      var s := fields[0] + [c] + rest;
      FindAfter(fields[0], c, rest);
      assert s[..|fields[0]|] == fields[0] && s[|fields[0]| + 1..] == rest;
      SplitsJoin(fields[1..], c);
    }
  }

  /** `trim_space` */
  function TrimEnd(s: string): string {
    if s != "" && IsSpace(s[|s| - 1]) then TrimEnd(s[..|s| - 1]) else s
  }

  function Trim(s: string): string {
    TrimEnd(SkipSpace(s))
  }

  predicate Trimmed(s: string) {
    s == "" || (!IsSpace(s[0]) && !IsSpace(s[|s| - 1]))
  }

  lemma TrimLeavesTrimmed(s: string)
    requires Trimmed(s)
    ensures Trim(s) == s
  {
  }

  // ---------- lists of parsed fields ----------

  /** Parses every field, failing with the first that fails. */
  function ParseAll<T>(parse: string -> Option<T>, fields: seq<string>): Option<seq<T>>
    decreases |fields|
  {
    if fields == [] then Some([])
    else
      match parse(fields[0])
      case None => None
      case Some(x) =>
        match ParseAll(parse, fields[1..])
        case None => None
        case Some(xs) => Some([x] + xs)
  }

  function PrintAll<T>(show: T -> string, xs: seq<T>): (r: seq<string>)
    ensures |r| == |xs| && forall i :: 0 <= i < |xs| ==> r[i] == show(xs[i])
  {
    if xs == [] then [] else [show(xs[0])] + PrintAll(show, xs[1..])
  }

  lemma {:induction false} ParsesAll<T>(parse: string -> Option<T>, fields: seq<string>, xs: seq<T>)
    requires |fields| == |xs| && forall i :: 0 <= i < |xs| ==> parse(fields[i]) == Some(xs[i])
    ensures ParseAll(parse, fields) == Some(xs)
    decreases |xs|
  {
    if xs != [] {
      ParsesAll(parse, fields[1..], xs[1..]);
      assert [xs[0]] + xs[1..] == xs;
    }
  }
}
