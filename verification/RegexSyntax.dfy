/** What a pattern text says: its syntax tree, its language, and the compiler that reads it. */
module RegexSyntax {
  import opened Regex

  // ---------- syntax and language ----------

  datatype Part = Single(c: char) | Range(lo: char, hi: char)

  datatype Atom =
    | Lit(c: char, escaped: bool)
    | Any
    | Class(negated: bool, parts: seq<Part>)
    | Digits(negated: bool)

  datatype Repeat = Once | Many | OneOrMore | Maybe

  datatype Item = Item(atom: Atom, repeat: Repeat)

  datatype Pattern = Pattern(atStart: bool, items: seq<Item>, atEnd: bool)

  ghost predicate PartHas(part: Part, c: char) {
    match part
    case Single(d) => c == d
    case Range(lo, hi) => lo <= c <= hi
  }

  ghost predicate AtomHas(a: Atom, c: char) {
    match a
    case Lit(d, _) => c == d
    case Any => true
    case Class(negated, parts) => (exists part :: part in parts && PartHas(part, c)) != negated
    case Digits(negated) => ('0' <= c <= '9') != negated
  }

  /** `v` is a repetition of characters of the atom, as many times as the quantifier allows. */
  ghost predicate InItem(item: Item, v: string) {
    && (forall i :: 0 <= i < |v| ==> AtomHas(item.atom, v[i]))
    && match item.repeat
       case Once => |v| == 1
       case Many => true
       case OneOrMore => |v| >= 1
       case Maybe => |v| <= 1
  }

  /** `v` is in the concatenation of the items' languages. */
  ghost predicate InItems(items: seq<Item>, v: string) {
    if items == [] then v == []
    else exists k :: 0 <= k <= |v| && InItem(items[0], v[..k]) && InItems(items[1..], v[k..])
  }

  /** The text splits as u + v + w with v in the language, u empty under `^`, w empty under `$`. */
  ghost predicate Denotes(p: Pattern, text: string) {
    exists i, j :: 0 <= i <= j <= |text| && InItems(p.items, text[i..j]) &&
      (p.atStart ==> i == 0) && (p.atEnd ==> j == |text|)
  }

  // ---------- the pattern text of a tree ----------

  function RenderPart(part: Part): string {
    match part
    case Single(c) => [c]
    case Range(lo, hi) => [lo, '-', hi]
  }

  function RenderParts(parts: seq<Part>): string {
    if parts == [] then "" else RenderPart(parts[0]) + RenderParts(parts[1..])
  }

  function RenderAtom(a: Atom): string {
    match a
    case Lit(c, escaped) => if escaped then ['\\', c] else [c]
    case Any => "."
    case Class(negated, parts) => (if negated then "[^" else "[") + RenderParts(parts) + "]"
    case Digits(negated) => if negated then "\\D" else "\\d"
  }

  function RenderRepeat(r: Repeat): string {
    match r
    case Once => ""
    case Many => "*"
    case OneOrMore => "+"
    case Maybe => "?"
  }

  function RenderItems(items: seq<Item>): string {
    if items == [] then ""
    else RenderAtom(items[0].atom) + RenderRepeat(items[0].repeat) + RenderItems(items[1..])
  }

  function Render(p: Pattern): string {
    (if p.atStart then "^" else "") + RenderItems(p.items) + (if p.atEnd then "$" else "")
  }

  function PartChars(part: Part): seq<char> {
    match part
    case Single(c) => [c]
    case Range(lo, hi) => if lo <= hi < '\U{80}' then [lo] + CharsAfter(lo, hi) else []
  }

  function PartsChars(parts: seq<Part>): seq<char> {
    if parts == [] then [] else PartChars(parts[0]) + PartsChars(parts[1..])
  }

  /** The class buffer has room for 255 characters and a terminator. */
  const CLASS_ROOM := 255

  ghost predicate ValidPart(part: Part) {
    match part
    case Single(c) => c != ']' && c != '-'
    case Range(lo, hi) => lo != ']' && lo != '-' && hi != ']' && lo <= hi < '\U{80}'
  }

  ghost predicate ValidAtom(a: Atom) {
    match a
    case Lit(c, true) => c != 'd' && c != 'D'
    case Lit(c, false) => c != '\\' && c != '.' && c != '*' && c != '+' && c != '?' && c != '['
    case Class(negated, parts) =>
      && (forall part :: part in parts ==> ValidPart(part))
      && (!negated && parts != [] ==> RenderPart(parts[0])[0] != '^')
      && |PartsChars(parts)| <= CLASS_ROOM
    case _ => true
  }

  /** A bare `^` in front or `$` at the end would be read as an anchor. */
  ghost predicate ValidPattern(p: Pattern) {
    && (forall item :: item in p.items ==> ValidAtom(item.atom))
    && (!p.atStart && p.items != [] ==> p.items[0].atom != Lit('^', false))
    && (!p.atEnd && p.items != [] ==> p.items[|p.items| - 1] != Item(Lit('$', false), Once))
    && (p.atStart || p.atEnd || p.items != [])
  }

  // ---------- reading a pattern text ----------

  /** `Undefined` is where the C reads or writes outside its buffers. */
  datatype Compiled = Tokens(re: seq<Token>) | Bad | Undefined

  datatype ClassRead = Closed(chars: seq<char>, rest: string) | ClassBad | ClassUndefined

  datatype TokenRead = One(t: Token, rest: string) | TokenBad | TokenUndefined

  const DIGITS := "0123456789"

  /** The characters from the one after `lo` up to `hi`. */
  function CharsAfter(lo: char, hi: char): seq<char>
    requires lo <= hi < '\U{80}'
    decreases hi as int - lo as int
  {
    if lo == hi then []
    else
      var next := (lo as int + 1) as char;
      [next] + CharsAfter(next, hi)
  }

  /** The rest of a bracket list; `prev` is the character before `s`. */
  function ReadClass(s: string, prev: char, acc: seq<char>): ClassRead {
    if |acc| > CLASS_ROOM then ClassUndefined
    else if s == "" then ClassBad
    else if s[0] == ']' then Closed(acc, s[1..])
    else if s[0] != '-' then ReadClass(s[1..], s[0], acc + [s[0]])
    else if acc == [] || (|s| > 1 && s[1] == ']') then ClassBad
    else if |s| == 1 || !(prev <= s[1] < '\U{80}') then ClassUndefined
    else ReadClass(s[2..], s[1], acc + CharsAfter(prev, s[1]))
  }

  function ReadToken(s: string): TokenRead
    requires s != ""
  {
    match s[0]
    case '\\' =>
      if |s| == 1 then TokenUndefined
      else One(EscapedToken(s[1]), s[2..])
    case '[' =>
      var negated := |s| > 1 && s[1] == '^';
      (match ReadClass(if negated then s[2..] else s[1..], '[', [])
       case Closed(chars, rest) => One(List(negated, chars), rest)
       case ClassBad => TokenBad
       case ClassUndefined => TokenUndefined)
    case c => One(PlainToken(c), s[1..])
  }

  function EscapedToken(c: char): Token {
    if c == 'd' then List(false, DIGITS) else if c == 'D' then List(true, DIGITS) else Char(c)
  }

  function PlainToken(c: char): Token {
    match c
    case '.' => Dot
    case '^' => Begin
    case '$' => End
    case '*' => Star
    case '+' => Plus
    case '?' => Ques
    case _ => Char(c)
  }

  lemma {:induction false} ReadClassShrinks(s: string, prev: char, acc: seq<char>)
    ensures ReadClass(s, prev, acc).Closed? ==> |ReadClass(s, prev, acc).rest| < |s|
    decreases |s|
  {
    if |acc| <= CLASS_ROOM && s != "" && s[0] != ']' {
      if s[0] != '-' {
        ReadClassShrinks(s[1..], s[0], acc + [s[0]]);
      } else if acc != [] && |s| > 1 && s[1] != ']' && prev <= s[1] < '\U{80}' {
        ReadClassShrinks(s[2..], s[1], acc + CharsAfter(prev, s[1]));
      }
    }
  }

  lemma ReadTokenShrinks(s: string)
    requires s != ""
    ensures ReadToken(s).One? ==> |ReadToken(s).rest| < |s|
  {
    if s[0] == '[' {
      var negated := |s| > 1 && s[1] == '^';
      ReadClassShrinks(if negated then s[2..] else s[1..], '[', []);
    }
  }

  /** The tokens of a pattern text, left to right. */
  function Lex(s: string): Compiled
    decreases |s|
  {
    if s == "" then Tokens([])
    else
      match ReadToken(s)
      case TokenBad => Bad
      case TokenUndefined => Undefined
      case One(t, rest) =>
        ReadTokenShrinks(s);
        Prepend([t], Lex(rest))
  }

  function Prepend(ts: seq<Token>, c: Compiled): Compiled {
    match c
    case Tokens(re) => Tokens(ts + re)
    case _ => c
  }

  lemma LexStep(re: seq<Token>, s: string, t: Token, rest: string)
    requires s != "" && ReadToken(s) == One(t, rest)
    ensures Prepend(re, Lex(s)) == Prepend(re + [t], Lex(rest))
  {
    if Lex(rest).Tokens? {
      assert re + ([t] + Lex(rest).re) == (re + [t]) + Lex(rest).re;
    }
  }

  /** Fills the class buffer; range ends come from the text around the dash. */
  method CompileClass(s: string) returns (r: ClassRead)
    ensures r == ReadClass(s, '[', [])
  {
    var acc, i, prev := [], 0, '[';
    assert s[0..] == s;
    while i < |s| && s[i] != ']' && |acc| <= CLASS_ROOM
      invariant 0 <= i <= |s|
      invariant ReadClass(s, '[', []) == ReadClass(s[i..], prev, acc)
    {
      if s[i] != '-' {
        acc, prev, i := acc + [s[i]], s[i], i + 1;
        continue;
      }
      if acc == [] || (i + 1 < |s| && s[i + 1] == ']') { return ClassBad; }
      if i + 1 >= |s| || !(prev <= s[i + 1] < '\U{80}') { return ClassUndefined; }
      var chars := CharsAfter(prev, s[i + 1]);
      acc, prev, i := acc + chars, s[i + 1], i + 2;
    }
    if |acc| > CLASS_ROOM { return ClassUndefined; }
    if i == |s| { return ClassBad; }
    return Closed(acc, s[i + 1..]);
  }

  /** Appends one node per token; an empty list and a bad bracket both give no program. */
  method Compile(pattern: string) returns (r: Compiled)
    ensures r == if pattern == "" then Bad else Lex(pattern)
    ensures r.Tokens? ==> r.re != []
  {
    var re: seq<Token> := [];
    var s := pattern;
    while s != ""
      invariant Lex(pattern) == Prepend(re, Lex(s))
      invariant re == [] ==> s == pattern
      decreases |s|
    {
      ReadTokenShrinks(s);
      ghost var before, was := re, s;
      if s[0] == '\\' {
        if |s| == 1 { return Undefined; }
        re, s := re + [EscapedToken(s[1])], s[2..];
      } else if s[0] == '[' {
        var negated := |s| > 1 && s[1] == '^';
        var c := CompileClass(if negated then s[2..] else s[1..]);
        match c {
          case ClassBad => return Bad;
          case ClassUndefined => return Undefined;
          case Closed(chars, rest) => re, s := re + [List(negated, chars)], rest;
        }
      } else {
        re, s := re + [PlainToken(s[0])], s[1..];
      }
      LexStep(before, was, re[|re| - 1], s);
    }
    if re == [] { return Bad; }
    return Tokens(re);
  }

  /** 1 on a match, 0 on none, -1 when there is no program. */
  method RegexpMatch(pattern: string, longest: bool, text: string) returns (ret: int)
    requires Lex(pattern) != Undefined
    ensures ret == RegexpResult(pattern, text)
  {
    var c := Compile(pattern);
    match c {
      case Bad => return -1;
      case Tokens(re) =>
        var found := MatchTokens(re, longest, text);
        return if found then 1 else 0;
    }
  }

  ghost function RegexpResult(pattern: string, text: string): int
    requires Lex(pattern) != Undefined
  {
    if pattern == "" || Lex(pattern).Bad? then -1
    else if Found(Lex(pattern).re, text) then 1
    else 0
  }
}
