/** Any JSON text a caller may write (RFC 8259), not only printed ones, and the tree it is read as. */
module JsonTexts {
  import opened Strings
  import opened Json
  import opened JsonRoundTrip
  import T = Text

  /** Section 7: a character of its own, or one of the eight short escapes. */
  datatype Piece = Bare(c: char) | Escape(c: char)

  /** Sections 2 to 6, with the white space between the tokens; numbers are integers. */
  datatype Source =
    | NullText
    | FalseText
    | TrueText
    | NumberText(minus: bool, n: nat)
    | StringText(pieces: seq<Piece>)
    | ArrayText(gap: string, elements: seq<Element>)
    | ObjectText(gap: string, pairs: seq<Pair>)

  datatype Element = Element(before: string, source: Source, after: string)

  datatype Pair = Pair(before: string, key: seq<Piece>, mid: string, element: Element)

  ghost predicate Blanks(w: string) {
    forall i :: 0 <= i < |w| ==> w[i] == ' ' || w[i] == '\t' || w[i] == '\n' || w[i] == '\r'
  }

  predicate ValidPiece(p: Piece) {
    match p
    case Bare(c) => c as int > 31 && c != '\"' && c != '\\'
    case Escape(c) => c in "\"\\/bfnrt"
  }

  ghost predicate ValidPieces(ps: seq<Piece>) {
    forall i :: 0 <= i < |ps| ==> ValidPiece(ps[i])
  }

  /** A text whose numbers have digits for at most `max`. */
  ghost predicate ValidSource(s: Source, max: nat)
    decreases s, 1
  {
    match s
    case NumberText(_, n) => n <= max
    case StringText(pieces) => ValidPieces(pieces)
    case ArrayText(gap, elements) => Blanks(gap) && forall i :: 0 <= i < |elements| ==> ValidElement(elements[i], max)
    case ObjectText(gap, pairs) => Blanks(gap) && forall i :: 0 <= i < |pairs| ==> ValidPair(pairs[i], max)
    case _ => true
  }

  ghost predicate ValidElement(e: Element, max: nat)
    decreases e, 0
  {
    Blanks(e.before) && ValidSource(e.source, max) && Blanks(e.after)
  }

  ghost predicate ValidPair(p: Pair, max: nat)
    decreases p, 0
  {
    Blanks(p.before) && ValidPieces(p.key) && Blanks(p.mid) && ValidElement(p.element, max)
  }

  function Spelled(ps: seq<Piece>): string {
    if ps == [] then ""
    else
      (match ps[0]
       case Bare(c) => [c]
       case Escape(c) => ['\\', c]) + Spelled(ps[1..])
  }

  function InQuotes(ps: seq<Piece>): string {
    "\"" + Spelled(ps) + "\""
  }

  function Written(s: Source): string
    decreases s, 0
  {
    match s
    case NullText => "null"
    case FalseText => "false"
    case TrueText => "true"
    case NumberText(minus, n) => (if minus then "-" else "") + Dec(n)
    case StringText(pieces) => InQuotes(pieces)
    case ArrayText(gap, elements) => "[" + (if elements == [] then gap else WrittenElements(elements)) + "]"
    case ObjectText(gap, pairs) => "{" + (if pairs == [] then gap else WrittenPairs(pairs)) + "}"
  }

  function WrittenElement(e: Element): string
    decreases e, 0
  {
    e.before + Written(e.source) + e.after
  }

  function WrittenElements(es: seq<Element>): string
    decreases es, 0
  {
    if es == [] then ""
    else WrittenElement(es[0]) + (if |es| > 1 then "," else "") + WrittenElements(es[1..])
  }

  function WrittenPair(p: Pair): string
    decreases p, 0
  {
    p.before + InQuotes(p.key) + p.mid + ":" + WrittenElement(p.element)
  }

  function WrittenPairs(ps: seq<Pair>): string
    decreases ps, 0
  {
    if ps == [] then "" else WrittenPair(ps[0]) + (if |ps| > 1 then "," else "") + WrittenPairs(ps[1..])
  }

  /** The table of section 7. */
  function StandsFor(c: char): char {
    if c == 'b' then '\U{8}' else if c == 'f' then '\U{c}' else if c == 'n' then '\U{a}'
    else if c == 'r' then '\U{d}' else if c == 't' then '\U{9}' else if c == '/' then '/'
    else if c == '\"' then '\"' else '\\'
  }

  function Meant(ps: seq<Piece>): string {
    seq(|ps|, i requires 0 <= i < |ps| => if ps[i].Bare? then ps[i].c else StandsFor(ps[i].c))
  }

  /** The tree a text stands for; the parser drops the signs of its numbers. */
  function Tree(s: Source, signs: bool): Value
    decreases s, 0
  {
    match s
    case NullText => Null
    case FalseText => False
    case TrueText => True
    case NumberText(minus, n) => Number(if minus && signs then -(n as int) else n)
    case StringText(pieces) => Text(Meant(pieces))
    case ArrayText(_, elements) => Array(Trees(elements, signs))
    case ObjectText(_, pairs) => Object(Members(pairs, signs))
  }

  function Trees(es: seq<Element>, signs: bool): seq<Value>
    decreases es, 0
  {
    if es == [] then [] else [Tree(es[0].source, signs)] + Trees(es[1..], signs)
  }

  function Members(ps: seq<Pair>, signs: bool): seq<Member>
    decreases ps, 0
  {
    if ps == [] then []
    else [Member(Meant(ps[0].key), Tree(ps[0].element.source, signs))] + Members(ps[1..], signs)
  }

  // ---------- tokens ----------

  lemma PieceReads(p: Piece, tail: string, out: string)
    requires ValidPiece(p)
    ensures Chars(Spelled([p]) + tail, out) == Chars(tail, out + Meant([p]))
  {
    hide Spelled, Meant;
    OnePiece(p);
    var t := Spelled([p]) + tail;
    if p.Bare? {
      assert t[0] == p.c && t[1..] == tail;
    } else {
      assert t[0] == '\\' && t[1] == p.c && t[2..] == tail;
      EscapeReads(p.c);
    }
  }

  lemma OnePiece(p: Piece)
    ensures Spelled([p]) == if p.Bare? then [p.c] else ['\\', p.c]
    ensures Meant([p]) == [if p.Bare? then p.c else StandsFor(p.c)]
  {
    assert [p][1..] == [];
    if p.Escape? { assert ['\\', p.c] + "" == ['\\', p.c]; } else { assert [p.c] + "" == [p.c]; }
  }

  lemma EscapeReads(c: char)
    requires c in "\"\\/bfnrt"
    ensures c != 'u' && Unescaped(c) == StandsFor(c)
  {
  }

  lemma {:induction false} PiecesRead(ps: seq<Piece>, out: string, rest: string)
    requires ValidPieces(ps)
    ensures Chars(Spelled(ps) + ("\"" + rest), out) == Done(out + Meant(ps), rest)
    decreases |ps|
  {
    hide Chars, ValidPiece;
    var end := "\"" + rest;
    if ps == [] {
      ClosingQuote(end, rest, out);
      assert Spelled(ps) + end == end && out + Meant(ps) == out;
    } else {
      var tail := Spelled(ps[1..]) + end;
      FirstPiece(ps);
      assert Spelled(ps) + end == Spelled([ps[0]]) + tail;
      PieceReads(ps[0], tail, out);
      PiecesRead(ps[1..], out + Meant([ps[0]]), rest);
      assert out + Meant([ps[0]]) + Meant(ps[1..]) == out + Meant(ps);
    }
  }

  lemma FirstPiece(ps: seq<Piece>)
    requires ps != []
    ensures Spelled(ps) == Spelled([ps[0]]) + Spelled(ps[1..])
    ensures Meant(ps) == Meant([ps[0]]) + Meant(ps[1..])
  {
    hide Meant, Spelled;
    FirstSpelled(ps);
    FirstMeant(ps);
  }

  lemma FirstSpelled(ps: seq<Piece>)
    requires ps != []
    ensures Spelled(ps) == Spelled([ps[0]]) + Spelled(ps[1..])
  {
    hide Meant;
    OnePiece(ps[0]);
  }

  lemma FirstMeant(ps: seq<Piece>)
    requires ps != []
    ensures Meant(ps) == Meant([ps[0]]) + Meant(ps[1..])
  {
    hide Spelled, StandsFor;
  }

  /** Every string text, whatever of it is escaped, is read as the characters it stands for. */
  lemma StringTextReads(ps: seq<Piece>, rest: string)
    requires ValidPieces(ps)
    ensures ParsedString(InQuotes(ps) + rest) == Done(Meant(ps), rest)
  {
    hide Spelled, Meant, Chars;
    var t := InQuotes(ps) + rest;
    assert t[0] == '\"' && t[1..] == Spelled(ps) + ("\"" + rest);
    PiecesRead(ps, "", rest);
    assert "" + Meant(ps) == Meant(ps);
  }

  lemma BlanksSkip(w: string, s: string)
    requires Blanks(w) && s != "" && s[0] > ' '
    ensures Skip(w + s) == T.Some(s)
  {
    SkipsBlanks(w, s);
  }

  lemma FirstOfText(s: Source)
    ensures Written(s) != "" && Written(s)[0] > ' ' && Written(s)[0] != ']' && Written(s)[0] != '}'
    ensures !s.NumberText? ==> Written(s)[0] != '-' && !IsDigit(Written(s)[0])
  {
    if s.NumberText? { DecIsDigits(s.n); }
  }

  lemma NumberTextReads(minus: bool, n: nat, rest: string)
    requires n <= INT_MAX && EndsNumber(rest)
    ensures ParsedValue(Written(NumberText(minus, n)) + rest) == Done(Number(n), rest)
  {
    hide ParsedNumber, Dec;
    var digits := Dec(n) + rest;
    UnsignedReadsBack(n, rest);
    if minus {
      SignIgnored(digits);
      assert Written(NumberText(minus, n)) + rest == "-" + digits;
      assert ("-" + digits)[0] == '-';
    } else {
      assert Written(NumberText(minus, n)) + rest == digits;
    }
  }

  // ---------- arrays ----------

  lemma EndsItems(s: string, acc: seq<Value>, v: Value, w: string, rest: string)
    requires ParsedValue(s) == Done(v, w + ("]" + rest)) && Blanks(w)
    ensures ParsedItems(s, acc) == Done(Array(acc + [v]), rest)
  {
    hide ParsedValue;
    var after := "]" + rest;
    assert after[0] == ']' && after[1..] == rest;
    BlanksSkip(w, after);
  }

  lemma GoesOn(s: string, acc: seq<Value>, v: Value, w: string, x: string, t: string)
    requires ParsedValue(s) == Done(v, w + ("," + (x + t))) && Blanks(w) && Blanks(x)
    requires t != "" && t[0] > ' '
    ensures ParsedItems(s, acc) == ParsedItems(t, acc + [v])
  {
    hide ParsedValue;
    var after := "," + (x + t);
    assert after[0] == ',' && after[1..] == x + t;
    BlanksSkip(w, after);
    BlanksSkip(x, t);
  }

  /** Elements from the first value on; the blanks before it are gone already. */
  function FromFirst(es: seq<Element>, end: string): string
    requires es != []
  {
    Written(es[0].source) + (es[0].after + if |es| > 1 then "," + (es[1].before + FromFirst(es[1..], end)) else end)
  }

  lemma {:induction false} ElementsText(es: seq<Element>, end: string)
    requires es != []
    ensures WrittenElements(es) + end == es[0].before + FromFirst(es, end)
    decreases |es|
  {
    hide Written;
    if |es| > 1 {
      ElementsText(es[1..], end);
      assert WrittenElements(es) == WrittenElement(es[0]) + "," + WrittenElements(es[1..]);
    } else {
      assert es[1..] == [] && WrittenElements(es) == WrittenElement(es[0]) + "" + "";
    }
  }

  lemma FirstOfElements(es: seq<Element>, end: string)
    requires es != []
    ensures FromFirst(es, end) != "" && FromFirst(es, end)[0] == Written(es[0].source)[0] && FromFirst(es, end)[0] > ' '
    ensures FromFirst(es, end)[0] != ']'
  {
    hide Written;
    FirstOfText(es[0].source);
  }

  lemma NumberEnds(w: string, c: char, rest: string)
    requires Blanks(w) && !IsDigit(c)
    ensures EndsNumber(w + ([c] + rest))
  {
  }

  lemma {:induction false} ElementsRead(es: seq<Element>, acc: seq<Value>, rest: string)
    requires es != [] && forall i :: 0 <= i < |es| ==> ValidElement(es[i], INT_MAX)
    ensures ParsedItems(FromFirst(es, "]" + rest), acc) == Done(Array(acc + Trees(es, false)), rest)
    decreases es, 0
  {
    hide ParsedValue, ParsedItems, Written, Blanks, ValidSource, EndsNumber, Tree;
    var s, v := FromFirst(es, "]" + rest), Tree(es[0].source, false);
    assert ValidElement(es[0], INT_MAX);
    if |es| == 1 {
      NumberEnds(es[0].after, ']', rest);
      SourceReads(es[0].source, es[0].after + ("]" + rest));
      EndsItems(s, acc, v, es[0].after, rest);
      assert Trees(es[1..], false) == [] && Trees(es, false) == [v];
    } else {
      var t := FromFirst(es[1..], "]" + rest);
      NumberEnds(es[0].after, ',', es[1].before + t);
      SourceReads(es[0].source, es[0].after + ("," + (es[1].before + t)));
      FirstOfElements(es[1..], "]" + rest);
      assert ValidElement(es[1], INT_MAX);
      GoesOn(s, acc, v, es[0].after, es[1].before, t);
      ElementsRead(es[1..], acc + [v], rest);
      assert acc + [v] + Trees(es[1..], false) == acc + Trees(es, false);
    }
  }

  lemma OpensAt(s: string, w: string, t: string)
    requires s == "[" + (w + t) && Blanks(w) && t != "" && t[0] > ' '
    ensures ParsedValue(s) == if t[0] == ']' then Done(Array([]), t[1..]) else ParsedItems(t, [])
  {
    hide ParsedItems;
    assert s[0] == '[' && s[1..] == w + t;
    BlanksSkip(w, t);
  }

  lemma {:induction false} ArrayTextReads(gap: string, es: seq<Element>, rest: string)
    requires ValidSource(ArrayText(gap, es), INT_MAX)
    ensures ParsedValue(Written(ArrayText(gap, es)) + rest) == Done(Array(Trees(es, false)), rest)
    decreases es, 1
  {
    hide ParsedValue, ParsedItems, Blanks, WrittenElements;
    var s := Written(ArrayText(gap, es)) + rest;
    var end := "]" + rest;
    if es == [] {
      assert s == "[" + (gap + end);
      OpensAt(s, gap, end);
      assert end[1..] == rest;
    } else {
      assert ValidElement(es[0], INT_MAX);
      ElementsText(es, end);
      assert s == "[" + (WrittenElements(es) + end);
      FirstOfElements(es, end);
      OpensAt(s, es[0].before, FromFirst(es, end));
      ElementsRead(es, [], rest);
      assert [] + Trees(es, false) == Trees(es, false);
    }
  }

  // ---------- objects ----------

  lemma EndsMembers(s: string, acc: seq<Member>, m: Member, w: string, rest: string)
    requires ParsedMember(s) == Done(m, w + ("}" + rest)) && Blanks(w)
    ensures ParsedMembers(s, acc) == Done(Object(acc + [m]), rest)
  {
    hide ParsedMember;
    LastMember(s, acc, m, w, rest);
  }

  lemma MembersGoOn(s: string, acc: seq<Member>, m: Member, w: string, x: string, t: string)
    requires ParsedMember(s) == Done(m, w + ("," + (x + t))) && Blanks(w) && Blanks(x)
    requires t != "" && t[0] > ' '
    ensures ParsedMembers(s, acc) == ParsedMembers(t, acc + [m])
  {
    hide ParsedMember;
    var after := "," + (x + t);
    assert after[0] == ',' && after[1..] == x + t;
    BlanksSkip(w, after);
    BlanksSkip(x, t);
  }

  /** A member from its key on, up to its value. */
  function FromKey(p: Pair, end: string): string {
    InQuotes(p.key) + (p.mid + (":" + (p.element.before + (Written(p.element.source) + end))))
  }

  function FromFirstKey(ps: seq<Pair>, end: string): string
    requires ps != []
  {
    FromKey(ps[0], ps[0].element.after +
                   if |ps| > 1 then "," + (ps[1].before + FromFirstKey(ps[1..], end)) else end)
  }

  lemma PairText(p: Pair, end: string)
    ensures WrittenPair(p) + end == p.before + FromKey(p, p.element.after + end)
  {
    hide Written, InQuotes;
  }

  lemma {:induction false} PairsText(ps: seq<Pair>, end: string)
    requires ps != []
    ensures WrittenPairs(ps) + end == ps[0].before + FromFirstKey(ps, end)
    decreases |ps|
  {
    hide WrittenPair, FromKey;
    if |ps| > 1 {
      PairsText(ps[1..], end);
      PairText(ps[0], "," + (ps[1].before + FromFirstKey(ps[1..], end)));
      assert WrittenPairs(ps) + end == WrittenPair(ps[0]) + ("," + (WrittenPairs(ps[1..]) + end));
    } else {
      assert ps[1..] == [] && WrittenPairs(ps[1..]) == "";
      PairText(ps[0], end);
      assert WrittenPairs(ps) + end == WrittenPair(ps[0]) + end;
    }
  }

  lemma FirstOfKey(p: Pair, end: string)
    ensures FromKey(p, end) != "" && FromKey(p, end)[0] == '\"'
  {
    hide Written;
  }

  lemma {:induction false} KeyReads(p: Pair, end: string)
    requires ValidPair(p, INT_MAX) && EndsNumber(end)
    ensures ParsedMember(FromKey(p, end)) == Done(Member(Meant(p.key), Tree(p.element.source, false)), end)
    decreases p, 0
  {
    hide ParsedValue, ParsedString, InQuotes, Written, Blanks, ValidSource, EndsNumber, Tree, Meant, Skip;
    var value := Written(p.element.source) + end;
    var colon := ":" + (p.element.before + value);
    StringTextReads(p.key, p.mid + colon);
    BlanksSkip(p.mid, colon);
    assert colon[0] == ':' && colon[1..] == p.element.before + value;
    FirstOfText(p.element.source);
    assert value[0] == Written(p.element.source)[0];
    BlanksSkip(p.element.before, value);
    SourceReads(p.element.source, end);
  }

  lemma {:induction false} PairsRead(ps: seq<Pair>, acc: seq<Member>, rest: string)
    requires ps != [] && forall i :: 0 <= i < |ps| ==> ValidPair(ps[i], INT_MAX)
    ensures ParsedMembers(FromFirstKey(ps, "}" + rest), acc) == Done(Object(acc + Members(ps, false)), rest)
    decreases ps, 0
  {
    hide ParsedMember, ParsedMembers, FromKey, Blanks, ValidSource, EndsNumber, Tree, Meant, ValidPieces;
    var s, m := FromFirstKey(ps, "}" + rest), Member(Meant(ps[0].key), Tree(ps[0].element.source, false));
    var w := ps[0].element.after;
    assert ValidPair(ps[0], INT_MAX);
    if |ps| == 1 {
      NumberEnds(w, '}', rest);
      KeyReads(ps[0], w + ("}" + rest));
      EndsMembers(s, acc, m, w, rest);
      assert Members(ps[1..], false) == [] && Members(ps, false) == [m];
    } else {
      var t := FromFirstKey(ps[1..], "}" + rest);
      assert ValidPair(ps[1], INT_MAX);
      NumberEnds(w, ',', ps[1].before + t);
      KeyReads(ps[0], w + ("," + (ps[1].before + t)));
      FirstOfPairs(ps[1..], "}" + rest);
      MembersGoOn(s, acc, m, w, ps[1].before, t);
      PairsRead(ps[1..], acc + [m], rest);
      assert acc + [m] + Members(ps[1..], false) == acc + Members(ps, false);
    }
  }

  lemma FirstOfPairs(ps: seq<Pair>, end: string)
    requires ps != []
    ensures FromFirstKey(ps, end) != "" && FromFirstKey(ps, end)[0] == '\"'
  {
    hide FromKey;
    FirstOfKey(ps[0], ps[0].element.after +
                      if |ps| > 1 then "," + (ps[1].before + FromFirstKey(ps[1..], end)) else end);
  }

  lemma {:induction false} ObjectTextReads(gap: string, ps: seq<Pair>, rest: string)
    requires ValidSource(ObjectText(gap, ps), INT_MAX)
    ensures ParsedValue(Written(ObjectText(gap, ps)) + rest) == Done(Object(Members(ps, false)), rest)
    decreases ps, 1
  {
    hide ParsedValue, ParsedMembers, WrittenPairs, FromFirstKey;
    var s := Written(ObjectText(gap, ps)) + rest;
    var end := "}" + rest;
    if ps == [] {
      assert s == "{" + (gap + end);
      OpensObject(s, gap, end);
      assert end[1..] == rest;
    } else {
      assert ValidPair(ps[0], INT_MAX);
      PairsText(ps, end);
      assert s == "{" + (WrittenPairs(ps) + end);
      FirstOfPairs(ps, end);
      OpensObject(s, ps[0].before, FromFirstKey(ps, end));
      PairsRead(ps, [], rest);
      assert [] + Members(ps, false) == Members(ps, false);
    }
  }

  // ---------- the law ----------

  /** Whatever its white space and escapes, a text is read as its tree, up to where it ends. */
  lemma {:induction false} SourceReads(s: Source, rest: string)
    requires ValidSource(s, INT_MAX) && (s.NumberText? ==> EndsNumber(rest))
    ensures ParsedValue(Written(s) + rest) == Done(Tree(s, false), rest)
    decreases s, 0
  {
    hide ParsedItems, ParsedMembers, WrittenElements, WrittenPairs, InQuotes, ParsedString, Meant;
    FirstOfText(s);
    var t := Written(s) + rest;
    assert t[0] == Written(s)[0];
    match s
    case NullText => assert t[..4] == "null" && t[4..] == rest;
    case FalseText => assert t[..5] == "false" && t[5..] == rest;
    case TrueText => assert t[..4] == "true" && t[4..] == rest;
    case NumberText(minus, n) => NumberTextReads(minus, n, rest);
    case StringText(pieces) =>
      QuoteOpens(pieces);
      StringTextReads(pieces, rest);
    case ArrayText(gap, elements) => ArrayTextReads(gap, elements, rest);
    case ObjectText(gap, pairs) => ObjectTextReads(gap, pairs, rest);
  }

  lemma QuoteOpens(ps: seq<Piece>)
    ensures InQuotes(ps) != "" && InQuotes(ps)[0] == '\"'
  {
  }

  /** A whole document: white space, the value, and whatever may follow it. */
  lemma DocumentReads(before: string, s: Source, rest: string)
    requires Blanks(before) && ValidSource(s, INT_MAX) && (s.NumberText? ==> EndsNumber(rest))
    ensures Parsed(before + (Written(s) + rest)) == Done(Tree(s, false), rest)
  {
    hide ParsedValue, Written, Tree, ValidSource;
    FirstOfText(s);
    assert (Written(s) + rest)[0] == Written(s)[0];
    BlanksSkip(before, Written(s) + rest);
    SourceReads(s, rest);
  }
}
