/** Compiling the text of a pattern and running it decides the pattern's language. */
module RegexTheorem {
  import opened Regex
  import opened RegexSyntax

  function AtomToken(a: Atom): Token {
    match a
    case Lit(c, escaped) => if escaped then Char(c) else PlainToken(c)
    case Any => Dot
    case Class(negated, parts) => List(negated, PartsChars(parts))
    case Digits(negated) => List(negated, DIGITS)
  }

  function RepeatToken(r: Repeat): seq<Token> {
    match r
    case Once => []
    case Many => [Star]
    case OneOrMore => [Plus]
    case Maybe => [Ques]
  }

  function ItemTokens(items: seq<Item>): seq<Token> {
    if items == [] then []
    else [AtomToken(items[0].atom)] + RepeatToken(items[0].repeat) + ItemTokens(items[1..])
  }

  function PatternTokens(p: Pattern): seq<Token> {
    (if p.atStart then [Begin] else []) + ItemTokens(p.items) + (if p.atEnd then [End] else [])
  }

  // ---------- the compiler reads back what was rendered ----------

  lemma ReadsSingle(c: char, more: string, prev: char, acc: seq<char>)
    requires ValidPart(Single(c)) && |acc| <= CLASS_ROOM
    ensures ReadClass([c] + more, prev, acc) == ReadClass(more, c, acc + [c])
  {
    assert ([c] + more)[1..] == more;
  }

  lemma ReadsDash(hi: char, more: string, prev: char, acc: seq<char>)
    requires hi != ']' && prev <= hi < '\U{80}' && 0 < |acc| <= CLASS_ROOM
    ensures ReadClass(['-', hi] + more, prev, acc) == ReadClass(more, hi, acc + CharsAfter(prev, hi))
  {
    var s := ['-', hi] + more;
    assert s[0] == '-' && s[1] == hi && s[2..] == more;
  }

  lemma ReadsRange(lo: char, hi: char, more: string, prev: char, acc: seq<char>)
    requires ValidPart(Range(lo, hi)) && |acc| + |PartChars(Range(lo, hi))| <= CLASS_ROOM
    ensures ReadClass([lo, '-', hi] + more, prev, acc) == ReadClass(more, hi, acc + PartChars(Range(lo, hi)))
  {
    hide ReadClass, CharsAfter;
    assert [lo, '-', hi] + more == [lo] + (['-', hi] + more);
    ReadsSingle(lo, ['-', hi] + more, prev, acc);
    ReadsDash(hi, more, lo, acc + [lo]);
    assert acc + [lo] + CharsAfter(lo, hi) == acc + PartChars(Range(lo, hi));
  }

  lemma {:induction false} ReadsParts(parts: seq<Part>, prev: char, acc: seq<char>, rest: string)
    requires forall part :: part in parts ==> ValidPart(part)
    requires |acc| + |PartsChars(parts)| <= CLASS_ROOM
    ensures ReadClass(RenderParts(parts) + "]" + rest, prev, acc) == Closed(acc + PartsChars(parts), rest)
    decreases |parts|
  {
    hide ReadClass, RenderParts, PartsChars, PartChars, RenderPart, ValidPart;
    var text := RenderParts(parts) + "]" + rest;
    if parts == [] {
      ReadsEnd(prev, acc, rest);
      NoParts();
      assert text == "]" + rest;
      assert acc + PartsChars(parts) == acc;
    } else {
      var head, tail := parts[0], parts[1..];
      var more, next := RenderParts(tail) + "]" + rest, acc + PartChars(head);
      FirstPart(parts);
      assert text == RenderPart(head) + more;
      assert next + PartsChars(tail) == acc + PartsChars(parts);
      assert |next| + |PartsChars(tail)| == |acc| + |PartsChars(parts)|;
      ReadsPart(head, more, prev, acc);
      ReadsParts(tail, LastChar(head), next, rest);
    }
  }

  lemma NoParts()
    ensures RenderParts([]) == "" && PartsChars([]) == []
  {
  }

  lemma ReadsEnd(prev: char, acc: seq<char>, rest: string)
    requires |acc| <= CLASS_ROOM
    ensures ReadClass("]" + rest, prev, acc) == Closed(acc, rest)
  {
    var s := "]" + rest;
    assert s[0] == ']' && s[1..] == rest;
  }

  lemma FirstPart(parts: seq<Part>)
    requires parts != []
    ensures PartsChars(parts) == PartChars(parts[0]) + PartsChars(parts[1..])
    ensures RenderParts(parts) == RenderPart(parts[0]) + RenderParts(parts[1..])
  {
    hide PartChars, RenderPart;
  }

  function LastChar(part: Part): char {
    match part
    case Single(c) => c
    case Range(_, hi) => hi
  }

  lemma ReadsPart(part: Part, more: string, prev: char, acc: seq<char>)
    requires ValidPart(part) && |acc| + |PartChars(part)| <= CLASS_ROOM
    ensures ReadClass(RenderPart(part) + more, prev, acc) == ReadClass(more, LastChar(part), acc + PartChars(part))
  {
    hide ReadClass, CharsAfter;
    match part {
      case Single(c) => ReadsSingle(c, more, prev, acc);
      case Range(lo, hi) => ReadsRange(lo, hi, more, prev, acc);
    }
  }

  lemma {:induction false} ReadsBracket(negated: bool, parts: seq<Part>, rest: string)
    requires ValidAtom(Class(negated, parts))
    ensures ReadToken(RenderAtom(Class(negated, parts)) + rest) == One(List(negated, PartsChars(parts)), rest)
  {
    hide ReadClass, PartsChars, RenderParts, RenderPart, ValidPart;
    ReadsParts(parts, '[', [], rest);
    assert [] + PartsChars(parts) == PartsChars(parts);
    var body := RenderParts(parts) + "]" + rest;
    var s := RenderAtom(Class(negated, parts)) + rest;
    if negated {
      assert s == "[^" + body;
      assert s[2..] == body;
    } else {
      assert s == "[" + body;
      assert s[1..] == body;
      NoCaretAhead(parts, rest);
    }
  }

  lemma NoCaretAhead(parts: seq<Part>, rest: string)
    requires parts != [] ==> RenderPart(parts[0])[0] != '^'
    ensures (RenderParts(parts) + "]" + rest)[0] != '^'
  {
    if parts != [] { FirstPart(parts); }
  }

  lemma ReadsAtom(a: Atom, rest: string)
    requires ValidAtom(a)
    ensures ReadToken(RenderAtom(a) + rest) == One(AtomToken(a), rest)
  {
    if a.Class? {
      ReadsBracket(a.negated, a.parts, rest);
    } else {
      var s := RenderAtom(a) + rest;
      assert s[|RenderAtom(a)|..] == rest;
    }
  }

  lemma {:induction false} LexesItem(item: Item, tail: string)
    requires ValidAtom(item.atom)
    ensures Lex(RenderAtom(item.atom) + RenderRepeat(item.repeat) + tail) ==
            Prepend([AtomToken(item.atom)] + RepeatToken(item.repeat), Lex(tail))
  {
    hide Lex, AtomToken, RenderAtom, RenderRepeat, RepeatToken, ReadToken, Prepend;
    var t, afterAtom := AtomToken(item.atom), RenderRepeat(item.repeat) + tail;
    var s := RenderAtom(item.atom) + afterAtom;
    assert s == RenderAtom(item.atom) + RenderRepeat(item.repeat) + tail;
    AtomNotEmpty(item.atom);
    ReadsAtom(item.atom, afterAtom);
    LexStep([], s, t, afterAtom);
    PrependNothing(Lex(s));
    assert [] + [t] == [t];
    LexesRepeat(item.repeat, tail);
    PrependTwice([t], RepeatToken(item.repeat), Lex(tail));
  }

  lemma AtomNotEmpty(a: Atom)
    ensures RenderAtom(a) != ""
  {
  }

  lemma LexesRepeat(r: Repeat, tail: string)
    ensures Lex(RenderRepeat(r) + tail) == Prepend(RepeatToken(r), Lex(tail))
  {
    hide Lex;
    var s := RenderRepeat(r) + tail;
    if r.Once? {
      assert s == tail;
      PrependNothing(Lex(tail));
    } else {
      assert s[0] == RenderRepeat(r)[0] && s[1..] == tail;
      LexStep([], s, RepeatToken(r)[0], tail);
      PrependNothing(Lex(s));
      assert [] + [RepeatToken(r)[0]] == RepeatToken(r);
    }
  }

  lemma {:induction false} LexesItems(items: seq<Item>, rest: string)
    requires forall item :: item in items ==> ValidAtom(item.atom)
    ensures Lex(RenderItems(items) + rest) == Prepend(ItemTokens(items), Lex(rest))
    decreases |items|
  {
    if items == [] {
      assert RenderItems(items) + rest == rest;
      PrependNothing(Lex(rest));
    } else {
      var item, tail := items[0], RenderItems(items[1..]) + rest;
      assert RenderItems(items) + rest == RenderAtom(item.atom) + RenderRepeat(item.repeat) + tail;
      LexesItem(item, tail);
      LexesItems(items[1..], rest);
      PrependTwice([AtomToken(item.atom)] + RepeatToken(item.repeat), ItemTokens(items[1..]), Lex(rest));
    }
  }

  lemma PrependNothing(c: Compiled)
    ensures Prepend([], c) == c
  {
    if c.Tokens? { assert [] + c.re == c.re; }
  }

  lemma PrependTwice(a: seq<Token>, b: seq<Token>, c: Compiled)
    ensures Prepend(a, Prepend(b, c)) == Prepend(a + b, c)
  {
    if c.Tokens? { assert a + (b + c.re) == (a + b) + c.re; }
  }

  lemma LexesTail(atEnd: bool)
    ensures Lex(if atEnd then "$" else "") == Tokens(if atEnd then [End] else [])
  {
    if atEnd {
      var tail := "$";
      assert tail[1..] == "";
      LexStep([], tail, End, "");
      PrependNothing(Lex(tail));
      assert [] + [End] == [End];
    }
  }

  lemma {:induction false} LexesPattern(p: Pattern)
    requires ValidPattern(p)
    ensures Lex(Render(p)) == Tokens(PatternTokens(p)) && Render(p) != ""
  {
    hide Lex, ItemTokens, RenderItems;
    var tail, endTokens := if p.atEnd then "$" else "", if p.atEnd then [End] else [];
    LexesTail(p.atEnd);
    LexesItems(p.items, tail);
    ItemsNotEmpty(p.items);
    var body, tokens := RenderItems(p.items) + tail, ItemTokens(p.items) + endTokens;
    assert Lex(body) == Tokens(tokens);
    if p.atStart {
      assert Render(p) == ['^'] + body && PatternTokens(p) == [Begin] + tokens;
      LexesAnchor(body);
    } else {
      assert Render(p) == body && PatternTokens(p) == tokens;
    }
  }

  lemma ItemsNotEmpty(items: seq<Item>)
    ensures items != [] ==> RenderItems(items) != ""
  {
    if items != [] { assert |RenderAtom(items[0].atom)| > 0; }
  }

  lemma LexesAnchor(body: string)
    ensures Lex(['^'] + body) == Prepend([Begin], Lex(body))
  {
    var s := ['^'] + body;
    assert s[1..] == body;
    LexStep([], s, Begin, body);
    PrependNothing(Lex(s));
    assert [] + [Begin] == [Begin];
  }

  // ---------- tokens and trees match the same characters ----------

  lemma {:induction false} CharsAfterMeaning(lo: char, hi: char, c: char)
    requires lo <= hi < '\U{80}'
    ensures c in CharsAfter(lo, hi) <==> lo < c <= hi
    decreases hi as int - lo as int
  {
    if lo < hi {
      CharsAfterMeaning((lo as int + 1) as char, hi, c);
    }
  }

  lemma {:induction false} PartsCharsMeaning(parts: seq<Part>, c: char)
    requires forall part :: part in parts ==> ValidPart(part)
    ensures c in PartsChars(parts) <==> exists part :: part in parts && PartHas(part, c)
  {
    if parts != [] {
      PartsCharsMeaning(parts[1..], c);
      var head := parts[0];
      assert ValidPart(head);
      if head.Range? { CharsAfterMeaning(head.lo, head.hi, c); }
      assert c in PartChars(head) <==> PartHas(head, c);
      assert forall part :: part in parts <==> part == head || part in parts[1..];
    }
  }

  lemma TokenMeaning(a: Atom, c: char)
    requires ValidAtom(a)
    ensures OneMatches(AtomToken(a), c) <==> AtomHas(a, c)
    ensures !IsQuantifier(AtomToken(a))
  {
    if a.Class? { PartsCharsMeaning(a.parts, c); }
    if a.Digits? {
      assert c in DIGITS <==> '0' <= c <= '9' by {
        assert DIGITS == ['0', '1', '2', '3', '4', '5', '6', '7', '8', '9'];
      }
    }
  }

  lemma EndToken(a: Atom)
    ensures AtomToken(a) == End ==> a == Lit('$', false)
  {
  }

  /** Some prefix of `s` is in the items' language: all of `s` when `$` follows. */
  ghost predicate PrefixIn(items: seq<Item>, atEnd: bool, s: string) {
    exists j :: 0 <= j <= |s| && InItems(items, s[..j]) && (atEnd ==> j == |s|)
  }

  lemma RunMeaning(item: Item, v: string)
    requires ValidAtom(item.atom)
    ensures InItem(item, v) <==>
            AllMatch(AtomToken(item.atom), v) &&
            if item.repeat.Once? then |v| == 1 else CountOk(RepeatToken(item.repeat)[0], |v|)
  {
    forall i | 0 <= i < |v| ensures OneMatches(AtomToken(item.atom), v[i]) <==> AtomHas(item.atom, v[i]) {
      TokenMeaning(item.atom, v[i]);
    }
  }

  lemma SplitPrefix(items: seq<Item>, atEnd: bool, s: string)
    requires items != []
    ensures PrefixIn(items, atEnd, s) <==>
            exists k :: 0 <= k <= |s| && InItem(items[0], s[..k]) && PrefixIn(items[1..], atEnd, s[k..])
  {
    if PrefixIn(items, atEnd, s) {
      var j :| 0 <= j <= |s| && InItems(items, s[..j]) && (atEnd ==> j == |s|);
      var v := s[..j];
      var k :| 0 <= k <= |v| && InItem(items[0], v[..k]) && InItems(items[1..], v[k..]);
      assert v[..k] == s[..k] && v[k..] == s[k..][..j - k];
      assert PrefixIn(items[1..], atEnd, s[k..]);
    }
    if k :| 0 <= k <= |s| && InItem(items[0], s[..k]) && PrefixIn(items[1..], atEnd, s[k..]) {
      var d :| 0 <= d <= |s[k..]| && InItems(items[1..], s[k..][..d]) && (atEnd ==> d == |s[k..]|);
      var v := s[..k + d];
      assert v[..k] == s[..k] && v[k..] == s[k..][..d];
      assert InItems(items, v);
    }
  }

  lemma {:induction false} HereMeaning(items: seq<Item>, atEnd: bool, s: string)
    requires forall item :: item in items ==> ValidAtom(item.atom)
    requires !atEnd && items != [] ==> items[|items| - 1] != Item(Lit('$', false), Once)
    ensures Here(ItemTokens(items) + (if atEnd then [End] else []), s) <==> PrefixIn(items, atEnd, s)
    decreases |items|
  {
    var tail: seq<Token> := if atEnd then [End] else [];
    var re := ItemTokens(items) + tail;
    if items == [] {
      assert re == tail;
      if !atEnd || s == [] { assert InItems([], s[..0]); }
    } else {
      var item, more := items[0], ItemTokens(items[1..]) + tail;
      hide Here, InItems, InItem, AllMatch, ItemTokens;
      forall k | 0 <= k <= |s|
        ensures Here(more, s[k..]) <==> PrefixIn(items[1..], atEnd, s[k..])
        ensures InItem(item, s[..k]) <==> Takes(item, s, k)
      {
        assert items[1..] != [] ==> items[1..][|items[1..]| - 1] == items[|items| - 1];
        HereMeaning(items[1..], atEnd, s[k..]);
        RunMeaning(item, s[..k]);
      }
      SplitPrefix(items, atEnd, s);
      if item.repeat.Once? {
        HereOnce(items, atEnd, s);
      } else {
        HereMany(items, atEnd, s);
      }
    }
  }

  /** The item's token and quantifier accept the first `k` characters. */
  ghost predicate Takes(item: Item, s: string, k: nat)
    requires k <= |s|
  {
    && AllMatch(AtomToken(item.atom), s[..k])
    && if item.repeat.Once? then k == 1 else CountOk(RepeatToken(item.repeat)[0], k)
  }

  lemma {:induction false} HereMany(items: seq<Item>, atEnd: bool, s: string)
    requires items != [] && !items[0].repeat.Once?
    ensures var tail: seq<Token> := if atEnd then [End] else [];
            Here(ItemTokens(items) + tail, s) <==>
            exists k :: 0 <= k <= |s| && Takes(items[0], s, k) && Here(ItemTokens(items[1..]) + tail, s[k..])
  {
    hide Here, AllMatch, CountOk, AtomToken, ItemTokens, RepeatToken;
    var tail: seq<Token> := if atEnd then [End] else [];
    var re, more := ItemTokens(items) + tail, ItemTokens(items[1..]) + tail;
    ManyTokens(items, tail);
    HereRepeats(re, s);
    forall k | 0 <= k <= |s|
      ensures RepeatThen(re[0], re[1], more, s, k) <==> (Takes(items[0], s, k) && Here(more, s[k..]))
    {
    }
  }

  lemma ManyTokens(items: seq<Item>, tail: seq<Token>)
    requires items != [] && !items[0].repeat.Once?
    ensures var re := ItemTokens(items) + tail;
            |re| >= 2 && re[0] == AtomToken(items[0].atom) && re[1] == RepeatToken(items[0].repeat)[0] &&
            IsQuantifier(re[1]) && re[2..] == ItemTokens(items[1..]) + tail
  {
    hide AtomToken, ItemTokens, RepeatToken, IsQuantifier;
    var t, q, more := AtomToken(items[0].atom), RepeatToken(items[0].repeat), ItemTokens(items[1..]);
    FirstTokens(items);
    OneQuantifier(items[0].repeat);
    var re := [t] + q + more + tail;
    assert re[0] == t && re[1] == q[0];
    assert re[2..] == more + tail;
  }

  lemma FirstTokens(items: seq<Item>)
    requires items != []
    ensures ItemTokens(items) ==
            [AtomToken(items[0].atom)] + RepeatToken(items[0].repeat) + ItemTokens(items[1..])
  {
    hide AtomToken, RepeatToken;
  }

  lemma OneQuantifier(r: Repeat)
    requires !r.Once?
    ensures |RepeatToken(r)| == 1 && IsQuantifier(RepeatToken(r)[0])
  {
  }

  /** A single atom is not mistaken for an anchor, and what follows it is no quantifier. */
  lemma {:induction false} HereOnce(items: seq<Item>, atEnd: bool, s: string)
    requires forall item :: item in items ==> ValidAtom(item.atom)
    requires !atEnd && items != [] ==> items[|items| - 1] != Item(Lit('$', false), Once)
    requires items != [] && items[0].repeat.Once?
    ensures var tail: seq<Token> := if atEnd then [End] else [];
            Here(ItemTokens(items) + tail, s) <==>
            (s != [] && Takes(items[0], s, 1) && Here(ItemTokens(items[1..]) + tail, s[1..]))
  {
    hide Here, AllMatch, OneMatches;
    var tail: seq<Token> := if atEnd then [End] else [];
    var re, more := ItemTokens(items) + tail, ItemTokens(items[1..]) + tail;
    var t := AtomToken(items[0].atom);
    assert re == [t] + more;
    assert re[1..] == more;
    assert more == [] || !IsQuantifier(more[0]) by {
      if |items| > 1 {
        assert more[0] == AtomToken(items[1].atom);
        TokenMeaning(items[1].atom, 'x');
      } else {
        assert more == tail;
      }
    }
    assert re != [End] by {
      EndToken(items[0].atom);
      assert re[0] == t && |re| == 1 + |more|;
      assert items[0] == Item(items[0].atom, Once);
      assert more == [] ==> !atEnd && |items| == 1;
    }
    HereSingle(re, s);
    if s != [] { SingleRun(t, s); }
  }

  lemma SingleRun(t: Token, s: string)
    requires s != []
    ensures AllMatch(t, s[..1]) <==> OneMatches(t, s[0])
  {
    assert s[..1] == [s[0]];
  }

  lemma {:induction false} HereSingle(re: seq<Token>, s: string)
    requires re != [] && re != [End] && (|re| >= 2 ==> !IsQuantifier(re[1]))
    ensures Here(re, s) <==> (s != [] && OneMatches(re[0], s[0]) && Here(re[1..], s[1..]))
  {
  }

  /** For every valid pattern and text the answer is 1 exactly when the text splits as
      the pattern says; the strategy flag plays no part. */
  lemma RegexpDecidesLanguage(p: Pattern, text: string)
    requires ValidPattern(p)
    ensures Lex(Render(p)) != Undefined
    ensures RegexpResult(Render(p), text) == if Denotes(p, text) then 1 else 0
  {
    LexesPattern(p);
    if p.atStart {
      AnchoredMeaning(p, text);
    } else {
      FloatingMeaning(p, text);
    }
  }

  lemma AnchoredMeaning(p: Pattern, text: string)
    requires ValidPattern(p) && p.atStart
    ensures Found(PatternTokens(p), text) <==> Denotes(p, text)
  {
    hide InItems, ItemTokens, Here;
    var body := ItemTokens(p.items) + (if p.atEnd then [End] else []);
    assert PatternTokens(p) == [Begin] + body;
    assert PatternTokens(p)[1..] == body;
    HereMeaning(p.items, p.atEnd, text);
    if PrefixIn(p.items, p.atEnd, text) {
      var j :| 0 <= j <= |text| && InItems(p.items, text[..j]) && (p.atEnd ==> j == |text|);
      assert text[0..j] == text[..j];
    }
    if Denotes(p, text) {
      var i, j :| 0 <= i <= j <= |text| && InItems(p.items, text[i..j]) && i == 0 && (p.atEnd ==> j == |text|);
      assert text[i..j] == text[..j];
    }
  }

  lemma FloatingMeaning(p: Pattern, text: string)
    requires ValidPattern(p) && !p.atStart
    ensures Found(PatternTokens(p), text) <==> Denotes(p, text)
  {
    var re := PatternTokens(p);
    assert re == ItemTokens(p.items) + (if p.atEnd then [End] else []);
    if p.items != [] { assert re[0] == AtomToken(p.items[0].atom); }
    assert !re[0].Begin?;
    hide InItems, ItemTokens, Here;
    forall i | 0 <= i <= |text| ensures Here(re, text[i..]) <==> PrefixIn(p.items, p.atEnd, text[i..]) {
      HereMeaning(p.items, p.atEnd, text[i..]);
    }
    if i :| 0 <= i <= |text| && PrefixIn(p.items, p.atEnd, text[i..]) {
      var d :| 0 <= d <= |text[i..]| && InItems(p.items, text[i..][..d]) && (p.atEnd ==> d == |text[i..]|);
      assert text[i..][..d] == text[i..i + d];
    }
    if Denotes(p, text) {
      var i, j :| 0 <= i <= j <= |text| && InItems(p.items, text[i..j]) && (p.atEnd ==> j == |text|);
      assert text[i..][..j - i] == text[i..j];
      assert PrefixIn(p.items, p.atEnd, text[i..]);
    }
  }
}
