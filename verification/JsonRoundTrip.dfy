/** What survives printing a JSON tree and parsing the text. */
module JsonRoundTrip {
  import opened Text
  import opened Strings
  import opened Json

  // ---------- what comes back ----------

  predicate Kept(c: char) { Quoted(c) != "" }

  function CleanText(s: string): string {
    if s == "" then "" else (if Kept(s[0]) then [s[0]] else "") + CleanText(s[1..])
  }

  function Abs(n: int): nat { if n < 0 then -n else n }

  /** The tree without signs and without the control characters that have no escape. */
  function Clean(v: Value): Value
    decreases v
  {
    match v
    case Number(n) => Number(Abs(n))
    case Text(s) => Text(CleanText(s))
    case Array(items) => Array(CleanItems(items))
    case Object(members) => Object(CleanMembers(members))
    case _ => v
  }

  function CleanItems(items: seq<Value>): seq<Value>
    decreases items
  {
    if items == [] then [] else [Clean(items[0])] + CleanItems(items[1..])
  }

  function CleanMember(m: Member): Member
    decreases m
  {
    Member(CleanText(m.key), Clean(m.value))
  }

  function CleanMembers(members: seq<Member>): seq<Member>
    decreases members
  {
    if members == [] then [] else [CleanMember(members[0])] + CleanMembers(members[1..])
  }

  /** No sign and no character that printing drops. */
  predicate Plain(v: Value)
    decreases v
  {
    match v
    case Number(n) => n >= 0
    case Text(s) => forall i :: 0 <= i < |s| ==> Kept(s[i])
    case Array(items) => forall i :: 0 <= i < |items| ==> Plain(items[i])
    case Object(members) =>
      forall i :: 0 <= i < |members| ==>
        Plain(members[i].value) && forall k :: 0 <= k < |members[i].key| ==> Kept(members[i].key[k])
    case _ => true
  }

  /** Numbers are 32-bit, and the least of them prints digits that do not fit. */
  predicate Fits(v: Value)
    decreases v
  {
    match v
    case Number(n) => Abs(n) <= INT_MAX
    case Array(items) => forall i :: 0 <= i < |items| ==> Fits(items[i])
    case Object(members) => forall i :: 0 <= i < |members| ==> Fits(members[i].value)
    case _ => true
  }

  predicate NoPercent(v: Value)
    decreases v
  {
    match v
    case Text(s) => '%' !in s
    case Array(items) => forall i :: 0 <= i < |items| ==> NoPercent(items[i])
    case Object(members) =>
      forall i :: 0 <= i < |members| ==> '%' !in members[i].key && NoPercent(members[i].value)
    case _ => true
  }

  /** Only the text of a child is used as a format. */
  predicate Printable(v: Value) {
    v.Text? || NoPercent(v)
  }

  // ---------- the text, with its white space or without ----------

  /** How a tree is set out. White space is on or off; every string passed may switch it and may be
      shown differently while it is on. */
  datatype Layout = Layout(on: bool, next: (bool, string) -> bool, show: (bool, string) -> string) {
    function Past(s: string): Layout { this.(on := next(on, s)) }

    function Shown(s: string): string { show(on, s) }
  }

  /** White space everywhere or nowhere, and strings as they are. */
  function Uniform(on: bool): Layout {
    Layout(on, (b, s) => b, (b, s) => s)
  }

  function Blank(l: Layout, s: string): string { if l.on then s else "" }

  /** The layout after a value has been set out. */
  function PastValue(v: Value, l: Layout): Layout
    decreases v
  {
    match v
    case Text(s) => l.Past(s)
    case Array(items) => PastItems(items, l)
    case Object(members) => PastMembers(members, l)
    case _ => l
  }

  function PastItems(items: seq<Value>, l: Layout): Layout
    decreases items
  {
    if items == [] then l else PastItems(items[1..], PastValue(items[0], l))
  }

  function PastMember(m: Member, l: Layout): Layout
    decreases m
  {
    PastValue(m.value, l.Past(m.key))
  }

  function PastMembers(members: seq<Member>, l: Layout): Layout
    decreases members
  {
    if members == [] then l else PastMembers(members[1..], PastMember(members[0], l))
  }

  function Render(v: Value, depth: nat, l: Layout): string
    decreases v
  {
    match v
    case Null => "null"
    case False => "false"
    case True => "true"
    case Number(n) => IntText(n)
    case Text(s) => Quote(l.Shown(s))
    case Array(items) => "[" + (RenderItems(items, depth + 1, l) + "]")
    case Object(members) =>
      "{" + (Blank(l, "\n") +
             (RenderMembers(members, depth + 1, l) + (Blank(PastMembers(members, l), Tabs(depth)) + "}")))
  }

  function RenderItems(items: seq<Value>, depth: nat, l: Layout): string
    decreases items
  {
    if items == [] then ""
    else
      var next := PastValue(items[0], l);
      Render(items[0], depth, l) +
      ((if |items| > 1 then "," + Blank(next, " ") else "") + RenderItems(items[1..], depth, next))
  }

  function RenderMembers(members: seq<Member>, depth: nat, l: Layout): string
    decreases members
  {
    if members == [] then ""
    else
      var m, next := members[0], PastMember(members[0], l);
      Blank(l, Tabs(depth)) +
      (Quote(l.Shown(m.key)) +
       (":" +
        (Blank(l.Past(m.key), "\t") +
         (Render(m.value, depth, l.Past(m.key)) +
          ((if |members| > 1 then "," else "") + (Blank(next, "\n") + RenderMembers(members[1..], depth, next)))))))
  }

  /** The tree that is read back: no signs, and of each string what is shown and kept. */
  function ReadBack(v: Value, l: Layout): Value
    decreases v
  {
    match v
    case Number(n) => Number(Abs(n))
    case Text(s) => Text(CleanText(l.Shown(s)))
    case Array(items) => Array(ReadItems(items, l))
    case Object(members) => Object(ReadMembers(members, l))
    case _ => v
  }

  function ReadItems(items: seq<Value>, l: Layout): seq<Value>
    decreases items
  {
    if items == [] then [] else [ReadBack(items[0], l)] + ReadItems(items[1..], PastValue(items[0], l))
  }

  function ReadMember(m: Member, l: Layout): Member
    decreases m
  {
    Member(CleanText(l.Shown(m.key)), ReadBack(m.value, l.Past(m.key)))
  }

  function ReadMembers(members: seq<Member>, l: Layout): seq<Member>
    decreases members
  {
    if members == [] then [] else [ReadMember(members[0], l)] + ReadMembers(members[1..], PastMember(members[0], l))
  }

  lemma {:induction false} UniformReads(v: Value, on: bool)
    ensures PastValue(v, Uniform(on)) == Uniform(on) && ReadBack(v, Uniform(on)) == Clean(v)
    decreases v, 0
  {
    match v
    case Array(items) => UniformItems(items, on);
    case Object(members) => UniformMembers(members, on);
    case _ =>
  }

  lemma {:induction false} UniformItems(items: seq<Value>, on: bool)
    ensures PastItems(items, Uniform(on)) == Uniform(on) && ReadItems(items, Uniform(on)) == CleanItems(items)
    decreases items, 0
  {
    hide Clean, ReadBack, PastValue, Uniform;
    if items != [] {
      UniformReads(items[0], on);
      UniformItems(items[1..], on);
    }
  }

  lemma {:induction false} UniformMember(m: Member, on: bool)
    ensures PastMember(m, Uniform(on)) == Uniform(on) && ReadMember(m, Uniform(on)) == CleanMember(m)
    decreases m, 0
  {
    UniformReads(m.value, on);
  }

  lemma {:induction false} UniformMembers(members: seq<Member>, on: bool)
    ensures PastMembers(members, Uniform(on)) == Uniform(on)
    ensures ReadMembers(members, Uniform(on)) == CleanMembers(members)
    decreases members, 0
  {
    hide CleanMember, ReadMember, PastMember, Uniform;
    if members != [] {
      UniformMember(members[0], on);
      UniformMembers(members[1..], on);
    }
  }

  // ---------- pieces ----------

  lemma {:induction false} SkipsBlanks(w: string, s: string)
    requires forall i :: 0 <= i < |w| ==> w[i] <= ' '
    requires s != "" && s[0] > ' '
    ensures Skip(w + s) == Some(s)
  {
    if w == "" {
      assert w + s == s;
    } else {
      assert (w + s)[1..] == w[1..] + s;
      SkipsBlanks(w[1..], s);
    }
  }

  /** Each printed character is read back as itself, or was dropped. */
  lemma {:induction false} CharsReadBack(s: string, out: string, rest: string)
    ensures Chars(QuotedAll(s) + ("\"" + rest), out) == Done(out + CleanText(s), rest)
    decreases |s|
  {
    hide Quoted, Kept, Chars;
    var end := "\"" + rest;
    if s == "" {
      ClosingQuote(end, rest, out);
      assert QuotedAll(s) + end == end && out + CleanText(s) == out;
    } else {
      var tail := QuotedAll(s[1..]) + end;
      assert QuotedAll(s) + end == Quoted(s[0]) + tail;
      OneCharReadsBack(s[0], tail, out);
      var kept := if Kept(s[0]) then [s[0]] else "";
      CharsReadBack(s[1..], out + kept, rest);
      assert CleanText(s) == kept + CleanText(s[1..]);
      assert out + kept + CleanText(s[1..]) == out + CleanText(s);
    }
  }

  lemma ClosingQuote(end: string, rest: string, out: string)
    requires end == "\"" + rest
    ensures Chars(end, out) == Done(out, rest)
  {
    assert end[0] == '\"' && end[1..] == rest;
  }

  lemma OneCharReadsBack(c: char, tail: string, out: string)
    ensures Chars(Quoted(c) + tail, out) == Chars(tail, out + if Kept(c) then [c] else "")
  {
    var t := Quoted(c) + tail;
    if Quoted(c) == "" {
      assert t == tail && out + "" == out;
    } else if |Quoted(c)| == 1 {
      assert t[0] == c && t[1..] == tail;
    } else {
      assert t[0] == '\\' && t[1] == Quoted(c)[1] && t[2..] == tail;
      assert Unescaped(Quoted(c)[1]) == c;
    }
  }

  lemma StringReadsBack(s: string, rest: string)
    ensures ParsedString(Quote(s) + rest) == Done(CleanText(s), rest)
  {
    var t := Quote(s) + rest;
    assert t[0] == '\"' && t[1..] == QuotedAll(s) + ("\"" + rest);
    CharsReadBack(s, "", rest);
    assert "" + CleanText(s) == CleanText(s);
  }

  lemma {:induction false} DigitsRead(n: nat, rest: string)
    requires 0 < n <= INT_MAX
    ensures var s := Dec(n) + rest; '1' <= s[0] <= '9' && Digits(s[1..], DigitValue(s[0])) == Digits(rest, n)
  {
    var s := Dec(n) + rest;
    if n < 10 {
      assert s[0] == DigitChar(n) && s[1..] == rest;
    } else {
      var tail := [DigitChar(n % 10)] + rest;
      assert s == Dec(n / 10) + tail;
      DigitsRead(n / 10, tail);
      assert tail[0] == DigitChar(n % 10) && tail[1..] == rest;
    }
  }

  ghost predicate EndsNumber(rest: string) {
    rest == "" || !IsDigit(rest[0])
  }

  lemma UnsignedReadsBack(n: nat, rest: string)
    requires n <= INT_MAX && EndsNumber(rest)
    ensures var s := Dec(n) + rest;
            s != "" && IsDigit(s[0]) && ParsedNumber(s) == Done(Number(n), rest)
  {
    hide Dec;
    var s := Dec(n) + rest;
    DecIsDigits(n);
    assert s[0] == Dec(n)[0];
    if n == 0 {
      ZeroDigits();
      assert s[1..] == rest;
    } else {
      DigitsRead(n, rest);
    }
  }

  lemma ZeroDigits()
    ensures Dec(0) == "0"
  {
  }

  lemma SignIgnored(s: string)
    requires s != "" && IsDigit(s[0])
    ensures ParsedNumber("-" + s) == ParsedNumber(s)
  {
    assert ("-" + s)[0] == '-' && ("-" + s)[1..] == s;
  }

  lemma NumberReadsBack(n: int, rest: string)
    requires Abs(n) <= INT_MAX && EndsNumber(rest)
    ensures var s := IntText(n) + rest;
            s != "" && (s[0] == '-' || IsDigit(s[0])) && ParsedNumber(s) == Done(Number(Abs(n)), rest)
  {
    hide ParsedNumber, Dec;
    var digits := Dec(Abs(n)) + rest;
    UnsignedReadsBack(Abs(n), rest);
    if n < 0 {
      assert IntText(n) + rest == "-" + digits;
      SignIgnored(digits);
    }
  }

  /** A value starts with a character of its own kind. */
  lemma FirstChar(v: Value, depth: nat, l: Layout)
    ensures var t := Render(v, depth, l);
            && t != "" && t[0] > ' ' && t[0] != ']'
            && (v.Text? <==> t[0] == '\"')
            && (v.Array? <==> t[0] == '[')
            && (v.Object? <==> t[0] == '{')
            && (v.Number? <==> t[0] == '-' || IsDigit(t[0]))
            && (v.Null? <==> t[0] == 'n') && (v.False? <==> t[0] == 'f') && (v.True? <==> t[0] == 't')
  {
    if v.Number? {
      DecIsDigits(Abs(v.number));
      assert v.number >= 0 ==> IntText(v.number)[0] == Dec(v.number)[0];
    }
  }

  // ---------- the round trip ----------

  lemma {:induction false} ValueReadsBack(v: Value, depth: nat, l: Layout, rest: string)
    requires Fits(v) && (v.Number? ==> EndsNumber(rest))
    ensures ParsedValue(Render(v, depth, l) + rest) == Done(ReadBack(v, l), rest)
    decreases v, 0
  {
    hide ParsedItems, ParsedMembers, RenderItems, RenderMembers, Quote;
    FirstChar(v, depth, l);
    var s := Render(v, depth, l) + rest;
    assert s[0] == Render(v, depth, l)[0];
    match v
    case Null => assert s[..4] == "null" && s[4..] == rest;
    case False => assert s[..5] == "false" && s[5..] == rest;
    case True => assert s[..4] == "true" && s[4..] == rest;
    case Number(n) => NumberReadsBack(n, rest);
    case Text(t) => StringReadsBack(l.Shown(t), rest);
    case Array(items) => ArrayReadsBack(items, depth, l, rest);
    case Object(members) => ObjectReadsBack(members, depth, l, rest);
  }

  lemma OpensArray(items: seq<Value>, depth: nat, l: Layout, rest: string)
    ensures ParsedValue(Render(Array(items), depth, l) + rest) ==
            if items == [] then Done(Array([]), rest)
            else ParsedItems(RenderItems(items, depth + 1, l) + ("]" + rest), [])
  {
    hide ParsedItems;
    var s := Render(Array(items), depth, l) + rest;
    var t := RenderItems(items, depth + 1, l) + ("]" + rest);
    assert s[0] == '[' && s[1..] == t;
    if items == [] {
      assert t == "]" + rest && t[1..] == rest;
    } else {
      FirstChar(items[0], depth + 1, l);
      assert t[0] == Render(items[0], depth + 1, l)[0];
    }
    SkipsBlanks("", t);
    assert "" + t == t;
  }

  lemma {:induction false} ArrayReadsBack(items: seq<Value>, depth: nat, l: Layout, rest: string)
    requires Fits(Array(items))
    ensures ParsedValue(Render(Array(items), depth, l) + rest) == Done(ReadBack(Array(items), l), rest)
    decreases items, 1
  {
    hide ParsedItems, ParsedValue;
    OpensArray(items, depth, l, rest);
    if items != [] {
      ItemsReadBack(items, depth + 1, l, rest, []);
      assert [] + ReadItems(items, l) == ReadItems(items, l);
    }
  }

  lemma LastItem(s: string, acc: seq<Value>, v: Value, rest: string)
    requires ParsedValue(s) == Done(v, "]" + rest)
    ensures ParsedItems(s, acc) == Done(Array(acc + [v]), rest)
  {
    hide ParsedValue;
    var after := "]" + rest;
    assert after[0] == ']' && after[1..] == rest;
    assert Skip(after) == Some(after);
  }

  lemma NextItem(s: string, acc: seq<Value>, v: Value, w: string, t: string)
    requires ParsedValue(s) == Done(v, "," + (w + t))
    requires forall i :: 0 <= i < |w| ==> w[i] <= ' '
    requires t != "" && t[0] > ' '
    ensures ParsedItems(s, acc) == ParsedItems(t, acc + [v])
  {
    hide ParsedValue;
    var after := "," + (w + t);
    assert after[0] == ',' && after[1..] == w + t;
    assert Skip(after) == Some(after);
    SkipsBlanks(w, t);
  }

  lemma {:induction false} ItemsReadBack(items: seq<Value>, depth: nat, l: Layout, rest: string, acc: seq<Value>)
    requires items != [] && forall i :: 0 <= i < |items| ==> Fits(items[i])
    ensures ParsedItems(RenderItems(items, depth, l) + ("]" + rest), acc) ==
            Done(Array(acc + ReadItems(items, l)), rest)
    decreases items, 0
  {
    hide ParsedValue, ParsedItems, Render, Skip, ReadBack, Fits, PastValue;
    var s := RenderItems(items, depth, l) + ("]" + rest);
    var v, next := ReadBack(items[0], l), PastValue(items[0], l);
    if |items| == 1 {
      assert items[1..] == [] && RenderItems([], depth, next) == "";
      assert s == Render(items[0], depth, l) + ("]" + rest);
      ValueReadsBack(items[0], depth, l, "]" + rest);
      LastItem(s, acc, v, rest);
      assert ReadItems(items[1..], next) == [];
      assert ReadItems(items, l) == [v];
    } else {
      var tail := RenderItems(items[1..], depth, next) + ("]" + rest);
      var after := "," + (Blank(next, " ") + tail);
      assert s == Render(items[0], depth, l) + after;
      ValueReadsBack(items[0], depth, l, after);
      FirstChar(items[1], depth, next);
      assert tail[0] == Render(items[1], depth, next)[0];
      NextItem(s, acc, v, Blank(next, " "), tail);
      ItemsReadBack(items[1..], depth, next, rest, acc + [v]);
      assert acc + [v] + ReadItems(items[1..], next) == acc + ReadItems(items, l);
    }
  }

  lemma OpensObject(s: string, w: string, t: string)
    requires s == "{" + (w + t)
    requires forall i :: 0 <= i < |w| ==> w[i] <= ' '
    requires t != "" && t[0] > ' '
    ensures ParsedValue(s) == if t[0] == '}' then Done(Object([]), t[1..]) else ParsedMembers(t, [])
  {
    hide ParsedMembers;
    assert s[0] == '{' && s[1..] == w + t;
    SkipsBlanks(w, t);
  }

  /** What follows the last member. */
  function Close(members: seq<Member>, depth: nat, l: Layout, rest: string): string {
    Blank(PastMembers(members, l), Tabs(depth)) + ("}" + rest)
  }

  lemma OpensMembers(members: seq<Member>, depth: nat, l: Layout, rest: string)
    ensures ParsedValue(Render(Object(members), depth, l) + rest) ==
            if members == [] then Done(Object([]), rest)
            else ParsedMembers(Bare(members, depth + 1, l) + Close(members, depth, l, rest), [])
  {
    hide ParsedMembers, ParsedValue, Quote, Skip;
    var s := Render(Object(members), depth, l) + rest;
    var close := Close(members, depth, l, rest);
    if members == [] {
      var w := Blank(l, "\n") + Blank(l, Tabs(depth));
      EmptyObjectText(depth, l, rest);
      OpensObject(s, w, "}" + rest);
      assert ("}" + rest)[1..] == rest;
    } else {
      var w := Blank(l, "\n") + Blank(l, Tabs(depth + 1));
      var bare := Bare(members, depth + 1, l) + close;
      BareMembers(members, depth + 1, l);
      ObjectText(members, depth, l, rest);
      QuoteStarts(l.Shown(members[0].key));
      assert bare[0] == '\"';
      OpensObject(s, w, bare);
    }
  }

  lemma {:induction false} ObjectReadsBack(members: seq<Member>, depth: nat, l: Layout, rest: string)
    requires Fits(Object(members))
    ensures ParsedValue(Render(Object(members), depth, l) + rest) == Done(ReadBack(Object(members), l), rest)
    decreases members, 1
  {
    hide ParsedMembers, ParsedValue, Bare, Close;
    OpensMembers(members, depth, l, rest);
    if members != [] {
      MembersReadBack(members, depth, l, rest, []);
      assert [] + ReadMembers(members, l) == ReadMembers(members, l);
    }
  }

  lemma EmptyObjectText(depth: nat, l: Layout, rest: string)
    ensures Render(Object([]), depth, l) + rest ==
            "{" + ((Blank(l, "\n") + Blank(l, Tabs(depth))) + ("}" + rest))
  {
    NoMembers([], depth + 1, l);
    assert Render(Object([]), depth, l) == "{" + (Blank(l, "\n") + ("" + (Blank(l, Tabs(depth)) + "}")));
  }

  lemma ObjectText(members: seq<Member>, depth: nat, l: Layout, rest: string)
    requires members != []
    ensures Render(Object(members), depth, l) + rest ==
            "{" + ((Blank(l, "\n") + Blank(l, Tabs(depth + 1))) +
                   (Bare(members, depth + 1, l) + Close(members, depth, l, rest)))
  {
    hide Bare, RenderMembers, PastMembers;
    BareMembers(members, depth + 1, l);
  }

  /** The members from the first key on. */
  function Bare(members: seq<Member>, depth: nat, l: Layout): string
    requires members != []
  {
    var m, next := members[0], PastMember(members[0], l);
    Quote(l.Shown(m.key)) +
    (":" +
     (Blank(l.Past(m.key), "\t") +
      (Render(m.value, depth, l.Past(m.key)) +
       ((if |members| > 1 then "," else "") + (Blank(next, "\n") + RenderMembers(members[1..], depth, next))))))
  }

  lemma BareMembers(members: seq<Member>, depth: nat, l: Layout)
    requires members != []
    ensures RenderMembers(members, depth, l) == Blank(l, Tabs(depth)) + Bare(members, depth, l)
  {
  }

  lemma QuoteStarts(s: string)
    ensures Quote(s) != "" && Quote(s)[0] == '\"'
  {
  }

  lemma LastMember(s: string, acc: seq<Member>, m: Member, w: string, rest: string)
    requires ParsedMember(s) == Done(m, w + ("}" + rest))
    requires forall i :: 0 <= i < |w| ==> w[i] <= ' '
    ensures ParsedMembers(s, acc) == Done(Object(acc + [m]), rest)
  {
    hide ParsedMember;
    var after := "}" + rest;
    assert after[0] == '}' && after[1..] == rest;
    SkipsBlanks(w, after);
  }

  lemma NextMember(s: string, acc: seq<Member>, m: Member, w: string, t: string)
    requires ParsedMember(s) == Done(m, "," + (w + t))
    requires forall i :: 0 <= i < |w| ==> w[i] <= ' '
    requires t != "" && t[0] > ' '
    ensures ParsedMembers(s, acc) == ParsedMembers(t, acc + [m])
  {
    hide ParsedMember;
    var after := "," + (w + t);
    assert after[0] == ',' && after[1..] == w + t;
    assert Skip(after) == Some(after);
    SkipsBlanks(w, t);
  }

  lemma {:induction false} MembersReadBack(members: seq<Member>, depth: nat, l: Layout, rest: string, acc: seq<Member>)
    requires members != [] && forall i :: 0 <= i < |members| ==> Fits(members[i].value)
    ensures ParsedMembers(Bare(members, depth + 1, l) + Close(members, depth, l, rest), acc) ==
            Done(Object(acc + ReadMembers(members, l)), rest)
    decreases members, 0
  {
    hide ParsedValue, ParsedMembers, Render, Quote, ParsedMember, Bare, RenderMembers, ReadMember, Skip;
    hide PastMember, MemberText, Close;
    var m, next := ReadMember(members[0], l), PastMember(members[0], l);
    var close := Close(members, depth, l, rest);
    var s := Bare(members, depth + 1, l) + close;
    assert close == Close(members[1..], depth, next, rest) by { CloseShifts(members, depth, l, rest); }
    FirstMember(members, depth + 1, l, close);
    if |members| > 1 {
      var w := Blank(next, "\n") + Blank(next, Tabs(depth + 1));
      var bare := Bare(members[1..], depth + 1, next) + close;
      AfterMember(members, depth, next, close);
      MemberReadsBack(members[0], depth + 1, l, "," + (w + bare));
      BareStarts(members[1..], depth + 1, next);
      NextMember(s, acc, m, w, bare);
      MembersReadBack(members[1..], depth, next, rest, acc + [m]);
      assert acc + [m] + ReadMembers(members[1..], next) == acc + ReadMembers(members, l);
    } else {
      var w := Blank(next, "\n") + Blank(next, Tabs(depth));
      NoMembers(members[1..], depth + 1, next);
      LastClose(members[1..], depth, next, rest);
      MemberReadsBack(members[0], depth + 1, l, w + ("}" + rest));
      LastMember(s, acc, m, w, rest);
      assert ReadMembers(members, l) == [m];
    }
  }

  lemma CloseShifts(members: seq<Member>, depth: nat, l: Layout, rest: string)
    requires members != []
    ensures Close(members, depth, l, rest) == Close(members[1..], depth, PastMember(members[0], l), rest)
  {
    hide PastMember;
  }

  lemma AfterMember(members: seq<Member>, depth: nat, next: Layout, close: string)
    requires |members| > 1
    ensures Blank(next, "\n") + (RenderMembers(members[1..], depth + 1, next) + close) ==
            (Blank(next, "\n") + Blank(next, Tabs(depth + 1))) + (Bare(members[1..], depth + 1, next) + close)
  {
    hide Bare, RenderMembers, Tabs;
    BareMembers(members[1..], depth + 1, next);
  }

  lemma LastClose(members: seq<Member>, depth: nat, l: Layout, rest: string)
    requires members == []
    ensures "" + (Blank(l, "\n") + ("" + Close(members, depth, l, rest))) ==
            (Blank(l, "\n") + Blank(l, Tabs(depth))) + ("}" + rest)
  {
    hide Tabs;
  }

  lemma NoMembers(members: seq<Member>, depth: nat, l: Layout)
    requires members == []
    ensures RenderMembers(members, depth, l) == "" && ReadMembers(members, l) == [] && PastMembers(members, l) == l
  {
  }

  lemma BareStarts(members: seq<Member>, depth: nat, l: Layout)
    requires members != []
    ensures Bare(members, depth, l) != "" && Bare(members, depth, l)[0] == '\"'
  {
    QuoteStarts(l.Shown(members[0].key));
  }

  /** A member's text from its key on, with what follows it. */
  function MemberText(m: Member, depth: nat, l: Layout, rest: string): string {
    Quote(l.Shown(m.key)) + (":" + (Blank(l.Past(m.key), "\t") + (Render(m.value, depth, l.Past(m.key)) + rest)))
  }

  lemma FirstMember(members: seq<Member>, depth: nat, l: Layout, close: string)
    requires members != []
    ensures var next := PastMember(members[0], l);
            Bare(members, depth, l) + close ==
            MemberText(members[0], depth, l,
                       (if |members| > 1 then "," else "") +
                       (Blank(next, "\n") + (RenderMembers(members[1..], depth, next) + close)))
  {
    hide Quote, Render, RenderMembers, PastMember;
  }

  lemma {:induction false} MemberReadsBack(m: Member, depth: nat, l: Layout, after: string)
    requires Fits(m.value) && EndsNumber(after)
    ensures ParsedMember(MemberText(m, depth, l, after)) == Done(ReadMember(m, l), after)
    decreases m, 0
  {
    hide ParsedValue, ParsedString, Render, Quote;
    var inner := l.Past(m.key);
    var value := Render(m.value, depth, inner) + after;
    var colon := ":" + (Blank(inner, "\t") + value);
    StringReadsBack(l.Shown(m.key), colon);
    SkipsBlanks("", colon);
    assert "" + colon == colon && colon[1..] == Blank(inner, "\t") + value;
    FirstChar(m.value, depth, inner);
    assert value[0] == Render(m.value, depth, inner)[0];
    SkipsBlanks(Blank(inner, "\t"), value);
    ValueReadsBack(m.value, depth, inner, after);
  }
}
