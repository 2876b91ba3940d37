/** How often a character occurs in a text and in a tree, and what printing and parsing do to that. */
module JsonCounts {
  import opened Strings
  import opened Json
  import opened JsonRoundTrip

  /** Characters that printing keeps as they are and that no escape stands for. */
  predicate Tracked(c: char) { c == '%' || c == '/' || c == ' ' }

  // ---------- counting a character ----------

  function Count(c: char, s: string): nat {
    if s == "" then 0 else (if s[0] == c then 1 else 0) + Count(c, s[1..])
  }

  function CountIn(c: char, v: Value): nat
    decreases v
  {
    match v
    case Text(s) => Count(c, s)
    case Array(items) => CountInItems(c, items)
    case Object(members) => CountInMembers(c, members)
    case _ => 0
  }

  function CountInItems(c: char, items: seq<Value>): nat
    decreases items
  {
    if items == [] then 0 else CountIn(c, items[0]) + CountInItems(c, items[1..])
  }

  function CountInMember(c: char, m: Member): nat
    decreases m
  {
    Count(c, m.key) + CountIn(c, m.value)
  }

  function CountInMembers(c: char, members: seq<Member>): nat
    decreases members
  {
    if members == [] then 0 else CountInMember(c, members[0]) + CountInMembers(c, members[1..])
  }

  lemma {:induction false} CountJoin(c: char, a: string, b: string)
    ensures Count(c, a + b) == Count(c, a) + Count(c, b)
  {
    if a == "" {
      assert a + b == b;
    } else {
      assert (a + b)[1..] == a[1..] + b;
      CountJoin(c, a[1..], b);
    }
  }

  lemma CountDrop(c: char, s: string, k: nat)
    requires k <= |s|
    ensures Count(c, s[k..]) <= Count(c, s)
  {
    assert s == s[..k] + s[k..];
    CountJoin(c, s[..k], s[k..]);
  }

  lemma CountNone(c: char, s: string)
    ensures Count(c, s) == 0 <==> c !in s
    decreases s
  {
    if s != "" {
      assert s == [s[0]] + s[1..];
      CountNone(c, s[1..]);
    }
  }

  // ---------- parsing makes none of it ----------

  lemma {:induction false} SkipKeeps(c: char, s: string)
    ensures Skip(s).Some? ==> Count(c, Skip(s).value) <= Count(c, s)
  {
    if s != "" && s[0] <= ' ' { SkipKeeps(c, s[1..]); }
  }

  lemma {:induction false} DigitsKeep(c: char, s: string, n: nat)
    ensures Digits(s, n).Done? ==> Count(c, Digits(s, n).rest) <= Count(c, s)
    decreases |s|
  {
    if s != "" && IsDigit(s[0]) { DigitsKeep(c, s[1..], n * 10 + DigitValue(s[0])); }
  }

  lemma NumberKeeps(c: char, s: string)
    requires s != "" && (s[0] == '-' || IsDigit(s[0]))
    ensures ParsedNumber(s).Done? ==> ParsedNumber(s).result.Number? && Count(c, ParsedNumber(s).rest) <= Count(c, s)
  {
    var u := if s[0] == '-' then s[1..] else s;
    var t := AfterZero(u);
    CountDrop(c, s, |s| - |u|);
    if u != "" { CountDrop(c, u, |u| - |t|); }
    if t != "" { CountDrop(c, t, 1); }
    if t != "" { DigitsKeep(c, t[1..], if IsDigit(t[0]) then DigitValue(t[0]) else 0); }
  }

  lemma {:induction false} CharsKeep(c: char, s: string, out: string)
    requires Tracked(c)
    ensures var r := Chars(s, out);
            r.Done? ==> Count(c, r.result) + Count(c, r.rest) <= Count(c, out) + Count(c, s)
    decreases |s|
  {
    if s == "" || s[0] <= 31 as char || s[0] == '\"' {
    } else if s[0] != '\\' {
      CharsKeep(c, s[1..], out + [s[0]]);
      CountJoin(c, out, [s[0]]);
      assert [s[0]][1..] == "";
    } else if |s| >= 2 && s[1] != 'u' {
      var d := Unescaped(s[1]);
      CharsKeep(c, s[2..], out + [d]);
      CountJoin(c, out, [d]);
      assert [d][1..] == "" && s[1..][1..] == s[2..];
    }
  }

  lemma StringKeeps(c: char, s: string)
    requires Tracked(c)
    ensures var r := ParsedString(s); r.Done? ==> Count(c, r.result) + Count(c, r.rest) <= Count(c, s)
  {
    if s != "" && s[0] == '\"' { CharsKeep(c, s[1..], ""); }
  }

  /** A parsed tree and the text after it hold no more of the character than the text before. */
  lemma {:induction false} ValueKeeps(c: char, s: string)
    requires Tracked(c)
    ensures var r := ParsedValue(s); r.Done? ==> CountIn(c, r.result) + Count(c, r.rest) <= Count(c, s)
    decreases |s|, 2
  {
    hide ParsedNumber, ParsedString, ParsedItems, ParsedMembers, Skip;
    if "null" <= s || "true" <= s {
      CountDrop(c, s, 4);
    } else if "false" <= s {
      CountDrop(c, s, 5);
    } else if s != "" {
      SkipKeeps(c, s[1..]);
      if s[0] == '\"' {
        StringKeeps(c, s);
      } else if s[0] == '-' || IsDigit(s[0]) {
        NumberKeeps(c, s);
      } else if s[0] == '[' && Skip(s[1..]).Some? {
        ItemsKeep(c, Skip(s[1..]).value, []);
      } else if s[0] == '{' && Skip(s[1..]).Some? {
        MembersKeep(c, Skip(s[1..]).value, []);
      }
    }
  }

  lemma {:induction false} ItemsSnoc(c: char, items: seq<Value>, v: Value)
    ensures CountInItems(c, items + [v]) == CountInItems(c, items) + CountIn(c, v)
  {
    hide CountIn;
    if items == [] {
      assert [] + [v] == [v] && [v][1..] == [];
    } else {
      assert (items + [v])[1..] == items[1..] + [v];
      ItemsSnoc(c, items[1..], v);
    }
  }

  lemma {:induction false} ItemsKeep(c: char, s: string, acc: seq<Value>)
    requires Tracked(c)
    ensures var r := ParsedItems(s, acc);
            r.Done? ==> CountIn(c, r.result) + Count(c, r.rest) <= CountInItems(c, acc) + Count(c, s)
    decreases |s|, 3
  {
    hide ParsedValue, Skip;
    ValueKeeps(c, s);
    var first := ParsedValue(s);
    if first.Done? {
      var all := acc + [first.result];
      ItemsSnoc(c, acc, first.result);
      SkipKeeps(c, first.rest);
      var next := Skip(first.rest);
      if next.Some? {
        SkipKeeps(c, next.value[1..]);
        var t := Skip(next.value[1..]);
        if next.value[0] == ',' && t.Some? { ItemsKeep(c, t.value, all); }
      }
    }
  }

  lemma {:induction false} MemberKeeps(c: char, s: string)
    requires Tracked(c)
    ensures var r := ParsedMember(s); r.Done? ==> CountInMember(c, r.result) + Count(c, r.rest) <= Count(c, s)
    decreases |s|, 1
  {
    hide ParsedValue, ParsedString, Skip;
    StringKeeps(c, s);
    var key := ParsedString(s);
    if key.Done? {
      SkipKeeps(c, key.rest);
      var t := Skip(key.rest);
      if t.Some? {
        SkipKeeps(c, t.value[1..]);
        var u := Skip(t.value[1..]);
        if t.value[0] == ':' && u.Some? { ValueKeeps(c, u.value); }
      }
    }
  }

  lemma {:induction false} MembersSnoc(c: char, members: seq<Member>, m: Member)
    ensures CountInMembers(c, members + [m]) == CountInMembers(c, members) + CountInMember(c, m)
  {
    hide CountInMember;
    if members == [] {
      assert [] + [m] == [m] && [m][1..] == [];
    } else {
      assert (members + [m])[1..] == members[1..] + [m];
      MembersSnoc(c, members[1..], m);
    }
  }

  lemma {:induction false} MembersKeep(c: char, s: string, acc: seq<Member>)
    requires Tracked(c)
    ensures var r := ParsedMembers(s, acc);
            r.Done? ==> CountIn(c, r.result) + Count(c, r.rest) <= CountInMembers(c, acc) + Count(c, s)
    decreases |s|, 3
  {
    hide ParsedMember, Skip;
    MemberKeeps(c, s);
    var first := ParsedMember(s);
    if first.Done? {
      var all := acc + [first.result];
      MembersSnoc(c, acc, first.result);
      SkipKeeps(c, first.rest);
      var next := Skip(first.rest);
      if next.Some? {
        SkipKeeps(c, next.value[1..]);
        var t := Skip(next.value[1..]);
        if next.value[0] == ',' && t.Some? { MembersKeep(c, t.value, all); }
      }
    }
  }

  // ---------- printing keeps it ----------

  lemma OneQuotedKeeps(c: char, d: char)
    requires Tracked(c)
    ensures Count(c, Quoted(d)) == if c == d then 1 else 0
  {
    var q := Quoted(d);
    if c == d {
      assert q[1..] == "";
    } else {
      CountNone(c, q);
    }
  }

  lemma {:induction false} QuotedKeeps(c: char, s: string)
    requires Tracked(c)
    ensures Count(c, QuotedAll(s)) == Count(c, s)
  {
    hide Quoted;
    if s != "" {
      QuotedKeeps(c, s[1..]);
      CountJoin(c, Quoted(s[0]), QuotedAll(s[1..]));
      OneQuotedKeeps(c, s[0]);
    }
  }

  lemma QuoteKeeps(c: char, s: string)
    requires Tracked(c)
    ensures Count(c, Quote(s)) == Count(c, s)
  {
    QuotedKeeps(c, s);
    CountNone(c, "\"");
    CountJoin(c, "\"", QuotedAll(s));
    CountJoin(c, "\"" + QuotedAll(s), "\"");
  }

  lemma IntLacks(c: char, n: int)
    requires Tracked(c)
    ensures c !in IntText(n) && Count(c, IntText(n)) == 0
  {
    DecIsDigits(Abs(n));
    CountNone(c, IntText(n));
  }

  /** A tree's text holds as many percent signs, or slashes, as the tree. */
  lemma {:induction false} RenderCounts(c: char, v: Value, depth: nat, on: bool)
    requires c == '%' || c == '/'
    ensures Count(c, Render(v, depth, Uniform(on))) == CountIn(c, v)
    decreases v, 0
  {
    hide Count, Quote, RenderItems, RenderMembers, IntText;
    match v
    case Null => CountNone(c, "null");
    case False => CountNone(c, "false");
    case True => CountNone(c, "true");
    case Number(n) => IntLacks(c, n);
    case Text(s) => QuoteKeeps(c, s);
    case Array(items) =>
      ItemsCount(c, items, depth + 1, on);
      Wrapped(c, "[", RenderItems(items, depth + 1, Uniform(on)), "]");
    case Object(members) =>
      MembersCount(c, members, depth + 1, on);
      UniformMembers(members, on);
      var l := Uniform(on);
      CountNone(c, Blank(l, "\n"));
      Wrapped(c, Blank(l, "\n"), RenderMembers(members, depth + 1, l), Blank(l, Tabs(depth)) + "}");
      CountNone(c, "{");
      CountJoin(c, "{", Blank(l, "\n") + (RenderMembers(members, depth + 1, l) + (Blank(l, Tabs(depth)) + "}")));
  }

  lemma Wrapped(c: char, a: string, b: string, d: string)
    requires c !in a && c !in d
    ensures Count(c, a + (b + d)) == Count(c, b)
  {
    hide Count;
    CountNone(c, a);
    CountNone(c, d);
    CountJoin(c, b, d);
    CountJoin(c, a, b + d);
  }

  lemma {:induction false} ItemsCount(c: char, items: seq<Value>, depth: nat, on: bool)
    requires c == '%' || c == '/'
    ensures Count(c, RenderItems(items, depth, Uniform(on))) == CountInItems(c, items)
    decreases items, 0
  {
    hide Count, Render, CountIn;
    var l := Uniform(on);
    if items == [] {
      CountNone(c, "");
    } else {
      UniformReads(items[0], on);
      RenderCounts(c, items[0], depth, on);
      ItemsCount(c, items[1..], depth, on);
      var comma := if |items| > 1 then "," + Blank(l, " ") else "";
      CountNone(c, comma);
      CountJoin(c, comma, RenderItems(items[1..], depth, l));
      CountJoin(c, Render(items[0], depth, l), comma + RenderItems(items[1..], depth, l));
    }
  }

  lemma {:induction false} MembersCount(c: char, members: seq<Member>, depth: nat, on: bool)
    requires c == '%' || c == '/'
    ensures Count(c, RenderMembers(members, depth, Uniform(on))) == CountInMembers(c, members)
    decreases members, 0
  {
    hide Count, Render, Quote, CountIn, Tabs, PastMember;
    var l := Uniform(on);
    if members == [] {
      CountNone(c, "");
    } else {
      var m := members[0];
      UniformMember(m, on);
      QuoteKeeps(c, m.key);
      RenderCounts(c, m.value, depth, on);
      MembersCount(c, members[1..], depth, on);
      var rest := RenderMembers(members[1..], depth, l);
      var tail := Blank(l, "\n") + rest;
      var after := (if |members| > 1 then "," else "") + tail;
      var value := Render(m.value, depth, l) + after;
      var colon := ":" + (Blank(l, "\t") + value);
      TabsLack(c, depth);
      Prefixed(c, Blank(l, "\n"), rest);
      Prefixed(c, if |members| > 1 then "," else "", tail);
      CountJoin(c, Render(m.value, depth, l), after);
      Prefixed(c, Blank(l, "\t"), value);
      Prefixed(c, ":", Blank(l, "\t") + value);
      CountJoin(c, Quote(m.key), colon);
      Prefixed(c, Blank(l, Tabs(depth)), Quote(m.key) + colon);
    }
  }

  lemma TabsLack(c: char, n: nat)
    requires Tracked(c)
    ensures c !in Tabs(n)
  {
  }

  lemma Prefixed(c: char, a: string, b: string)
    requires c !in a
    ensures Count(c, a + b) == Count(c, b)
  {
    CountNone(c, a);
    CountJoin(c, a, b);
  }

  // ---------- cleaning keeps it ----------

  lemma {:induction false} CleanTextKeeps(c: char, s: string)
    requires Tracked(c)
    ensures Count(c, CleanText(s)) == Count(c, s)
  {
    hide Kept;
    if s != "" {
      CleanTextKeeps(c, s[1..]);
      var kept := if Kept(s[0]) then [s[0]] else "";
      CountJoin(c, kept, CleanText(s[1..]));
      TrackedIsKept(c);
      assert [s[0]][1..] == "";
    }
  }

  lemma TrackedIsKept(c: char)
    requires Tracked(c)
    ensures Kept(c)
  {
  }

  lemma {:induction false} CleanKeeps(c: char, v: Value)
    requires Tracked(c)
    ensures CountIn(c, Clean(v)) == CountIn(c, v)
    decreases v, 0
  {
    match v
    case Text(s) => CleanTextKeeps(c, s);
    case Array(items) => CleanItemsKeep(c, items);
    case Object(members) => CleanMembersKeep(c, members);
    case _ =>
  }

  lemma {:induction false} CleanItemsKeep(c: char, items: seq<Value>)
    requires Tracked(c)
    ensures CountInItems(c, CleanItems(items)) == CountInItems(c, items)
    decreases items, 0
  {
    hide Clean, CountIn;
    if items != [] {
      CleanKeeps(c, items[0]);
      CleanItemsKeep(c, items[1..]);
      assert CleanItems(items)[1..] == CleanItems(items[1..]);
    }
  }

  lemma {:induction false} CleanMembersKeep(c: char, members: seq<Member>)
    requires Tracked(c)
    ensures CountInMembers(c, CleanMembers(members)) == CountInMembers(c, members)
    decreases members, 0
  {
    hide Clean, CountIn;
    if members != [] {
      CleanTextKeeps(c, members[0].key);
      CleanKeeps(c, members[0].value);
      CleanMembersKeep(c, members[1..]);
      assert CleanMembers(members)[1..] == CleanMembers(members[1..]);
    }
  }
}
