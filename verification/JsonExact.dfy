/** The JSON round trip for every tree of 32-bit numbers: exactly which trees survive it. */
module JsonExact {
  import opened Text
  import opened Strings
  import opened Json
  import opened JsonRoundTrip
  import opened JsonCounts

  /** Numbers are 32-bit integers. */
  predicate InRange(v: Value)
    decreases v
  {
    match v
    case Number(n) => -0x8000_0000 <= n <= INT_MAX
    case Array(items) => forall i :: 0 <= i < |items| ==> InRange(items[i])
    case Object(members) => forall i :: 0 <= i < |members| ==> InRange(members[i].value)
    case _ => true
  }

  // ---------- the least number ----------

  /** The least 32-bit number prints digits that overflow when they are read. */
  lemma LeastNumberOverflows(rest: string)
    ensures var s := IntText(-0x8000_0000) + rest;
            s != "" && s[0] == '-' && ParsedNumber(s) == Unspecified
  {
    var n := 0x8000_0000;
    var last := [DigitChar(8)] + rest;
    var digits := Dec(n / 10) + last;
    assert Dec(n) == Dec(n / 10) + [DigitChar(8)];
    assert IntText(-n) + rest == "-" + digits;
    DecStarts(n / 10, last);
    DigitsRead(n / 10, last);
    assert last[0] == DigitChar(8) && Digits(last, n / 10) == Unspecified;
    SignIgnored(digits);
  }

  /** A tree that holds the least number has a text whose parse overflows. */
  lemma {:induction false} ValueOverflows(v: Value, depth: nat, l: Layout, rest: string)
    requires InRange(v) && !Fits(v)
    ensures ParsedValue(Render(v, depth, l) + rest) == Unspecified
    decreases v, 0
  {
    hide ParsedItems, ParsedMembers, RenderItems, RenderMembers, ParsedNumber, IntText, Bare;
    match v
    case Number(n) =>
      LeastNumberOverflows(rest);
      FirstChar(v, depth, l);
    case Array(items) =>
      hide ParsedValue;
      OpensArray(items, depth, l, rest);
      ItemsOverflow(items, depth + 1, l, rest, []);
    case Object(members) =>
      hide ParsedValue;
      OpensMembers(members, depth, l, rest);
      MembersOverflow(members, depth, l, rest, []);
  }

  lemma {:induction false} ItemsOverflow(items: seq<Value>, depth: nat, l: Layout, rest: string, acc: seq<Value>)
    requires forall i :: 0 <= i < |items| ==> InRange(items[i])
    requires exists i :: 0 <= i < |items| && !Fits(items[i])
    ensures ParsedItems(RenderItems(items, depth, l) + ("]" + rest), acc) == Unspecified
    decreases items, 0
  {
    hide ParsedValue, Render, Skip, ReadBack, Fits, InRange, PastValue;
    var next := PastValue(items[0], l);
    var s := RenderItems(items, depth, l) + ("]" + rest);
    var tail := RenderItems(items[1..], depth, next) + ("]" + rest);
    var after := (if |items| > 1 then "," + Blank(next, " ") else "") + tail;
    assert s == Render(items[0], depth, l) + after;
    if !Fits(items[0]) {
      ValueOverflows(items[0], depth, l, after);
    } else {
      var i :| 0 <= i < |items| && !Fits(items[i]);
      assert items[1..][i - 1] == items[i];
      hide ParsedItems, RenderItems;
      assert after == "," + (Blank(next, " ") + tail);
      ValueReadsBack(items[0], depth, l, after);
      ItemsStart(items[1..], depth, next, "]" + rest);
      NextItem(s, acc, ReadBack(items[0], l), Blank(next, " "), tail);
      ItemsOverflow(items[1..], depth, next, rest, acc + [ReadBack(items[0], l)]);
    }
  }

  lemma ItemsStart(items: seq<Value>, depth: nat, l: Layout, rest: string)
    requires items != []
    ensures var t := RenderItems(items, depth, l) + rest; t != "" && t[0] > ' '
  {
    hide Render;
    FirstChar(items[0], depth, l);
    assert RenderItems(items, depth, l)[0] == Render(items[0], depth, l)[0];
  }

  lemma {:induction false} MembersOverflow(members: seq<Member>, depth: nat, l: Layout, rest: string, acc: seq<Member>)
    requires forall i :: 0 <= i < |members| ==> InRange(members[i].value)
    requires exists i :: 0 <= i < |members| && !Fits(members[i].value)
    ensures ParsedMembers(Bare(members, depth + 1, l) + Close(members, depth, l, rest), acc) == Unspecified
    decreases members, 0
  {
    hide ParsedValue, Render, Quote, ParsedMember, Bare, RenderMembers, ReadMember, Skip, Fits, InRange;
    hide PastMember, MemberText, Close;
    var m, next := ReadMember(members[0], l), PastMember(members[0], l);
    var close := Close(members, depth, l, rest);
    var s := Bare(members, depth + 1, l) + close;
    FirstMember(members, depth + 1, l, close);
    if !Fits(members[0].value) {
      MemberOverflows(members[0], depth + 1, l,
                      (if |members| > 1 then "," else "") +
                      (Blank(next, "\n") + (RenderMembers(members[1..], depth + 1, next) + close)));
    } else {
      var i :| 0 <= i < |members| && !Fits(members[i].value);
      assert members[1..][i - 1] == members[i];
      hide ParsedMembers;
      var w := Blank(next, "\n") + Blank(next, Tabs(depth + 1));
      var bare := Bare(members[1..], depth + 1, next) + close;
      AfterMember(members, depth, next, close);
      MemberReadsBack(members[0], depth + 1, l, "," + (w + bare));
      BareStarts(members[1..], depth + 1, next);
      NextMember(s, acc, m, w, bare);
      CloseShifts(members, depth, l, rest);
      MembersOverflow(members[1..], depth, next, rest, acc + [m]);
    }
  }

  lemma {:induction false} MemberOverflows(m: Member, depth: nat, l: Layout, after: string)
    requires InRange(m.value) && !Fits(m.value)
    ensures ParsedMember(MemberText(m, depth, l, after)) == Unspecified
    decreases m, 0
  {
    hide ParsedValue, ParsedString, Render, Quote, Fits, InRange;
    var inner := l.Past(m.key);
    var value := Render(m.value, depth, inner) + after;
    var colon := ":" + (Blank(inner, "\t") + value);
    StringReadsBack(l.Shown(m.key), colon);
    SkipsBlanks("", colon);
    assert "" + colon == colon && colon[1..] == Blank(inner, "\t") + value;
    FirstChar(m.value, depth, inner);
    assert value[0] == Render(m.value, depth, inner)[0];
    SkipsBlanks(Blank(inner, "\t"), value);
    ValueOverflows(m.value, depth, inner, after);
  }

  // ---------- trees without percent signs ----------

  lemma {:induction false} NoPercentIff(v: Value)
    ensures NoPercent(v) <==> CountIn('%', v) == 0
    decreases v, 0
  {
    match v
    case Text(s) => CountNone('%', s);
    case Array(items) => NoPercentItems(items);
    case Object(members) => NoPercentMembers(members);
    case _ =>
  }

  lemma {:induction false} NoPercentItems(items: seq<Value>)
    ensures CountInItems('%', items) == 0 <==> forall i :: 0 <= i < |items| ==> NoPercent(items[i])
    decreases items, 0
  {
    hide NoPercent, CountIn;
    if items != [] {
      assert items == [items[0]] + items[1..];
      NoPercentIff(items[0]);
      NoPercentItems(items[1..]);
    }
  }

  predicate CleanMemberText(m: Member) {
    '%' !in m.key && NoPercent(m.value)
  }

  lemma {:induction false} NoPercentMembers(members: seq<Member>)
    ensures CountInMembers('%', members) == 0 <==> forall i :: 0 <= i < |members| ==> CleanMemberText(members[i])
    decreases members, 0
  {
    hide NoPercent, CountIn;
    if members != [] {
      assert members == [members[0]] + members[1..];
      CountNone('%', members[0].key);
      NoPercentIff(members[0].value);
      NoPercentMembers(members[1..]);
    }
  }

  // ---------- what is printed ----------

  lemma {:induction false} FormatOfPlainText(s: string)
    requires '%' !in s
    ensures Formatted(s) == Some(s)
  {
    if s != "" {
      assert s == [s[0]] + s[1..];
      FormatOfPlainText(s[1..]);
    }
  }

  lemma QuoteHasNoPercent(s: string)
    requires '%' !in s
    ensures '%' !in Quote(s)
  {
    QuoteKeeps('%', s);
    CountNone('%', s);
    CountNone('%', Quote(s));
  }

  lemma RenderHasNoPercent(v: Value, depth: nat)
    requires NoPercent(v)
    ensures '%' !in Render(v, depth, Uniform(true))
  {
    NoPercentIff(v);
    RenderCounts('%', v, depth, true);
    CountNone('%', Render(v, depth, Uniform(true)));
  }

  lemma {:induction false} PrintsRender(v: Value, depth: nat)
    requires Printable(v)
    ensures Printed(v, depth) == Some(Render(v, depth, Uniform(true)))
    decreases v, 0
  {
    hide PrintedItems, PrintedMembers, RenderItems, RenderMembers;
    match v
    case Array(items) =>
      UniformItems(items, true);
      PrintsItems(items, depth + 1);
      var r := RenderItems(items, depth + 1, Uniform(true));
      assert "[" + r + "]" == "[" + (r + "]");
    case Object(members) =>
      UniformMembers(members, true);
      PrintsMembers(members, depth + 1);
      var r := RenderMembers(members, depth + 1, Uniform(true));
      assert "{\n" + r + (Tabs(depth) + "}") == "{" + ("\n" + (r + (Tabs(depth) + "}")));
    case _ =>
  }

  lemma {:induction false} PrintsItems(items: seq<Value>, depth: nat)
    requires forall i :: 0 <= i < |items| ==> NoPercent(items[i])
    ensures PrintedItems(items, depth) == Some(RenderItems(items, depth, Uniform(true)))
    decreases items, 0
  {
    hide Render, Printed, Formatted, PastValue;
    if items != [] {
      UniformReads(items[0], true);
      PrintsRender(items[0], depth);
      RenderHasNoPercent(items[0], depth);
      FormatOfPlainText(Render(items[0], depth, Uniform(true)));
      PrintsItems(items[1..], depth);
      var first, rest := Render(items[0], depth, Uniform(true)), RenderItems(items[1..], depth, Uniform(true));
      var comma := if |items| > 1 then ", " else "";
      assert comma == if |items| > 1 then "," + " " else "";
      assert first + comma + rest == first + (comma + rest);
    }
  }

  lemma {:induction false} PrintsMembers(members: seq<Member>, depth: nat)
    requires forall i :: 0 <= i < |members| ==> '%' !in members[i].key && NoPercent(members[i].value)
    ensures PrintedMembers(members, depth) == Some(RenderMembers(members, depth, Uniform(true)))
    decreases members, 0
  {
    hide Render, Printed, Formatted, QuotedAll, PastMember;
    if members != [] {
      var m := members[0];
      UniformMember(m, true);
      QuoteHasNoPercent(m.key);
      FormatOfPlainText(Quote(m.key));
      PrintsRender(m.value, depth);
      RenderHasNoPercent(m.value, depth);
      FormatOfPlainText(Render(m.value, depth, Uniform(true)));
      PrintsMembers(members[1..], depth);
      MemberAssociates(Tabs(depth), Quote(m.key), Render(m.value, depth, Uniform(true)),
                       if |members| > 1 then "," else "",
                       RenderMembers(members[1..], depth, Uniform(true)));
    }
  }

  lemma MemberAssociates(tabs: string, key: string, value: string, comma: string, rest: string)
    ensures tabs + key + ":\t" + value + comma + "\n" + rest ==
            tabs + (key + (":" + ("\t" + (value + (comma + ("\n" + rest))))))
  {
  }

  // ---------- what comes back of what was printed ----------

  /** Printing and parsing gives the tree back but for signs and dropped control characters. */
  lemma ParsePrinted(v: Value)
    requires Fits(v) && Printable(v)
    ensures Printed(v, 0).Some? && Parsed(Printed(v, 0).value) == Done(Clean(v), "")
  {
    hide Render, ParsedValue;
    var t := Render(v, 0, Uniform(true));
    PrintsRender(v, 0);
    UniformReads(v, true);
    ValueReadsBack(v, 0, Uniform(true), "");
    assert t + "" == t;
    FirstChar(v, 0, Uniform(true));
  }

  lemma {:induction false} CleanTextIff(s: string)
    ensures |CleanText(s)| <= |s|
    ensures CleanText(s) == s <==> forall i :: 0 <= i < |s| ==> Kept(s[i])
  {
    hide Kept;
    if s != "" {
      assert s == [s[0]] + s[1..];
      CleanTextIff(s[1..]);
      if Kept(s[0]) {
        assert CleanText(s)[1..] == CleanText(s[1..]);
      }
    }
  }

  lemma {:induction false} CleanIff(v: Value)
    ensures Clean(v) == v <==> Plain(v)
    decreases v, 0
  {
    match v
    case Text(s) => CleanTextIff(s);
    case Array(items) => CleanItemsIff(items);
    case Object(members) => CleanMembersIff(members);
    case _ =>
  }

  lemma {:induction false} CleanItemsIff(items: seq<Value>)
    ensures |CleanItems(items)| == |items|
    ensures CleanItems(items) == items <==> forall i :: 0 <= i < |items| ==> Plain(items[i])
    decreases items, 0
  {
    hide Clean, Plain;
    if items != [] {
      assert items == [items[0]] + items[1..];
      CleanIff(items[0]);
      CleanItemsIff(items[1..]);
      assert CleanItems(items)[1..] == CleanItems(items[1..]);
    }
  }

  predicate PlainMember(m: Member) {
    Plain(m.value) && forall k :: 0 <= k < |m.key| ==> Kept(m.key[k])
  }

  lemma {:induction false} CleanMembersIff(members: seq<Member>)
    ensures |CleanMembers(members)| == |members|
    ensures CleanMembers(members) == members <==> forall i :: 0 <= i < |members| ==> PlainMember(members[i])
    decreases members, 0
  {
    hide Clean, Plain, Kept;
    if members != [] {
      assert members == [members[0]] + members[1..];
      CleanTextIff(members[0].key);
      CleanIff(members[0].value);
      CleanMembersIff(members[1..]);
      assert CleanMembers(members)[1..] == CleanMembers(members[1..]);
    }
  }

  // ---------- printing loses them ----------

  lemma {:induction false} FormatHalves(s: string)
    ensures Formatted(s).Some? ==> 2 * Count('%', Formatted(s).value) == Count('%', s)
    decreases |s|
  {
    if s == "" {
    } else if s[0] != '%' {
      FormatHalves(s[1..]);
      if Formatted(s[1..]).Some? { CountJoin('%', [s[0]], Formatted(s[1..]).value); }
      assert [s[0]][1..] == "";
    } else if |s| > 1 && s[1] == '%' {
      FormatHalves(s[2..]);
      if Formatted(s[2..]).Some? { CountJoin('%', "%", Formatted(s[2..]).value); }
      assert s[1..][1..] == s[2..] && "%"[1..] == "";
    }
  }

  /** Arrays and objects print at most half of the percent signs they hold. */
  lemma {:induction false} PrintedHolds(v: Value, depth: nat)
    requires Printed(v, depth).Some?
    ensures Count('%', Printed(v, depth).value) <= CountIn('%', v)
    ensures v.Array? || v.Object? ==> 2 * Count('%', Printed(v, depth).value) <= CountIn('%', v)
    decreases v, 0
  {
    hide PrintedItems, PrintedMembers, Quote, IntText, Count;
    match v
    case Null => CountNone('%', "null");
    case False => CountNone('%', "false");
    case True => CountNone('%', "true");
    case Number(n) =>
      IntLacks('%', n);
    case Text(t) => QuoteKeeps('%', t);
    case Array(items) =>
      ItemsHold(items, depth + 1);
      var r := PrintedItems(items, depth + 1).value;
      CountNone('%', "[");
      CountNone('%', "]");
      CountJoin('%', "[", r);
      CountJoin('%', "[" + r, "]");
    case Object(members) =>
      MembersHold(members, depth + 1);
      var r := PrintedMembers(members, depth + 1).value;
      CountNone('%', "{\n");
      CountNone('%', Tabs(depth) + "}");
      CountJoin('%', "{\n", r);
      CountJoin('%', "{\n" + r, Tabs(depth) + "}");
  }

  lemma {:induction false} ItemsHold(items: seq<Value>, depth: nat)
    requires PrintedItems(items, depth).Some?
    ensures 2 * Count('%', PrintedItems(items, depth).value) <= CountInItems('%', items)
    decreases items, 0
  {
    hide Printed, Formatted, Count;
    if items == [] {
      CountNone('%', "");
    } else {
      PrintedHolds(items[0], depth);
      var text := Printed(items[0], depth).value;
      FormatHalves(text);
      ItemsHold(items[1..], depth);
      var first, comma := Formatted(text).value, if |items| > 1 then ", " else "";
      CountNone('%', comma);
      CountJoin('%', first, comma);
      CountJoin('%', first + comma, PrintedItems(items[1..], depth).value);
    }
  }

  lemma {:induction false} MembersHold(members: seq<Member>, depth: nat)
    requires PrintedMembers(members, depth).Some?
    ensures 2 * Count('%', PrintedMembers(members, depth).value) <= CountInMembers('%', members)
    decreases members, 0
  {
    hide Printed, Formatted, Quote, Count;
    if members == [] {
      CountNone('%', "");
    } else {
      var m := members[0];
      QuoteKeeps('%', m.key);
      FormatHalves(Quote(m.key));
      PrintedHolds(m.value, depth);
      FormatHalves(Printed(m.value, depth).value);
      MembersHold(members[1..], depth);
      MemberTextHolds(Tabs(depth), Formatted(Quote(m.key)).value, Formatted(Printed(m.value, depth).value).value,
                      if |members| > 1 then "," else "", PrintedMembers(members[1..], depth).value);
    }
  }

  lemma MemberTextHolds(tabs: string, key: string, value: string, comma: string, rest: string)
    requires '%' !in tabs && '%' !in comma
    ensures Count('%', tabs + key + ":\t" + value + comma + "\n" + rest) ==
            Count('%', key) + Count('%', value) + Count('%', rest)
  {
    hide Count;
    CountNone('%', tabs);
    CountNone('%', ":\t");
    CountNone('%', comma);
    CountNone('%', "\n");
    CountJoin('%', tabs, key);
    CountJoin('%', tabs + key, ":\t");
    CountJoin('%', tabs + key + ":\t", value);
    CountJoin('%', tabs + key + ":\t" + value, comma);
    CountJoin('%', tabs + key + ":\t" + value + comma, "\n");
    CountJoin('%', tabs + key + ":\t" + value + comma + "\n", rest);
  }

  // ---------- the exact condition ----------

  lemma {:induction false} PlainFits(v: Value)
    requires InRange(v) && Plain(v)
    ensures Fits(v)
    decreases v
  {
    match v
    case Array(items) => forall i | 0 <= i < |items| ensures Fits(items[i]) { PlainFits(items[i]); }
    case Object(members) =>
      forall i | 0 <= i < |members| ensures Fits(members[i].value) { PlainFits(members[i].value); }
    case _ =>
  }

  lemma MangledIsDifferent(v: Value)
    requires !Printable(v) && Printed(v, 0).Some?
    ensures Parsed(Printed(v, 0).value) != Done(v, "")
  {
    hide Printed, ParsedValue, Skip;
    var text := Printed(v, 0).value;
    NoPercentIff(v);
    NotPrintable(v);
    PrintedHolds(v, 0);
    SkipKeeps('%', text);
    if Skip(text).Some? { ValueKeeps('%', Skip(text).value); }
  }

  lemma NotPrintable(v: Value)
    requires !Printable(v)
    ensures v.Array? || v.Object?
  {
  }

  /** What parsing gives for any tree of 32-bit numbers in any layout. */
  lemma ParseRendered(v: Value, l: Layout)
    requires InRange(v)
    ensures Parsed(Render(v, 0, l)) == if Fits(v) then Done(ReadBack(v, l), "") else Unspecified
  {
    hide Render, ParsedValue, ReadBack, Fits;
    var t := Render(v, 0, l);
    assert t + "" == t;
    FirstChar(v, 0, l);
    if Fits(v) {
      ValueReadsBack(v, 0, l, "");
    } else {
      ValueOverflows(v, 0, l, "");
    }
  }

  /** The same for the uniform layouts, with white space and without. */
  lemma ParsePrintedInRange(v: Value, on: bool)
    requires InRange(v)
    ensures Parsed(Render(v, 0, Uniform(on))) == if Fits(v) then Done(Clean(v), "") else Unspecified
  {
    hide Render, Parsed, ReadBack, Fits, Clean;
    ParseRendered(v, Uniform(on));
    UniformReads(v, on);
  }

  /** A tree of 32-bit numbers survives printing and parsing exactly when no number is negative, no
      character is dropped and no child holds a percent sign. */
  lemma RoundTripIff(v: Value)
    requires InRange(v)
    ensures Printed(v, 0).Some? && Parsed(Printed(v, 0).value) == Done(v, "") <==> Plain(v) && Printable(v)
  {
    hide Clean, Plain, Printed, Parsed, Fits, InRange, Printable;
    if Printable(v) {
      PrintsRender(v, 0);
      ParsePrintedInRange(v, true);
      CleanIff(v);
      if Plain(v) { PlainFits(v); }
    } else if Printed(v, 0).Some? {
      MangledIsDifferent(v);
    }
  }

  /** Inside an array the printed text is a format, so a doubled percent sign comes back single. */
  lemma PercentIsMangled()
    ensures var v := Array([Text("%%")]);
            Printed(v, 0) == Some("[\"%\"]") && Parsed("[\"%\"]") == Done(Array([Text("%")]), "")
  {
    var v := Array([Text("%%")]);
    assert QuotedAll("%%") == "%%" by { assert "%%"[1..] == "%" && "%"[1..] == ""; }
    assert Quote("%%") == "\"%%\"";
    FormatOfPlainText("\"");
    FormatsPercent("\"", "\"");
    assert "%%" + "\"" == "%%\"" && "%" + "\"" == "%\"";
    FormatsOne('\"', "%%\"", "%\"");
    assert ['\"'] + "%%\"" == "\"%%\"" && ['\"'] + "%\"" == "\"%\"";
    assert v.items[1..] == [];
    assert Child(Printed(v.items[0], 1)) == Some("\"%\"");
    assert PrintedItems(v.items[1..], 1) == Some("");
    assert PrintedItems(v.items, 1) == Some("\"%\"") by { assert "\"%\"" + "" + "" == "\"%\""; }
    assert "[" + "\"%\"" + "]" == "[\"%\"]";
    ParsePrintedPercent();
  }

  lemma FormatsOne(c: char, s: string, r: string)
    requires c != '%' && Formatted(s) == Some(r)
    ensures Formatted([c] + s) == Some([c] + r)
  {
    assert ([c] + s)[1..] == s;
  }

  lemma FormatsPercent(s: string, r: string)
    requires Formatted(s) == Some(r)
    ensures Formatted("%%" + s) == Some("%" + r)
  {
    assert ("%%" + s)[2..] == s;
  }

  lemma ParsePrintedPercent()
    ensures Parsed("[\"%\"]") == Done(Array([Text("%")]), "")
  {
    var items := [Text("%")];
    assert QuotedAll("%") == "%" by { assert "%"[1..] == ""; }
    assert items[1..] == [];
    assert Render(Array(items), 0, Uniform(true)) == "[\"%\"]";
    UniformReads(Array(items), true);
    ValueReadsBack(Array(items), 0, Uniform(true), "");
    assert CleanText("%") == "%" by { assert "%"[1..] == ""; }
    assert CleanItems(items) == items;
    assert "[\"%\"]" + "" == "[\"%\"]";
  }
}
