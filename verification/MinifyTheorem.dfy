/** When minifying printed JSON text keeps its meaning. */
module MinifyTheorem {
  import opened Text
  import opened Strings
  import opened Json
  import opened JsonRoundTrip
  import opened JsonCounts
  import opened JsonExact
  import opened Minify

  // ---------- the minifier until it meets a slash ----------

  function Feed(inside: bool, s: string): string {
    if inside then InString(s) else Minified(s)
  }

  /** What the minifier makes of the text, inside a string or not; nothing once it meets a slash outside. */
  function Fed(inside: bool, s: string): Option<string>
    decreases |s|
  {
    if s == "" then Some("")
    else if inside then
      if s[0] == '\"' then Led("\"", Fed(false, s[1..]))
      else if s[0] == '\\' && |s| > 1 && s[1] == '\"' then Led("\\\"", Fed(true, s[2..]))
      else Led([s[0]], Fed(true, s[1..]))
    else if IsBlank(s[0]) then Fed(false, s[1..])
    else if s[0] == '/' then None
    else if s[0] == '\"' then Led("\"", Fed(true, s[1..]))
    else Led([s[0]], Fed(false, s[1..]))
  }

  function Led(head: string, o: Option<string>): Option<string> {
    match o
    case None => None
    case Some(r) => Some(head + r)
  }

  lemma LedLed(a: string, b: string, o: Option<string>)
    ensures Led(a, Led(b, o)) == Led(a + b, o)
  {
    if o.Some? { assert a + (b + o.value) == a + b + o.value; }
  }

  lemma LedNothing(o: Option<string>)
    ensures Led("", o) == o
  {
    if o.Some? { assert "" + o.value == o.value; }
  }

  lemma {:induction false} AfterLineKeeps(s: string)
    ensures Count('/', AfterLine(s)) <= Count('/', s)
  {
    if s != "" && s[0] != '\n' { AfterLineKeeps(s[1..]); }
  }

  lemma {:induction false} AfterBlockKeeps(s: string)
    ensures Count('/', AfterBlock(s)) <= Count('/', s)
  {
    if s != "" {
      if s[0] == '*' && |s| > 1 && s[1] == '/' {
        CountDrop('/', s, 2);
      } else {
        AfterBlockKeeps(s[1..]);
      }
    }
  }

  /** The minifier adds no slashes, and loses one as soon as it meets one outside strings. */
  lemma {:induction false} FedIsFeed(inside: bool, s: string)
    ensures Count('/', Feed(inside, s)) <= Count('/', s)
    ensures Fed(inside, s).Some? ==> Feed(inside, s) == Fed(inside, s).value
    ensures Fed(inside, s).None? ==> Count('/', Feed(inside, s)) < Count('/', s)
    decreases |s|
  {
    hide Count;
    if s == "" {
      CountNone('/', "");
    } else {
      SlashStep(s);
      if inside && s[0] == '\\' && |s| > 1 && s[1] == '\"' {
        assert s[..2] == "\\\"";
        FedIsFeed(true, s[2..]);
        CountNone('/', "\\\"");
        CountJoin('/', "\\\"", Feed(true, s[2..]));
        assert s == "\\\"" + s[2..];
        CountJoin('/', "\\\"", s[2..]);
      } else if !inside && s[0] == '/' {
        SlashSkipped(s);
      } else if s[0] == '\"' {
        FedIsFeed(!inside, s[1..]);
        CountJoin('/', [s[0]], Feed(!inside, s[1..]));
        assert "\"" == [s[0]];
      } else {
        FedIsFeed(inside, s[1..]);
        CountJoin('/', [s[0]], Feed(inside, s[1..]));
      }
    }
  }

  lemma SlashStep(s: string)
    requires s != ""
    ensures Count('/', s) == Count('/', [s[0]]) + Count('/', s[1..])
  {
    hide Count;
    assert s == [s[0]] + s[1..];
    CountJoin('/', [s[0]], s[1..]);
  }

  lemma {:induction false} SlashSkipped(s: string)
    requires s != "" && s[0] == '/'
    ensures Count('/', Minified(s)) < Count('/', s)
    decreases |s|, 0
  {
    hide Count, Fed, InString;
    SlashStep(s);
    OneSlash();
    if |s| > 1 && (s[1] == '/' || s[1] == '*') {
      CountDrop('/', s[1..], 1);
      assert s[1..][1..] == s[2..];
      if s[1] == '/' {
        AfterLineKeeps(s[2..]);
        FedIsFeed(false, AfterLine(s[2..]));
      } else {
        AfterBlockKeeps(s[2..]);
        FedIsFeed(false, AfterBlock(s[2..]));
      }
    } else {
      FedIsFeed(false, s[1..]);
    }
  }

  lemma OneSlash()
    ensures Count('/', "/") == 1
  {
    assert "/"[1..] == "";
  }

  // ---------- pieces of printed text ----------

  /** Characters that are the same to the minifier inside a string and outside. */
  predicate Bland(c: char) { CopiedAsIs(c) && c != '\\' }

  lemma {:induction false} FedBland(inside: bool, t: string, s: string)
    requires forall i :: 0 <= i < |t| ==> Bland(t[i])
    ensures Fed(inside, t + s) == Led(t, Fed(inside, s))
  {
    if t == "" {
      assert t + s == s;
      LedNothing(Fed(inside, s));
    } else {
      assert (t + s)[0] == t[0] && (t + s)[1..] == t[1..] + s;
      FedBland(inside, t[1..], s);
      LedLed([t[0]], t[1..], Fed(inside, s));
      assert [t[0]] + t[1..] == t;
    }
  }

  /** White space is kept inside a string and dropped outside. */
  lemma {:induction false} FedBlanks(inside: bool, w: string, s: string)
    requires forall i :: 0 <= i < |w| ==> IsBlank(w[i])
    ensures Fed(inside, w + s) == Led(if inside then w else "", Fed(inside, s))
  {
    if w == "" {
      assert w + s == s;
      LedNothing(Fed(inside, s));
    } else {
      assert (w + s)[0] == w[0] && (w + s)[1..] == w[1..] + s;
      FedBlanks(inside, w[1..], s);
      LedLed([w[0]], w[1..], Fed(inside, s));
      assert [w[0]] + w[1..] == w;
    }
  }

  /** Outside a string a backslash is a character like any other. */
  lemma FedOutside(c: char, s: string)
    requires CopiedAsIs(c)
    ensures Fed(false, [c] + s) == Led([c], Fed(false, s))
  {
    assert ([c] + s)[0] == c && ([c] + s)[1..] == s;
  }

  lemma FedToggle(inside: bool, s: string)
    ensures Fed(inside, "\"" + s) == Led("\"", Fed(!inside, s))
  {
    assert ("\"" + s)[0] == '\"' && ("\"" + s)[1..] == s;
  }

  lemma FedEscapedQuote(s: string)
    ensures Fed(true, "\\\"" + s) == Led("\\\"", Fed(true, s))
  {
    var t := "\\\"" + s;
    assert t[0] == '\\' && t[1] == '\"' && t[2..] == s;
  }

  lemma FedInside(c: char, s: string)
    requires s != "" && c != '\"' && (c == '\\' ==> s[0] != '\"')
    ensures Fed(true, [c] + s) == Led([c], Fed(true, s))
  {
    var t := [c] + s;
    assert t[0] == c && t[1] == s[0] && t[1..] == s;
  }

  predicate EndsInBackslash(s: string) {
    s != "" && s[|s| - 1] == '\\'
  }

  // ---------- a printed string, read from inside ----------

  lemma {:induction false} NoQuoteFirst(s: string)
    ensures QuotedAll(s) == "" <==> CleanText(s) == ""
    ensures QuotedAll(s) != "" ==> QuotedAll(s)[0] != '\"'
  {
    if s != "" { NoQuoteFirst(s[1..]); }
  }

  lemma CleanEnd(s: string)
    requires s != ""
    ensures CleanText(s[1..]) != "" ==> EndsInBackslash(CleanText(s)) == EndsInBackslash(CleanText(s[1..]))
    ensures CleanText(s[1..]) == "" ==> EndsInBackslash(CleanText(s)) == (s[0] == '\\')
  {
    hide Kept;
    var kept, tail := if Kept(s[0]) then [s[0]] else "", CleanText(s[1..]);
    assert CleanText(s) == kept + tail;
    hide CleanText;
    BackslashKept();
    LastOfJoin(kept, tail);
  }

  lemma LastOfJoin(a: string, b: string)
    ensures b != "" ==> EndsInBackslash(a + b) == EndsInBackslash(b)
    ensures b == "" ==> EndsInBackslash(a + b) == EndsInBackslash(a)
  {
    assert b == "" ==> a + b == a;
  }

  lemma BackslashKept()
    ensures Kept('\\') && Quoted('\\') == "\\\\"
  {
  }

  /** Read from inside, the string ends where it should unless its last character is a backslash. */
  lemma {:induction false} FedChars(s: string, rest: string)
    ensures Fed(true, QuotedAll(s) + ("\"" + rest)) ==
            Led(QuotedAll(s) + "\"", Fed(EndsInBackslash(CleanText(s)), rest))
  {
    hide Fed, Led, Quoted, CleanText, EndsInBackslash, QuotedAll;
    var end := "\"" + rest;
    QuotedAllIs(s);
    if s == "" {
      assert "" + end == end && "" + "\"" == "\"";
      FedToggle(true, rest);
      NothingClean();
    } else {
      var more := QuotedAll(s[1..]);
      var tail := more + end;
      assert QuotedAll(s) + end == Quoted(s[0]) + tail;
      CleanEnd(s);
      NoQuoteFirst(s[1..]);
      assert more != "" ==> tail[0] == more[0];
      FedChars(s[1..], rest);
      if s[0] == '\\' && more == "" {
        LastBackslash(rest);
        BackslashKept();
        assert Quoted(s[0]) + "" == "\\\\";
        assert tail == end && QuotedAll(s) == "\\\\";
      } else {
        FedChar(s[0], tail);
        LedLed(Quoted(s[0]), more + "\"", Fed(EndsInBackslash(CleanText(s)), rest));
        assert Quoted(s[0]) + (more + "\"") == QuotedAll(s) + "\"";
        if more == "" { NothingClean(); }
      }
    }
  }

  lemma NothingClean()
    ensures CleanText("") == "" && !EndsInBackslash("")
  {
  }

  lemma QuotedAllIs(s: string)
    ensures QuotedAll(s) == if s == "" then "" else Quoted(s[0]) + QuotedAll(s[1..])
  {
  }

  lemma LastBackslash(rest: string)
    ensures Fed(true, "\\\\" + ("\"" + rest)) == Led("\\\\" + "\"", Fed(true, rest))
  {
    hide Fed, Led;
    assert "\\\\" + ("\"" + rest) == ['\\'] + ("\\\"" + rest);
    FedInside('\\', "\\\"" + rest);
    FedEscapedQuote(rest);
    LedLed(['\\'], "\\\"", Fed(true, rest));
    assert ['\\'] + "\\\"" == "\\\\" + "\"";
  }

  lemma FedChar(c: char, tail: string)
    requires tail != "" && (c == '\\' ==> tail[0] != '\"')
    ensures Fed(true, Quoted(c) + tail) == Led(Quoted(c), Fed(true, tail))
  {
    hide Fed, Led;
    if Quoted(c) == "" {
      assert Quoted(c) + tail == tail;
      LedNothing(Fed(true, tail));
    } else if |Quoted(c)| == 1 {
      FedInside(c, tail);
    } else if c == '\"' {
      FedEscapedQuote(tail);
    } else {
      var d := Quoted(c)[1];
      assert Quoted(c) == ['\\'] + [d];
      FedInside(d, tail);
      FedInside('\\', [d] + tail);
      assert Quoted(c) + tail == ['\\'] + ([d] + tail);
      LedLed(['\\'], [d], Fed(true, tail));
    }
  }

  // ---------- a printed string, read from outside ----------

  /** The part of a string that is read from outside: up to its first quote. */
  function BarePart(s: string): string {
    if s == "" || s[0] == '\"' then "" else [s[0]] + BarePart(s[1..])
  }

  /** The string without the spaces of that part. */
  function Squeezed(s: string): string {
    if s == "" || s[0] == '\"' then s else (if s[0] == ' ' then "" else [s[0]]) + Squeezed(s[1..])
  }

  /** Is the minifier inside a string after this one, if it was inside one before? */
  predicate StaysInside(inside: bool, s: string) {
    EndsInBackslash(CleanText(s)) || (inside && '\"' !in s)
  }

  lemma {:induction false} FedBare(s: string, rest: string)
    ensures Fed(false, QuotedAll(s) + ("\"" + rest)) ==
            if '/' in BarePart(s) then None
            else Led(QuotedAll(Squeezed(s)) + "\"", Fed(StaysInside(true, s), rest))
  {
    hide Fed, Led, Quoted, CleanText, EndsInBackslash, QuotedAll;
    var end := "\"" + rest;
    QuotedAllIs(s);
    if s == "" {
      assert "" + end == end && "" + "\"" == "\"";
      FedToggle(false, rest);
    } else {
      var tail := QuotedAll(s[1..]) + end;
      assert s == [s[0]] + s[1..];
      assert QuotedAll(s) + end == Quoted(s[0]) + tail;
      CleanEnd(s);
      if s[0] == '\"' {
        FedChars(s[1..], rest);
        QuoteFromOutside(tail);
        LedLed("\\\"", QuotedAll(s[1..]) + "\"", Fed(StaysInside(true, s), rest));
        assert "\\\"" + (QuotedAll(s[1..]) + "\"") == QuotedAll(s) + "\"";
        AfterQuote(s);
      } else {
        FedBare(s[1..], rest);
        BareOne(s[0], tail);
        BareStays(s);
        NoneStays(if s[0] == ' ' then "" else Quoted(s[0]));
        assert BarePart(s) == [s[0]] + BarePart(s[1..]);
        if s[0] != '/' && '/' !in BarePart(s[1..]) {
          var shown := if s[0] == ' ' then "" else Quoted(s[0]);
          var o := Fed(StaysInside(true, s), rest);
          QuotedAllIs(Squeezed(s));
          SqueezedQuoted(s);
          LedLed(shown, QuotedAll(Squeezed(s[1..])) + "\"", o);
          assert shown + (QuotedAll(Squeezed(s[1..])) + "\"") == QuotedAll(Squeezed(s)) + "\"";
        }
      }
    }
  }

  lemma QuoteFromOutside(tail: string)
    ensures Quoted('\"') == "\\\""
    ensures Fed(false, "\\\"" + tail) == Led("\\\"", Fed(true, tail))
  {
    hide Fed, Led;
    assert "\\\"" + tail == ['\\'] + ("\"" + tail);
    FedOutside('\\', "\"" + tail);
    FedToggle(false, tail);
    LedLed(['\\'], "\"", Fed(true, tail));
    assert ['\\'] + "\"" == "\\\"";
  }

  lemma AfterQuote(s: string)
    requires s != "" && s[0] == '\"'
    ensures StaysInside(true, s) == EndsInBackslash(CleanText(s[1..]))
  {
    hide CleanText;
    CleanEnd(s);
    NothingClean();
  }

  lemma BareStays(s: string)
    requires s != "" && s[0] != '\"'
    ensures StaysInside(true, s) == StaysInside(true, s[1..])
  {
    hide CleanText;
    assert s == [s[0]] + s[1..];
    CleanEnd(s);
    if CleanText(s[1..]) == "" { QuoteIsKept(s[1..]); }
  }

  lemma {:induction false} QuoteIsKept(s: string)
    ensures '\"' in s ==> CleanText(s) != ""
  {
    if s != "" {
      assert s == [s[0]] + s[1..];
      QuoteIsKept(s[1..]);
    }
  }

  /** One printed character of a string that is read from outside. */
  lemma BareOne(c: char, tail: string)
    requires c != '\"'
    ensures Fed(false, Quoted(c) + tail) ==
            if c == '/' then None else Led(if c == ' ' then "" else Quoted(c), Fed(false, tail))
  {
    hide Led;
    var t := Quoted(c) + tail;
    if c == '/' {
      assert t[0] == '/';
    } else if c == ' ' {
      assert t == " " + tail;
      FedBlanks(false, " ", tail);
    } else if Quoted(c) == "" {
      assert t == tail;
      LedNothing(Fed(false, tail));
    } else if |Quoted(c)| == 1 {
      FedOutside(c, tail);
    } else {
      var d := Quoted(c)[1];
      assert t == ['\\'] + ([d] + tail);
      FedOutside('\\', [d] + tail);
      FedOutside(d, tail);
      LedLed(['\\'], [d], Fed(false, tail));
      assert ['\\'] + [d] == Quoted(c);
    }
  }

  lemma SqueezedQuoted(s: string)
    requires s != "" && s[0] != '\"'
    ensures QuotedAll(Squeezed(s)) == (if s[0] == ' ' then "" else Quoted(s[0])) + QuotedAll(Squeezed(s[1..]))
  {
    hide Quoted;
    if s[0] == ' ' {
      assert Squeezed(s) == Squeezed(s[1..]);
      assert "" + QuotedAll(Squeezed(s[1..])) == QuotedAll(Squeezed(s[1..]));
    } else {
      assert Squeezed(s)[0] == s[0] && Squeezed(s)[1..] == Squeezed(s[1..]);
    }
  }

  // ---------- printed trees ----------

  /** The text the minifier leaves: white space is on while it takes the structure for a string, and
      strings met then lose the spaces of their bare part. */
  function Traced(inside: bool): Layout {
    Layout(inside, (b, s) => StaysInside(b, s), (b, s) => if b then Squeezed(s) else s)
  }

  /** The character stands in the bare part of a string that is read from outside. */
  predicate Met(c: char, v: Value, inside: bool)
    decreases v
  {
    match v
    case Text(s) => inside && c in BarePart(s)
    case Array(items) => MetInItems(c, items, inside)
    case Object(members) => MetInMembers(c, members, inside)
    case _ => false
  }

  predicate MetInItems(c: char, items: seq<Value>, inside: bool)
    decreases items
  {
    items != [] &&
    (Met(c, items[0], inside) || MetInItems(c, items[1..], PastValue(items[0], Traced(inside)).on))
  }

  predicate MetInMember(c: char, m: Member, inside: bool)
    decreases m
  {
    (inside && c in BarePart(m.key)) || Met(c, m.value, StaysInside(inside, m.key))
  }

  predicate MetInMembers(c: char, members: seq<Member>, inside: bool)
    decreases members
  {
    members != [] &&
    (MetInMember(c, members[0], inside) || MetInMembers(c, members[1..], PastMember(members[0], Traced(inside)).on))
  }

  /** A traced layout stays one. */
  lemma {:induction false} TracedPast(v: Value, inside: bool)
    ensures var p := PastValue(v, Traced(inside)); p == Traced(p.on)
    decreases v, 0
  {
    match v
    case Array(items) => TracedPastItems(items, inside);
    case Object(members) => TracedPastMembers(members, inside);
    case _ =>
  }

  lemma {:induction false} TracedPastItems(items: seq<Value>, inside: bool)
    ensures var p := PastItems(items, Traced(inside)); p == Traced(p.on)
    decreases items, 0
  {
    hide PastValue, Traced;
    TracedOn(inside);
    if items != [] {
      TracedPast(items[0], inside);
      TracedPastItems(items[1..], PastValue(items[0], Traced(inside)).on);
    }
  }

  lemma {:induction false} TracedPastMember(m: Member, inside: bool)
    ensures var p := PastMember(m, Traced(inside)); p == Traced(p.on)
    ensures PastMember(m, Traced(inside)) == PastValue(m.value, Traced(StaysInside(inside, m.key)))
    decreases m, 0
  {
    TracedKey(inside, m.key);
    TracedPast(m.value, StaysInside(inside, m.key));
  }

  lemma TracedKey(inside: bool, s: string)
    ensures Traced(inside).Past(s) == Traced(StaysInside(inside, s))
    ensures Traced(inside).Shown(s) == if inside then Squeezed(s) else s
  {
  }

  lemma {:induction false} TracedPastMembers(members: seq<Member>, inside: bool)
    ensures var p := PastMembers(members, Traced(inside)); p == Traced(p.on)
    decreases members, 0
  {
    hide PastMember, Traced;
    TracedOn(inside);
    if members != [] {
      TracedPastMember(members[0], inside);
      TracedPastMembers(members[1..], PastMember(members[0], Traced(inside)).on);
    }
  }

  lemma FedQuote(inside: bool, s: string, rest: string)
    ensures Fed(inside, Quote(s) + rest) ==
            if inside && '/' in BarePart(s) then None
            else Led(Quote(if inside then Squeezed(s) else s), Fed(StaysInside(inside, s), rest))
  {
    hide Fed, Led, QuotedAll, BarePart, Squeezed, CleanText;
    var body := QuotedAll(s) + ("\"" + rest);
    assert Quote(s) + rest == "\"" + body;
    FedToggle(inside, body);
    var shown := if inside then Squeezed(s) else s;
    if inside {
      FedBare(s, rest);
    } else {
      FedChars(s, rest);
    }
    NoneStays("\"");
    LedLed("\"", QuotedAll(shown) + "\"", Fed(StaysInside(inside, s), rest));
    assert "\"" + (QuotedAll(shown) + "\"") == Quote(shown);
  }

  const WIDE := Uniform(true)

  /** The minifier turns printed text into the traced text, unless it meets a slash from outside. */
  lemma {:induction false} FedValue(v: Value, depth: nat, inside: bool, rest: string)
    ensures Fed(inside, Render(v, depth, WIDE) + rest) ==
            if Met('/', v, inside) then None
            else Led(Render(v, depth, Traced(inside)), Fed(PastValue(v, Traced(inside)).on, rest))
    decreases v, 0
  {
    hide Fed, Led, Quote, RenderItems, RenderMembers, StaysInside, BarePart, Squeezed, IntText;
    match v
    case Null => FedBland(inside, "null", rest);
    case False => FedBland(inside, "false", rest);
    case True => FedBland(inside, "true", rest);
    case Number(n) =>
      IntIsBland(n);
      FedBland(inside, IntText(n), rest);
    case Text(s) =>
      TracedKey(inside, s);
      FedQuote(inside, s, rest);
    case Array(items) => FedArray(items, depth, inside, rest);
    case Object(members) => FedObject(members, depth, inside, rest);
  }

  lemma IntIsBland(n: int)
    ensures forall i :: 0 <= i < |IntText(n)| ==> Bland(IntText(n)[i])
  {
    DecIsDigits(Abs(n));
  }

  lemma {:induction false} FedArray(items: seq<Value>, depth: nat, inside: bool, rest: string)
    ensures var v := Array(items);
            Fed(inside, Render(v, depth, WIDE) + rest) ==
            if Met('/', v, inside) then None
            else Led(Render(v, depth, Traced(inside)), Fed(PastValue(v, Traced(inside)).on, rest))
    decreases items, 1
  {
    hide Fed, Led, RenderItems, PastItems, MetInItems, Traced;
    var l := Traced(inside);
    var wide, out := RenderItems(items, depth + 1, WIDE), RenderItems(items, depth + 1, l);
    var after := PastItems(items, l).on;
    assert Render(Array(items), depth, WIDE) + rest == "[" + (wide + ("]" + rest));
    FedBland(inside, "[", wide + ("]" + rest));
    FedItems(items, depth + 1, inside, "]" + rest);
    FedBland(after, "]", rest);
    LedLed(out, "]", Fed(after, rest));
    LedLed("[", out + "]", Fed(after, rest));
    NoneStays("[");
  }

  lemma NoneStays(a: string)
    ensures Led(a, None) == None
  {
  }

  lemma {:induction false} FedItems(items: seq<Value>, depth: nat, inside: bool, rest: string)
    ensures Fed(inside, RenderItems(items, depth, WIDE) + rest) ==
            if MetInItems('/', items, inside) then None
            else Led(RenderItems(items, depth, Traced(inside)), Fed(PastItems(items, Traced(inside)).on, rest))
    decreases items, 0
  {
    hide Fed, Led, Render, PastValue, Met, Traced, Uniform;
    if items == [] {
      assert "" + rest == rest;
      LedNothing(Fed(inside, rest));
      TracedOn(inside);
    } else {
      var next := PastValue(items[0], Traced(inside)).on;
      var comma, blank := if |items| > 1 then "," else "", if |items| > 1 then " " else "";
      var tail := RenderItems(items[1..], depth, WIDE) + rest;
      UniformReads(items[0], true);
      TracedPast(items[0], inside);
      WideItems(items, depth, rest);
      FedValue(items[0], depth, inside, comma + (blank + tail));
      FedBland(next, comma, blank + tail);
      FedBlanks(next, blank, tail);
      FedItems(items[1..], depth, next, rest);
      NoneStays(Render(items[0], depth, Traced(inside)));
      NoneStays(comma);
      NoneStays(if next then blank else "");
      TracedItems(items, depth, inside, Fed(PastItems(items, Traced(inside)).on, rest));
    }
  }

  lemma TracedOn(inside: bool)
    ensures Traced(inside).on == inside
  {
  }

  lemma WideItems(items: seq<Value>, depth: nat, rest: string)
    requires items != [] && PastValue(items[0], WIDE) == WIDE
    ensures RenderItems(items, depth, WIDE) + rest ==
            Render(items[0], depth, WIDE) +
            ((if |items| > 1 then "," else "") +
             ((if |items| > 1 then " " else "") + (RenderItems(items[1..], depth, WIDE) + rest)))
  {
    hide Render, PastValue;
    var comma := if |items| > 1 then "," else "";
    var blank := if |items| > 1 then " " else "";
    assert (if |items| > 1 then "," + Blank(WIDE, " ") else "") == comma + blank;
    Flat3(Render(items[0], depth, WIDE), comma, blank, RenderItems(items[1..], depth, WIDE), rest);
  }

  lemma Flat3(a: string, b: string, c: string, d: string, rest: string)
    ensures (a + ((b + c) + d)) + rest == a + (b + (c + (d + rest)))
  {
  }

  lemma TracedItems(items: seq<Value>, depth: nat, inside: bool, o: Option<string>)
    requires items != []
    requires PastValue(items[0], Traced(inside)) == Traced(PastValue(items[0], Traced(inside)).on)
    ensures var next := PastValue(items[0], Traced(inside)).on;
            Led(RenderItems(items, depth, Traced(inside)), o) ==
            Led(Render(items[0], depth, Traced(inside)),
                Led(if |items| > 1 then "," else "",
                    Led(if next then (if |items| > 1 then " " else "") else "",
                        Led(RenderItems(items[1..], depth, Traced(next)), o))))
  {
    hide Render, PastValue, Led;
    var next := PastValue(items[0], Traced(inside)).on;
    var first, last := Render(items[0], depth, Traced(inside)), RenderItems(items[1..], depth, Traced(next));
    var comma := if |items| > 1 then "," else "";
    var blank := if next then (if |items| > 1 then " " else "") else "";
    TracedOn(next);
    LedLed(blank, last, o);
    LedLed(comma, blank + last, o);
    LedLed(first, comma + (blank + last), o);
    assert (if |items| > 1 then "," + Blank(Traced(next), " ") else "") == comma + blank;
    assert first + (comma + (blank + last)) == first + ((comma + blank) + last);
  }

  lemma {:induction false} FedObject(members: seq<Member>, depth: nat, inside: bool, rest: string)
    ensures var v := Object(members);
            Fed(inside, Render(v, depth, WIDE) + rest) ==
            if Met('/', v, inside) then None
            else Led(Render(v, depth, Traced(inside)), Fed(PastValue(v, Traced(inside)).on, rest))
    decreases members, 1
  {
    hide Fed, Led, RenderMembers, PastMembers, MetInMembers, Traced, Tabs;
    var l := Traced(inside);
    var wide, out := RenderMembers(members, depth + 1, WIDE), RenderMembers(members, depth + 1, l);
    var after := PastMembers(members, l).on;
    var close := Tabs(depth) + ("}" + rest);
    UniformMembers(members, true);
    TracedOn(inside);
    assert Render(Object(members), depth, WIDE) + rest == "{" + ("\n" + (wide + close));
    FedBland(inside, "{", "\n" + (wide + close));
    FedBlanks(inside, "\n", wide + close);
    FedMembers(members, depth + 1, inside, close);
    FedTabs(after, depth, "}" + rest);
    FedBland(after, "}", rest);
    var o, b, t := Fed(after, rest), Blank(l, "\n"), Blank(PastMembers(members, l), Tabs(depth));
    LedLed(t, "}", o);
    LedLed(out, t + "}", o);
    LedLed(b, out + (t + "}"), o);
    LedLed("{", b + (out + (t + "}")), o);
    NoneStays("{");
    NoneStays(b);
  }

  lemma FedTabs(inside: bool, depth: nat, s: string)
    ensures Fed(inside, Tabs(depth) + s) == Led(if inside then Tabs(depth) else "", Fed(inside, s))
  {
    hide Fed, Led;
    FedBlanks(inside, Tabs(depth), s);
  }

  lemma {:induction false} FedMembers(members: seq<Member>, depth: nat, inside: bool, rest: string)
    ensures Fed(inside, RenderMembers(members, depth, WIDE) + rest) ==
            if MetInMembers('/', members, inside) then None
            else Led(RenderMembers(members, depth, Traced(inside)), Fed(PastMembers(members, Traced(inside)).on, rest))
    decreases members, 0
  {
    hide Fed, Led, Render, PastMember, MetInMember, Traced, Uniform, MemberText, RenderMembers, Tabs;
    if members == [] {
      NoMembers(members, depth, WIDE);
      NoMembers(members, depth, Traced(inside));
      assert "" + rest == rest;
      LedNothing(Fed(inside, rest));
      TracedOn(inside);
    } else {
      var m, next := members[0], PastMember(members[0], Traced(inside)).on;
      var comma := if |members| > 1 then "," else "";
      var tail := RenderMembers(members[1..], depth, WIDE) + rest;
      var after := comma + ("\n" + tail);
      UniformMember(m, true);
      TracedPastMember(m, inside);
      WideMembers(members, depth, rest);
      FedTabs(inside, depth, MemberText(m, depth, WIDE, after));
      FedMember(m, depth, inside, after);
      FedBland(next, comma, "\n" + tail);
      FedBlanks(next, "\n", tail);
      FedMembers(members[1..], depth, next, rest);
      NoneStays(if inside then Tabs(depth) else "");
      NoneStays(MemberText(m, depth, Traced(inside), ""));
      NoneStays(comma);
      NoneStays(if next then "\n" else "");
      TracedMembers(members, depth, inside, Fed(PastMembers(members, Traced(inside)).on, rest));
    }
  }

  lemma WideMembers(members: seq<Member>, depth: nat, rest: string)
    requires members != [] && PastMember(members[0], WIDE) == WIDE
    ensures RenderMembers(members, depth, WIDE) + rest ==
            Tabs(depth) + MemberText(members[0], depth, WIDE,
                                     (if |members| > 1 then "," else "") +
                                     ("\n" + (RenderMembers(members[1..], depth, WIDE) + rest)))
  {
    hide Bare, MemberText, PastMember, Tabs, RenderMembers;
    BareMembers(members, depth, WIDE);
    FirstMember(members, depth, WIDE, rest);
    assert (Tabs(depth) + Bare(members, depth, WIDE)) + rest == Tabs(depth) + (Bare(members, depth, WIDE) + rest);
  }

  /** A member's text from its key on: the key, then the value. */
  lemma {:induction false} FedMember(m: Member, depth: nat, inside: bool, rest: string)
    ensures Fed(inside, MemberText(m, depth, WIDE, rest)) ==
            if MetInMember('/', m, inside) then None
            else Led(MemberText(m, depth, Traced(inside), ""), Fed(PastMember(m, Traced(inside)).on, rest))
    decreases m, 0
  {
    hide Fed, Led, Render, Quote, PastValue, Met, Traced, StaysInside, BarePart, Squeezed, Uniform;
    var next := StaysInside(inside, m.key);
    var l, inner := Traced(inside), Traced(next);
    var value := Render(m.value, depth, WIDE) + rest;
    WideKey(m.key);
    TracedKey(inside, m.key);
    TracedOn(next);
    FedQuote(inside, m.key, ":" + ("\t" + value));
    FedBland(next, ":", "\t" + value);
    FedBlanks(next, "\t", value);
    FedValue(m.value, depth, next, rest);
    NoneStays(Quote(l.Shown(m.key)));
    NoneStays(":");
    NoneStays(if next then "\t" else "");
    var o := Fed(PastMember(m, l).on, rest);
    LedMember(Quote(l.Shown(m.key)), if next then "\t" else "", Render(m.value, depth, inner), o);
  }

  lemma WideKey(s: string)
    ensures WIDE.on && WIDE.Past(s) == WIDE && WIDE.Shown(s) == s
  {
  }

  lemma LedMember(key: string, tab: string, value: string, o: Option<string>)
    ensures Led(key, Led(":", Led(tab, Led(value, o)))) == Led(key + (":" + (tab + (value + ""))), o)
  {
    hide Led;
    assert value + "" == value;
    LedLed(tab, value, o);
    LedLed(":", tab + value, o);
    LedLed(key, ":" + (tab + value), o);
  }

  lemma TracedMembers(members: seq<Member>, depth: nat, inside: bool, o: Option<string>)
    requires members != []
    requires PastMember(members[0], Traced(inside)) == Traced(PastMember(members[0], Traced(inside)).on)
    ensures var next := PastMember(members[0], Traced(inside)).on;
            Led(RenderMembers(members, depth, Traced(inside)), o) ==
            Led(if inside then Tabs(depth) else "",
                Led(MemberText(members[0], depth, Traced(inside), ""),
                    Led(if |members| > 1 then "," else "",
                        Led(if next then "\n" else "",
                            Led(RenderMembers(members[1..], depth, Traced(next)), o)))))
  {
    hide PastMember, Led, Bare, MemberText, RenderMembers, Tabs;
    var l, next := Traced(inside), PastMember(members[0], Traced(inside)).on;
    var tabs, text := if inside then Tabs(depth) else "", MemberText(members[0], depth, l, "");
    var comma, nl := if |members| > 1 then "," else "", if next then "\n" else "";
    var last := RenderMembers(members[1..], depth, Traced(next));
    TracedOn(inside);
    TracedOn(next);
    BareMembers(members, depth, l);
    FirstMember(members, depth, l, "");
    MemberTextEnds(members[0], depth, l, comma + (nl + (last + "")));
    assert Bare(members, depth, l) + "" == Bare(members, depth, l) && last + "" == last;
    LedLed(nl, last, o);
    LedLed(comma, nl + last, o);
    LedLed(text, comma + (nl + last), o);
    LedLed(tabs, text + (comma + (nl + last)), o);
  }

  lemma MemberTextEnds(m: Member, depth: nat, l: Layout, rest: string)
    ensures MemberText(m, depth, l, rest) == MemberText(m, depth, l, "") + rest
  {
    hide Render, Quote;
    var key, tab, value := Quote(l.Shown(m.key)), Blank(l.Past(m.key), "\t"), Render(m.value, depth, l.Past(m.key));
    assert value + "" == value;
    assert tab + (value + rest) == (tab + value) + rest;
    assert ":" + ((tab + value) + rest) == (":" + (tab + value)) + rest;
    assert key + ((":" + (tab + value)) + rest) == (key + (":" + (tab + value))) + rest;
  }

  // ---------- what is read back ----------

  lemma {:induction false} SqueezedLoses(s: string)
    ensures Count(' ', Squeezed(s)) + Count(' ', BarePart(s)) == Count(' ', s)
    ensures ' ' !in BarePart(s) ==> Squeezed(s) == s
  {
    hide Count;
    if s == "" || s[0] == '\"' {
      CountNone(' ', "");
    } else {
      assert s == [s[0]] + s[1..];
      SqueezedLoses(s[1..]);
      CountJoin(' ', [s[0]], s[1..]);
      CountJoin(' ', [s[0]], BarePart(s[1..]));
      CountNone(' ', [s[0]]);
      if s[0] != ' ' { CountJoin(' ', [s[0]], Squeezed(s[1..])); }
      assert s[0] == ' ' ==> "" + Squeezed(s[1..]) == Squeezed(s[1..]);
    }
  }

  lemma StringTraced(s: string, inside: bool)
    ensures var shown := Traced(inside).Shown(s);
            && Count(' ', CleanText(shown)) <= Count(' ', s)
            && (inside && ' ' in BarePart(s) ==> Count(' ', CleanText(shown)) < Count(' ', s))
            && (!(inside && ' ' in BarePart(s)) ==> shown == s)
  {
    hide Count, CleanText;
    SqueezedLoses(s);
    CountNone(' ', BarePart(s));
    CleanTextKeeps(' ', Traced(inside).Shown(s));
  }

  /** Reading the traced text back gives the tree, less the spaces met. */
  lemma {:induction false} ReadTraced(v: Value, inside: bool)
    ensures var r := ReadBack(v, Traced(inside));
            && CountIn(' ', r) <= CountIn(' ', v)
            && (Met(' ', v, inside) ==> CountIn(' ', r) < CountIn(' ', v))
            && (!Met(' ', v, inside) ==> r == Clean(v))
    decreases v, 0
  {
    hide Count, CleanText, Traced, BarePart;
    match v
    case Text(s) => StringTraced(s, inside);
    case Array(items) => ReadTracedItems(items, inside);
    case Object(members) => ReadTracedMembers(members, inside);
    case _ =>
  }

  lemma {:induction false} ReadTracedItems(items: seq<Value>, inside: bool)
    ensures var r := ReadItems(items, Traced(inside));
            && CountInItems(' ', r) <= CountInItems(' ', items)
            && (MetInItems(' ', items, inside) ==> CountInItems(' ', r) < CountInItems(' ', items))
            && (!MetInItems(' ', items, inside) ==> r == CleanItems(items))
    decreases items, 0
  {
    hide CountIn, Met, ReadBack, Clean, Traced, PastValue;
    if items != [] {
      var next := PastValue(items[0], Traced(inside)).on;
      TracedPast(items[0], inside);
      ReadTraced(items[0], inside);
      ReadTracedItems(items[1..], next);
      var r := ReadItems(items, Traced(inside));
      assert r[0] == ReadBack(items[0], Traced(inside)) && r[1..] == ReadItems(items[1..], Traced(next));
    }
  }

  lemma {:induction false} ReadTracedMember(m: Member, inside: bool)
    ensures var r := ReadMember(m, Traced(inside));
            && CountInMember(' ', r) <= CountInMember(' ', m)
            && (MetInMember(' ', m, inside) ==> CountInMember(' ', r) < CountInMember(' ', m))
            && (!MetInMember(' ', m, inside) ==> r == CleanMember(m))
    decreases m, 0
  {
    hide Count, CountIn, Met, ReadBack, Clean, CleanText, Traced, StaysInside, BarePart;
    StringTraced(m.key, inside);
    TracedKey(inside, m.key);
    ReadTraced(m.value, StaysInside(inside, m.key));
  }

  lemma {:induction false} ReadTracedMembers(members: seq<Member>, inside: bool)
    ensures var r := ReadMembers(members, Traced(inside));
            && CountInMembers(' ', r) <= CountInMembers(' ', members)
            && (MetInMembers(' ', members, inside) ==> CountInMembers(' ', r) < CountInMembers(' ', members))
            && (!MetInMembers(' ', members, inside) ==> r == CleanMembers(members))
    decreases members, 0
  {
    hide CountInMember, MetInMember, ReadMember, CleanMember, Traced, PastMember;
    if members != [] {
      var next := PastMember(members[0], Traced(inside)).on;
      TracedPastMember(members[0], inside);
      ReadTracedMember(members[0], inside);
      ReadTracedMembers(members[1..], next);
      var r := ReadMembers(members, Traced(inside));
      assert r[0] == ReadMember(members[0], Traced(inside)) && r[1..] == ReadMembers(members[1..], Traced(next));
    }
  }

  // ---------- the exact condition ----------

  lemma FedPrinted(v: Value)
    requires Printable(v)
    ensures Printed(v, 0) == Some(Render(v, 0, WIDE))
    ensures Fed(false, Render(v, 0, WIDE)) == if Met('/', v, false) then None else Some(Render(v, 0, Traced(false)))
  {
    hide Render, Printed, Fed, Met, Traced, PastValue;
    PrintsRender(v, 0);
    FedValue(v, 0, false, "");
    assert Render(v, 0, WIDE) + "" == Render(v, 0, WIDE);
    assert Render(v, 0, Traced(false)) + "" == Render(v, 0, Traced(false));
    FedNothing(PastValue(v, Traced(false)).on);
  }

  lemma FedNothing(inside: bool)
    ensures Fed(inside, "") == Some("")
  {
  }

  /** As long as no slash is met, the minified text reads as the tree less the spaces met. */
  lemma MinifiedReads(v: Value)
    requires InRange(v) && Printable(v) && !Met('/', v, false)
    ensures Printed(v, 0).Some?
    ensures Parsed(Minified(Printed(v, 0).value)) ==
            if Fits(v) then Done(ReadBack(v, Traced(false)), "") else Unspecified
  {
    hide Render, Printed, Parsed, ReadBack, Fits, InRange, Printable, Met, Fed, Minified;
    FedPrinted(v);
    FedIsFeed(false, Render(v, 0, WIDE));
    ParseRendered(v, Traced(false));
  }

  /** A slash that is met is lost, and with it the tree. */
  lemma MetSlashIsLost(v: Value)
    requires Printable(v) && Met('/', v, false)
    ensures Printed(v, 0).Some? && Parsed(Minified(Printed(v, 0).value)) != Done(Clean(v), "")
  {
    hide Render, Printed, ParsedValue, Skip, Clean, Printable, Met, Fed, Minified, Count, CountIn;
    var text := Render(v, 0, WIDE);
    FedPrinted(v);
    FedIsFeed(false, text);
    RenderCounts('/', v, 0, true);
    CleanKeeps('/', v);
    SkipKeeps('/', Minified(text));
    if Skip(Minified(text)).Some? { ValueKeeps('/', Skip(Minified(text)).value); }
  }

  /** While the minifier is on the wrong side of the quotes, no space and no slash comes up. It gets there by
      a string that ends in a backslash, and stays until a string that holds a quote and does not. */
  predicate Unharmed(v: Value) {
    !Met(' ', v, false) && !Met('/', v, false)
  }

  /** The minified text of a tree of 32-bit numbers still reads as the tree exactly when its numbers read
      back at all and no space and no slash is met from the wrong side. */
  lemma MinifyKeepsMeaningIff(v: Value)
    requires InRange(v) && Printable(v)
    ensures Printed(v, 0).Some?
    ensures Parsed(Minified(Printed(v, 0).value)) == Done(Clean(v), "") <==> Fits(v) && Unharmed(v)
  {
    hide Printed, Parsed, Clean, ReadBack, Fits, InRange, Printable, Met, Minified, CountIn;
    if Met('/', v, false) {
      MetSlashIsLost(v);
    } else {
      MinifiedReads(v);
      ReadTraced(v, false);
      CleanKeeps(' ', v);
    }
  }

  // ---------- trees without trailing backslashes ----------

  /** No string or key ends in a backslash. */
  predicate Safe(v: Value)
    decreases v
  {
    match v
    case Text(s) => !EndsInBackslash(CleanText(s))
    case Array(items) => forall i :: 0 <= i < |items| ==> Safe(items[i])
    case Object(members) =>
      forall i :: 0 <= i < |members| ==> !EndsInBackslash(CleanText(members[i].key)) && Safe(members[i].value)
    case _ => true
  }

  const NARROW := Uniform(false)

  /** Then the minifier is never on the wrong side, and the traced text is the compact one. */
  lemma {:induction false} SafeIsCompact(v: Value, depth: nat)
    requires Safe(v)
    ensures PastValue(v, Traced(false)) == Traced(false)
    ensures Render(v, depth, Traced(false)) == Render(v, depth, NARROW)
    ensures forall c :: !Met(c, v, false)
    decreases v, 0
  {
    hide Quote, BarePart, Squeezed;
    match v
    case Array(items) => SafeItems(items, depth + 1);
    case Object(members) =>
      SafeMembers(members, depth + 1);
      UniformMembers(members, false);
    case _ =>
  }

  lemma {:induction false} SafeItems(items: seq<Value>, depth: nat)
    requires forall i :: 0 <= i < |items| ==> Safe(items[i])
    ensures PastItems(items, Traced(false)) == Traced(false)
    ensures RenderItems(items, depth, Traced(false)) == RenderItems(items, depth, NARROW)
    ensures forall c :: !MetInItems(c, items, false)
    decreases items, 0
  {
    hide Render, PastValue, Met, Safe;
    if items != [] {
      SafeIsCompact(items[0], depth);
      SafeItems(items[1..], depth);
      UniformReads(items[0], false);
    }
  }

  lemma {:induction false} SafeMember(m: Member, depth: nat, rest: string)
    requires !EndsInBackslash(CleanText(m.key)) && Safe(m.value)
    ensures PastMember(m, Traced(false)) == Traced(false)
    ensures MemberText(m, depth, Traced(false), rest) == MemberText(m, depth, NARROW, rest)
    ensures forall c :: !MetInMember(c, m, false)
    decreases m, 0
  {
    hide Quote, Render, PastValue, Met, Safe, BarePart, Squeezed, CleanText;
    SafeIsCompact(m.value, depth);
    UniformReads(m.value, false);
    assert Traced(false).Past(m.key) == Traced(false);
    assert NARROW.Past(m.key) == NARROW;
  }

  lemma {:induction false} SafeMembers(members: seq<Member>, depth: nat)
    requires forall i :: 0 <= i < |members| ==> !EndsInBackslash(CleanText(members[i].key)) && Safe(members[i].value)
    ensures PastMembers(members, Traced(false)) == Traced(false)
    ensures RenderMembers(members, depth, Traced(false)) == RenderMembers(members, depth, NARROW)
    ensures forall c :: !MetInMembers(c, members, false)
    decreases members, 0
  {
    hide Render, RenderMembers, PastMember, MetInMember, MemberText, Bare, Safe, EndsInBackslash;
    if members == [] {
      NoMembers(members, depth, Traced(false));
      NoMembers(members, depth, NARROW);
    } else {
      UniformMember(members[0], false);
      SafeMembers(members[1..], depth);
      var rest := RenderMembers(members[1..], depth, NARROW);
      SafeMember(members[0], depth, (if |members| > 1 then "," else "") + ("" + (rest + "")));
      BareMembers(members, depth, Traced(false));
      BareMembers(members, depth, NARROW);
      FirstMember(members, depth, Traced(false), "");
      FirstMember(members, depth, NARROW, "");
      assert Bare(members, depth, Traced(false)) + "" == Bare(members, depth, Traced(false));
      assert Bare(members, depth, NARROW) + "" == Bare(members, depth, NARROW);
    }
  }

  /** Minifying printed text leaves exactly the tree's compact text. */
  lemma MinifiedIsCompact(v: Value)
    requires Printable(v) && Safe(v)
    ensures Printed(v, 0).Some? && Minified(Printed(v, 0).value) == Render(v, 0, NARROW)
  {
    hide Render, Printed, Safe, Printable, Met, Fed, Minified, Traced;
    SafeIsCompact(v, 0);
    FedPrinted(v);
    FedIsFeed(false, Render(v, 0, WIDE));
  }

  /** Minifying such text changes nothing, not even an overflow. */
  lemma MinifyKeepsMeaning(v: Value)
    requires InRange(v) && Printable(v) && Safe(v)
    ensures Printed(v, 0).Some?
    ensures Parsed(Minified(Printed(v, 0).value)) == Parsed(Printed(v, 0).value)
    ensures Fits(v) ==> Parsed(Minified(Printed(v, 0).value)) == Done(Clean(v), "")
  {
    hide Minified, Render, Printed, Parsed, Clean, Fits, InRange, Safe;
    PrintsRender(v, 0);
    MinifiedIsCompact(v);
    ParsePrintedInRange(v, true);
    ParsePrintedInRange(v, false);
  }

  // ---------- a tree that is harmed and one that is not ----------

  function Pair(t: string): Value {
    Array([Text("\\"), Text(t)])
  }

  /** After a string that ends in a backslash the next one loses its leading space. */
  lemma TrailingBackslashMisread()
    ensures Printed(Pair(" a"), 0).Some?
    ensures Parsed(Minified(Printed(Pair(" a"), 0).value)) == Done(Pair("a"), "")
  {
    PairTraced(" a", "a");
    hide Met, ReadBack, Parsed, Printed, Minified;
    MinifiedReads(Pair(" a"));
  }

  lemma PairTraced(t: string, r: string)
    requires t == " a" && r == "a"
    ensures InRange(Pair(t)) && Printable(Pair(t)) && Fits(Pair(t)) && !Met('/', Pair(t), false)
    ensures ReadBack(Pair(t), Traced(false)) == Pair(r)
  {
    var items := Pair(t).items;
    var first, rest := items[0], items[1..];
    assert rest == [Text(t)] && rest[1..] == [];
    LoneBackslash();
    BareText(t, r);
    assert PastValue(first, Traced(false)) == Traced(true);
    hide CleanText, BarePart, Squeezed, Traced;
    TracedKey(true, t);
    TracedKey(false, "\\");
    assert !MetInItems('/', rest, true) by { assert !MetInItems('/', rest[1..], PastValue(rest[0], Traced(true)).on); }
    assert ReadItems(rest, Traced(true)) == [Text(r)] by {
      assert ReadItems(rest[1..], PastValue(rest[0], Traced(true))) == [];
    }
    TracedOn(true);
    TracedOn(false);
    assert !MetInItems('/', items, false) by { assert !Met('/', first, false); }
    assert '%' !in "\\" && '%' !in t;
    assert forall i :: 0 <= i < |items| ==> NoPercent(items[i]);
    assert ReadItems(items, Traced(false)) == [Text("\\")] + [Text(r)];
  }

  lemma LoneBackslash()
    ensures CleanText("\\") == "\\" && EndsInBackslash("\\")
  {
    BackslashKept();
    assert "\\"[1..] == "";
  }

  lemma BareText(t: string, r: string)
    requires t == " a" && r == "a"
    ensures BarePart(t) == t && Squeezed(t) == r && CleanText(r) == r
  {
    assert t[1..] == r && r[1..] == "";
    assert BarePart(r) == r && Squeezed(r) == r;
  }

  /** A trailing backslash alone does no harm. */
  lemma LoneBackslashIsUnharmed()
    ensures Unharmed(Text("\\")) && !Safe(Text("\\"))
  {
    assert "\\"[1..] == "" && CleanText("\\") == "\\" by { BackslashKept(); }
  }
}
