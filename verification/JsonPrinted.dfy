/** What is printed, wide or compact, is a JSON text of the tree, signs and all. */
module JsonPrinted {
  import opened Strings
  import opened Json
  import opened JsonRoundTrip
  import opened JsonTexts

  /** The characters a string can hold in print: all but the control characters without a short escape. */
  predicate HasText(c: char) {
    c as int > 31 || c as int == 8 || c as int == 9 || c as int == 10 || c as int == 12 || c as int == 13
  }

  ghost predicate AllHaveText(s: string) {
    forall i :: 0 <= i < |s| ==> HasText(s[i])
  }

  ghost predicate Writable(v: Value)
    decreases v
  {
    match v
    case Text(s) => AllHaveText(s)
    case Array(items) => forall i :: 0 <= i < |items| ==> Writable(items[i])
    case Object(members) => forall i :: 0 <= i < |members| ==> WritableMember(members[i])
    case _ => true
  }

  ghost predicate WritableMember(m: Member)
    decreases m
  {
    AllHaveText(m.key) && Writable(m.value)
  }

  /** The greatest absolute value of the numbers in a tree is at most `max`. */
  ghost predicate Within(v: Value, max: nat)
    decreases v
  {
    match v
    case Number(n) => -(max as int) <= n <= max
    case Array(items) => forall i :: 0 <= i < |items| ==> Within(items[i], max)
    case Object(members) => forall i :: 0 <= i < |members| ==> Within(members[i].value, max)
    case _ => true
  }

  /** Exactly the characters printing keeps. */
  lemma KeptIff(c: char)
    ensures Kept(c) <==> HasText(c)
  {
  }

  function PieceOf(c: char): Piece {
    if c == '\"' || c == '\\' then Escape(c)
    else if c as int == 8 then Escape('b')
    else if c as int == 9 then Escape('t')
    else if c as int == 10 then Escape('n')
    else if c as int == 12 then Escape('f')
    else if c as int == 13 then Escape('r')
    else Bare(c)
  }

  function PiecesOf(s: string): (ps: seq<Piece>)
    ensures |ps| == |s| && forall i :: 0 <= i < |s| ==> ps[i] == PieceOf(s[i])
  {
    seq(|s|, i requires 0 <= i < |s| => PieceOf(s[i]))
  }

  lemma OneCharIsPiece(c: char)
    requires HasText(c)
    ensures ValidPiece(PieceOf(c)) && Quoted(c) == Spelled([PieceOf(c)]) && Meant([PieceOf(c)]) == [c]
  {
    OnePiece(PieceOf(c));
  }

  lemma {:induction false} StringIsText(s: string)
    requires AllHaveText(s)
    ensures ValidPieces(PiecesOf(s)) && QuotedAll(s) == Spelled(PiecesOf(s)) && Meant(PiecesOf(s)) == s
    decreases |s|
  {
    hide Quoted, PieceOf, Meant, ValidPiece, HasText;
    var ps := PiecesOf(s);
    if s == "" {
      NothingMeant();
    } else {
      OneCharIsPiece(s[0]);
      StringIsText(s[1..]);
      assert ps[1..] == PiecesOf(s[1..]);
      FirstPiece(ps);
      assert s == [s[0]] + s[1..];
      assert forall i :: 0 < i < |ps| ==> ps[i] == ps[1..][i - 1];
    }
  }

  lemma NothingMeant()
    ensures Meant([]) == "" && Spelled([]) == "" && QuotedAll("") == ""
  {
  }

  // ---------- the text of a tree ----------

  function Gap(on: bool, w: string): string { if on then w else "" }

  function SourceOf(v: Value, depth: nat, on: bool): Source
    decreases v, 0
  {
    match v
    case Null => NullText
    case False => FalseText
    case True => TrueText
    case Number(n) => NumberText(n < 0, Abs(n))
    case Text(s) => StringText(PiecesOf(s))
    case Array(items) => ArrayText("", ElementsOf(items, depth + 1, on, ""))
    case Object(members) =>
      ObjectText(Gap(on, "\n" + Tabs(depth)), PairsOf(members, depth + 1, on, Gap(on, "\n" + Tabs(depth))))
  }

  function ElementsOf(items: seq<Value>, depth: nat, on: bool, before: string): (es: seq<Element>)
    ensures |es| == |items|
    decreases items, 0
  {
    if items == [] then []
    else [Element(before, SourceOf(items[0], depth, on), "")] + ElementsOf(items[1..], depth, on, Gap(on, " "))
  }

  /** `end` is what stands before the closing brace. */
  function PairsOf(members: seq<Member>, depth: nat, on: bool, end: string): (ps: seq<Pair>)
    ensures |ps| == |members|
    decreases members, 0
  {
    if members == [] then []
    else
      [Pair(Gap(on, "\n" + Tabs(depth)), PiecesOf(members[0].key), "",
            Element(Gap(on, "\t"), SourceOf(members[0].value, depth, on), if |members| > 1 then "" else end))]
      + PairsOf(members[1..], depth, on, end)
  }

  lemma {:induction false} SourceMeaning(v: Value, depth: nat, on: bool, max: nat)
    requires Writable(v) && Within(v, max)
    ensures ValidSource(SourceOf(v, depth, on), max) && Tree(SourceOf(v, depth, on), true) == v
    decreases v, 0
  {
    match v
    case Text(s) => StringIsText(s);
    case Array(items) => ElementsMeaning(items, depth + 1, on, "", max);
    case Object(members) => PairsMeaning(members, depth + 1, on, Gap(on, "\n" + Tabs(depth)), max);
    case _ =>
  }

  lemma {:induction false} ElementsMeaning(items: seq<Value>, depth: nat, on: bool, before: string, max: nat)
    requires Blanks(before) && forall i :: 0 <= i < |items| ==> Writable(items[i]) && Within(items[i], max)
    ensures var es := ElementsOf(items, depth, on, before);
            (forall i :: 0 <= i < |es| ==> ValidElement(es[i], max)) && Trees(es, true) == items
    decreases items, 0
  {
    hide Writable, Within, ValidSource, Tree, SourceOf;
    if items != [] {
      SourceMeaning(items[0], depth, on, max);
      ElementsMeaning(items[1..], depth, on, Gap(on, " "), max);
      var es := ElementsOf(items, depth, on, before);
      assert es[1..] == ElementsOf(items[1..], depth, on, Gap(on, " "));
      assert forall i :: 0 < i < |es| ==> es[i] == es[1..][i - 1];
    }
  }

  lemma {:induction false} PairsMeaning(members: seq<Member>, depth: nat, on: bool, end: string, max: nat)
    requires Blanks(end)
    requires forall i :: 0 <= i < |members| ==> WritableMember(members[i]) && Within(members[i].value, max)
    ensures var ps := PairsOf(members, depth, on, end);
            (forall i :: 0 <= i < |ps| ==> ValidPair(ps[i], max)) && Members(ps, true) == members
    decreases members, 0
  {
    hide Writable, Within, ValidSource, Tree, SourceOf, PiecesOf, Meant, ValidPieces;
    if members != [] {
      assert WritableMember(members[0]);
      StringIsText(members[0].key);
      SourceMeaning(members[0].value, depth, on, max);
      PairsMeaning(members[1..], depth, on, end, max);
      var ps := PairsOf(members, depth, on, end);
      assert ps[1..] == PairsOf(members[1..], depth, on, end);
      assert forall i :: 0 < i < |ps| ==> ps[i] == ps[1..][i - 1];
      assert members == [Member(members[0].key, members[0].value)] + members[1..];
    }
  }

  lemma UniformShows(on: bool, s: string)
    ensures Uniform(on).on == on && Uniform(on).Shown(s) == s && Uniform(on).Past(s) == Uniform(on)
  {
  }

  lemma TextRenders(s: string)
    requires AllHaveText(s)
    ensures Quote(s) == InQuotes(PiecesOf(s))
  {
    StringIsText(s);
  }

  lemma {:induction false} RendersSource(v: Value, depth: nat, on: bool)
    requires Writable(v)
    ensures Render(v, depth, Uniform(on)) == Written(SourceOf(v, depth, on))
    decreases v, 0
  {
    hide Uniform, RenderItems, RenderMembers, WrittenElements, WrittenPairs, Tabs, Quote, InQuotes, PiecesOf;
    match v
    case Text(s) =>
      UniformShows(on, s);
      TextRenders(s);
    case Array(items) => ArrayRenders(items, depth, on);
    case Object(members) => ObjectRenders(members, depth, on);
    case _ =>
  }

  lemma {:induction false} ArrayRenders(items: seq<Value>, depth: nat, on: bool)
    requires forall i :: 0 <= i < |items| ==> Writable(items[i])
    ensures Render(Array(items), depth, Uniform(on)) == Written(SourceOf(Array(items), depth, on))
    decreases items, 1
  {
    hide Writable;
    ItemsRender(items, depth + 1, on, "");
  }

  lemma {:induction false} ItemsRender(items: seq<Value>, depth: nat, on: bool, before: string)
    requires forall i :: 0 <= i < |items| ==> Writable(items[i])
    ensures WrittenElements(ElementsOf(items, depth, on, before)) ==
            (if items == [] then "" else before) + RenderItems(items, depth, Uniform(on))
    decreases items, 0
  {
    hide Writable, Written, SourceOf, Render, RenderItems, WrittenElements, Uniform, Gap;
    if items == [] {
      NoItems(depth, on);
    } else {
      var gap, es := Gap(on, " "), ElementsOf(items, depth, on, before);
      var text, rest := Render(items[0], depth, Uniform(on)), RenderItems(items[1..], depth, Uniform(on));
      RendersSource(items[0], depth, on);
      FirstItemText(items, depth, on);
      ItemsRender(items[1..], depth, on, gap);
      assert es[1..] == ElementsOf(items[1..], depth, on, gap);
      FirstElementText(es);
      if |items| > 1 {
        CommaItem(before, text, gap, rest);
      } else {
        LastOne(before, text);
        NoItems(depth, on);
        assert items[1..] == [];
      }
    }
  }

  lemma NoItems(depth: nat, on: bool)
    ensures WrittenElements([]) == "" && RenderItems([], depth, Uniform(on)) == ""
  {
  }

  lemma FirstItemText(items: seq<Value>, depth: nat, on: bool)
    requires items != []
    ensures RenderItems(items, depth, Uniform(on)) ==
            Render(items[0], depth, Uniform(on)) +
            ((if |items| > 1 then "," + Gap(on, " ") else "") + RenderItems(items[1..], depth, Uniform(on)))
  {
    hide Render, PastValue, Uniform;
    UniformReads(items[0], on);
    UniformShows(on, "");
  }

  lemma FirstElementText(es: seq<Element>)
    requires es != []
    ensures WrittenElements(es) ==
            (es[0].before + Written(es[0].source) + es[0].after) + (if |es| > 1 then "," else "") +
            WrittenElements(es[1..])
  {
    hide Written;
  }

  lemma CommaItem(before: string, text: string, gap: string, rest: string)
    ensures (before + text + "") + "," + (gap + rest) == before + (text + (("," + gap) + rest))
  {
  }

  lemma LastOne(before: string, text: string)
    ensures (before + text + "") + "" + "" == before + (text + ("" + ""))
  {
  }

  lemma {:induction false} ObjectRenders(members: seq<Member>, depth: nat, on: bool)
    requires forall i :: 0 <= i < |members| ==> WritableMember(members[i])
    ensures Render(Object(members), depth, Uniform(on)) == Written(SourceOf(Object(members), depth, on))
    decreases members, 1
  {
    hide WritableMember, RenderMembers, WrittenPairs, PairsOf, PastMembers, Tabs, Uniform;
    UniformMembers(members, on);
    UniformShows(on, "");
    if members == [] {
      NoMembers(members, depth + 1, Uniform(on));
    } else {
      MembersRender(members, depth, on);
    }
  }

  lemma {:induction false} MembersRender(members: seq<Member>, depth: nat, on: bool)
    requires members != [] && forall i :: 0 <= i < |members| ==> WritableMember(members[i])
    ensures WrittenPairs(PairsOf(members, depth + 1, on, Gap(on, "\n" + Tabs(depth)))) ==
            Gap(on, "\n") + (RenderMembers(members, depth + 1, Uniform(on)) + Gap(on, Tabs(depth)))
    decreases members, 0
  {
    hide Writable, Written, SourceOf, Render, RenderMembers, Uniform, Tabs, Quote, InQuotes, PiecesOf, HeadText;
    hide WrittenPair, Gap;
    var m, end := members[0], Gap(on, "\n" + Tabs(depth));
    var ps := PairsOf(members, depth + 1, on, end);
    assert WritableMember(m);
    UniformMember(m, on);
    UniformShows(on, m.key);
    TextRenders(m.key);
    RendersSource(m.value, depth + 1, on);
    assert ps[1..] == PairsOf(members[1..], depth + 1, on, end);
    var rest := RenderMembers(members[1..], depth + 1, Uniform(on));
    var head, n, tabs := HeadText(m, depth + 1, on), Gap(on, "\n"), Gap(on, Tabs(depth));
    FirstMemberText(members, depth + 1, on);
    FirstPairText(m, depth + 1, on, ps[0].element.after);
    if |members| > 1 {
      MembersRender(members[1..], depth, on);
      CommaText(head, n, rest, tabs, WrittenPairs(ps[1..]));
    } else {
      NoMembers(members[1..], depth + 1, Uniform(on));
      assert ps[1..] == [] && WrittenPairs(ps[1..]) == "";
      assert end == n + tabs by { GapJoins(on, "\n", Tabs(depth)); }
      EndText(head, n, tabs);
    }
  }

  lemma GapJoins(on: bool, a: string, b: string)
    ensures Gap(on, a + b) == Gap(on, a) + Gap(on, b)
  {
  }

  lemma CommaText(head: string, n: string, rest: string, tabs: string, more: string)
    requires more == n + (rest + tabs)
    ensures (n + head + "") + "," + more == n + ((head + ("," + (n + rest))) + tabs)
  {
  }

  lemma EndText(head: string, n: string, tabs: string)
    ensures (n + head + (n + tabs)) + "" + "" == n + ((head + ("" + (n + ""))) + tabs)
  {
  }

  /** A printed member up to its comma. */
  function HeadText(m: Member, depth: nat, on: bool): string {
    Gap(on, Tabs(depth)) + (Quote(m.key) + (":" + (Gap(on, "\t") + Render(m.value, depth, Uniform(on)))))
  }

  lemma FirstMemberText(members: seq<Member>, depth: nat, on: bool)
    requires members != []
    ensures RenderMembers(members, depth, Uniform(on)) ==
            HeadText(members[0], depth, on) +
            ((if |members| > 1 then "," else "") +
             (Gap(on, "\n") + RenderMembers(members[1..], depth, Uniform(on))))
  {
    hide Render, PastMember, Uniform, Tabs, Quote;
    UniformMember(members[0], on);
    UniformShows(on, members[0].key);
  }

  lemma FirstPairText(m: Member, depth: nat, on: bool, after: string)
    requires Quote(m.key) == InQuotes(PiecesOf(m.key))
    requires Render(m.value, depth, Uniform(on)) == Written(SourceOf(m.value, depth, on))
    ensures WrittenPair(Pair(Gap(on, "\n" + Tabs(depth)), PiecesOf(m.key), "",
                             Element(Gap(on, "\t"), SourceOf(m.value, depth, on), after))) ==
            Gap(on, "\n") + HeadText(m, depth, on) + after
  {
    hide Written, SourceOf, Render, Uniform, Tabs, Quote, InQuotes, PiecesOf;
  }

  /** What is printed of a tree is a JSON text, and the tree it stands for is the tree itself. */
  lemma PrintedIsJson(v: Value, depth: nat, on: bool, max: nat) returns (s: Source)
    requires Writable(v) && Within(v, max)
    ensures ValidSource(s, max) && Written(s) == Render(v, depth, Uniform(on)) && Tree(s, true) == v
  {
    s := SourceOf(v, depth, on);
    SourceMeaning(v, depth, on, max);
    RendersSource(v, depth, on);
  }
}
