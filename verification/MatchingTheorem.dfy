/** When the staged match and the plain scan of all features agree. */
module MatchingTheorem {
  import opened Text
  import opened Features
  import opened AcSpec
  import opened AhoCorasick
  import R = Regex
  import opened RegexSyntax
  import opened RegexEdges
  import opened RegexTheorem
  import opened Matching

  predicate IsMeta(c: char) {
    c == '\\' || c == '*' || c == '+' || c == '?' || c == '['
  }

  /** Nothing with a meaning of its own but perhaps dots: `^` counts only in front and `$` only at the end. */
  ghost predicate Dotted(s: string) {
    (forall i :: 0 <= i < |s| ==> !IsMeta(s[i])) && (s != "" ==> s[0] != '^' && s[|s| - 1] != '$')
  }

  ghost predicate Literal(s: string) {
    Dotted(s) && forall i :: 0 <= i < |s| ==> s[i] != '.'
  }

  function DottedItems(s: string): seq<Item> {
    if s == "" then []
    else [Item(if s[0] == '.' then Any else Lit(s[0], false), Once)] + DottedItems(s[1..])
  }

  /** Equal but for the dots of the pattern. */
  ghost predicate LooksLike(s: string, v: string) {
    |v| == |s| && forall i :: 0 <= i < |s| ==> s[i] == '.' || s[i] == v[i]
  }

  lemma {:induction false} DottedRendersItself(s: string)
    requires forall i :: 0 <= i < |s| ==> !IsMeta(s[i])
    ensures RenderItems(DottedItems(s)) == s
    ensures |DottedItems(s)| == |s|
    ensures forall i :: 0 <= i < |s| ==> DottedItems(s)[i] == Item(if s[i] == '.' then Any else Lit(s[i], false), Once)
    ensures forall item :: item in DottedItems(s) ==> ValidAtom(item.atom)
  {
    if s != "" {
      hide ValidAtom, RenderAtom, RenderItems;
      DottedRendersItself(s[1..]);
      var a := if s[0] == '.' then Any else Lit(s[0], false);
      DottedAtom(s[0]);
      var items := DottedItems(s);
      assert items[0] == Item(a, Once) && items[1..] == DottedItems(s[1..]);
      FirstItem(items);
      assert s == [s[0]] + s[1..];
      assert forall i :: 0 < i < |s| ==> s[i] == s[1..][i - 1] && items[i] == items[1..][i - 1];
    }
  }

  lemma DottedAtom(c: char)
    requires !IsMeta(c)
    ensures var a := if c == '.' then Any else Lit(c, false); ValidAtom(a) && RenderAtom(a) == [c]
  {
  }

  lemma FirstItem(items: seq<Item>)
    requires items != [] && items[0].repeat == Once
    ensures RenderItems(items) == RenderAtom(items[0].atom) + RenderItems(items[1..])
  {
    hide RenderAtom;
    assert RenderAtom(items[0].atom) + "" == RenderAtom(items[0].atom);
  }

  lemma {:induction false} DottedLanguage(s: string, v: string)
    ensures InItems(DottedItems(s), v) <==> LooksLike(s, v)
  {
    if s != "" {
      var items := DottedItems(s);
      assert items[1..] == DottedItems(s[1..]);
      forall k | 0 <= k <= |v| && InItem(items[0], v[..k])
        ensures k == 1 && (s[0] == '.' || s[0] == v[0])
        ensures InItems(items[1..], v[k..]) <==> LooksLike(s[1..], v[1..])
      {
        assert AtomHas(items[0].atom, v[..k][0]);
        DottedLanguage(s[1..], v[k..]);
      }
      if LooksLike(s, v) {
        assert v[..1] == [v[0]] && InItem(items[0], v[..1]);
        assert LooksLike(s[1..], v[1..]);
      }
      if InItems(items, v) {
        assert s[1..] + [] == s[1..];
        forall i | 0 <= i < |s| ensures s[i] == '.' || s[i] == v[i] {
          if i > 0 { assert s[i] == s[1..][i - 1] && v[i] == v[1..][i - 1]; }
        }
      }
    }
  }

  /** Some stretch of the text equals the pattern but for its dots. */
  ghost predicate LooksLikePart(s: string, text: string) {
    exists i, j :: 0 <= i <= j <= |text| && LooksLike(s, text[i..j])
  }

  lemma DottedHits(s: string, text: string)
    requires Dotted(s) && s != ""
    ensures Lex(s) != Undefined
    ensures RegexpHits(s, text) <==> LooksLikePart(s, text)
  {
    hide Lex, DottedItems, RegexpResult, Render, ValidPattern, Denotes, LooksLikePart, Dotted;
    DottedPattern(s);
    RegexpDecidesLanguage(Pattern(false, DottedItems(s), false), text);
    DottedDenotes(s, text);
  }

  lemma DottedDenotes(s: string, text: string)
    ensures Denotes(Pattern(false, DottedItems(s), false), text) <==> LooksLikePart(s, text)
  {
    hide InItems, LooksLike, DottedItems;
    forall i, j | 0 <= i <= j <= |text| ensures InItems(DottedItems(s), text[i..j]) <==> LooksLike(s, text[i..j]) {
      DottedLanguage(s, text[i..j]);
    }
  }

  lemma DottedPattern(s: string)
    requires Dotted(s) && s != ""
    ensures ValidPattern(Pattern(false, DottedItems(s), false))
    ensures Render(Pattern(false, DottedItems(s), false)) == s
  {
    hide ValidAtom, RenderItems, DottedItems;
    DottedRendersItself(s);
  }

  lemma SuffixWindow(s: string, text: string, e: nat)
    requires e <= |text| && |s| <= e
    ensures IsSuffix(s, text[..e]) <==> text[e - |s|..e] == s
  {
    assert text[..e][e - |s|..] == text[e - |s|..e];
  }

  lemma SuffixFits(s: string, t: string)
    requires IsSuffix(s, t)
    ensures |s| <= |t|
  {
  }

  lemma SelfLooksLike(s: string, v: string)
    ensures s == v ==> LooksLike(s, v)
    ensures Literal(s) && LooksLike(s, v) ==> s == v
  {
  }

  lemma OccursLooksLike(s: string, text: string)
    ensures Occurs(s, text) ==> LooksLikePart(s, text)
    ensures Literal(s) && LooksLikePart(s, text) ==> Occurs(s, text)
  {
    hide LooksLike, Literal, IsSuffix;
    if Occurs(s, text) {
      var e :| 0 <= e <= |text| && IsSuffix(s, text[..e]);
      SuffixFits(s, text[..e]);
      SuffixWindow(s, text, e);
      SelfLooksLike(s, text[e - |s|..e]);
    }
    if Literal(s) && LooksLikePart(s, text) {
      var i, j :| 0 <= i <= j <= |text| && LooksLike(s, text[i..j]);
      SelfLooksLike(s, text[i..j]);
      SuffixWindow(s, text, j);
    }
  }

  /** The features the automaton holds have host texts whose only metacharacters are dots. */
  ghost predicate DottedHosts(fs: seq<Feature>) {
    forall f :: f in fs && f.hostUrl != "" && !IsRegexHost(f.hostUrl) ==> Dotted(f.hostUrl)
  }

  ghost predicate LiteralHosts(fs: seq<Feature>) {
    forall f :: f in fs && f.hostUrl != "" && !IsRegexHost(f.hostUrl) ==> Literal(f.hostUrl)
  }

  /** The host reads like the pattern only because a dot of the pattern stands for another character. */
  ghost predicate WildcardOnly(flow: Flow, f: Feature) {
    && HostOnly(f) && BasicCond(flow, f) && FlowHost(flow).Some?
    && LooksLikePart(f.hostUrl, FlowHost(flow).value)
    && !Occurs(f.hostUrl, FlowHost(flow).value)
  }

  lemma {:induction false} IndexedMembers(fs: seq<Feature>, f: Feature)
    ensures f in Indexed(fs) <==> f in fs && f.hostUrl != "" && !IsRegexHost(f.hostUrl)
  {
    if fs != [] {
      var init, last := fs[..|fs| - 1], fs[|fs| - 1];
      assert fs == init + [last];
      IndexedMembers(init, f);
    }
  }

  lemma {:induction false} FirstFallbackMeaning(fs: seq<Feature>, flow: Flow)
    requires AllReadable(fs)
    ensures var hit := FirstFallback(fs, flow);
            && (hit.Some? <==> exists f :: f in fs && FallbackHits(flow, f))
            && (hit.Some? ==> hit.value in fs && FallbackHits(flow, hit.value))
  {
    if fs != [] {
      FirstFallbackMeaning(fs[1..], flow);
    }
  }

  /** The automaton holds the feature and its text occurs in the host. */
  ghost predicate IndexHits(flow: Flow, f: Feature) {
    && f.hostUrl != "" && !IsRegexHost(f.hostUrl) && BasicCond(flow, f)
    && FlowHost(flow).Some? && Occurs(f.hostUrl, FlowHost(flow).value)
  }

  lemma AutomatonHitMeaning(fs: seq<Feature>, flow: Flow)
    ensures var hit := AutomatonHit(fs, flow);
            && (hit.Some? <==> exists f :: f in fs && IndexHits(flow, f))
            && (hit.Some? ==> hit.value in fs && IndexHits(flow, hit.value))
  {
    hide Indexed, NaiveScan, BasicCond, Occurs, IsRegexHost;
    if FlowHost(flow).Some? {
      var host, ix := FlowHost(flow).value, Indexed(fs);
      NaiveScanMeaning(ix, flow, true, host);
      var r := NaiveScan(ix, flow, true, host, 0);
      if r.Some? {
        var e: nat :| Wins(ix, flow, true, host, r.value, e);
        var k: nat :| FirstInserted(ix, flow, true, k, r.value);
        WinnerOccurs(ix, flow, host, r.value, e);
        IndexedMembers(fs, r.value);
      } else {
        forall f | f in fs ensures !IndexHits(flow, f) { IndexedMembers(fs, f); }
      }
    }
  }

  lemma WinnerOccurs(ix: seq<Feature>, flow: Flow, host: string, g: Feature, e: nat)
    requires Wins(ix, flow, true, host, g, e)
    ensures g in ix && g.hostUrl != "" && BasicCond(flow, g) && Occurs(g.hostUrl, host)
  {
    var k: nat :| FirstInserted(ix, flow, true, k, g);
  }

  // ---------- staged match and plain scan, any features ----------

  /** One of the two stages reports the feature when it is alone. */
  ghost predicate Caught(flow: Flow, f: Feature)
    requires Readable(f)
  {
    IndexHits(flow, f) || FallbackHits(flow, f)
  }

  /** The plain scan matches it, but its text does not occur and the fallback skips it. */
  ghost predicate Missed(flow: Flow, f: Feature)
    requires Readable(f)
  {
    HostOnly(f) && OneMatches(flow, f) && !Occurs(f.hostUrl, FlowHost(flow).value)
  }

  /** Its text occurs, but the plain scan does not match it. */
  ghost predicate Extra(flow: Flow, f: Feature)
    requires Readable(f)
  {
    IndexHits(flow, f) && !OneMatches(flow, f)
  }

  /** For any features the staged match answers exactly when it catches one, with one it catches. */
  lemma StagedCatches(fs: seq<Feature>, flow: Flow)
    requires AllReadable(fs)
    ensures var hit := Staged(fs, flow);
            && (hit.Some? <==> exists f :: f in fs && Caught(flow, f))
            && (hit.Some? ==> hit.value in fs && Caught(flow, hit.value))
  {
    hide AutomatonHit, FirstFallback, IndexHits, FallbackHits, Readable;
    AutomatonHitMeaning(fs, flow);
    FirstFallbackMeaning(fs, flow);
  }

  /** What the staged match catches is what the plain scan matches, less the missed and with the extra. */
  lemma CaughtIff(flow: Flow, f: Feature)
    requires Readable(f)
    ensures OneMatches(flow, f) && !Caught(flow, f) <==> Missed(flow, f)
    ensures Caught(flow, f) && !OneMatches(flow, f) <==> Extra(flow, f)
  {
    hide Occurs, BasicCond, PayloadHits, RegexpHits, Readable, IsRegexHost;
  }

  /** The staged match and the plain scan agree on every list drawn from some features exactly when
      none of those features is missed and none is extra. */
  lemma StagedAgreesIff(fs: seq<Feature>, flow: Flow)
    requires AllReadable(fs)
    ensures (forall gs: seq<Feature> :: (forall f :: f in gs ==> f in fs) && AllReadable(gs) ==>
                      (Staged(gs, flow).Some? <==> exists f :: f in gs && OneMatches(flow, f))) <==>
            forall f :: f in fs ==> !Missed(flow, f) && !Extra(flow, f)
  {
    hide Staged, Missed, Extra, OneMatches, Caught, Readable;
    if forall f :: f in fs ==> !Missed(flow, f) && !Extra(flow, f) {
      forall gs: seq<Feature> | (forall f :: f in gs ==> f in fs) && AllReadable(gs)
        ensures Staged(gs, flow).Some? <==> exists f :: f in gs && OneMatches(flow, f)
      {
        StagedCatches(gs, flow);
        forall f | f in gs ensures Caught(flow, f) <==> OneMatches(flow, f) { CaughtIff(flow, f); }
      }
    } else {
      var f :| f in fs && (Missed(flow, f) || Extra(flow, f));
      CaughtIff(flow, f);
      StagedCatches([f], flow);
      assert f in [f] && forall g :: g in [f] ==> g == f;
      assert !(Staged([f], flow).Some? <==> exists g :: g in [f] && OneMatches(flow, g));
    }
  }

  // ---------- dotted and literal hosts ----------

  /** With dots among the host texts, a staged answer is always one the plain scan allows,
      and the plain scan adds only features a dot of which stood for another character. */
  lemma StagedAgainstScan(fs: seq<Feature>, flow: Flow)
    requires AllReadable(fs) && DottedHosts(fs)
    ensures Staged(fs, flow).Some? ==> Staged(fs, flow).value in fs && OneMatches(flow, Staged(fs, flow).value)
    ensures (exists f :: f in fs && OneMatches(flow, f)) <==>
            Staged(fs, flow).Some? || exists f :: f in fs && WildcardOnly(flow, f)
  {
    hide Staged, Missed, Extra, OneMatches, Caught, Readable, WildcardOnly;
    StagedCatches(fs, flow);
    forall f | f in fs ensures !Extra(flow, f) && (Missed(flow, f) <==> WildcardOnly(flow, f)) {
      DottedFeature(flow, f);
    }
    forall f | f in fs ensures OneMatches(flow, f) <==> Caught(flow, f) || WildcardOnly(flow, f) {
      CaughtIff(flow, f);
    }
  }

  lemma DottedFeature(flow: Flow, f: Feature)
    requires Readable(f) && (f.hostUrl != "" && !IsRegexHost(f.hostUrl) ==> Dotted(f.hostUrl))
    ensures !Extra(flow, f) && (Missed(flow, f) <==> WildcardOnly(flow, f))
  {
    hide Occurs, BasicCond, PayloadHits, RegexpHits, Readable, IsRegexHost, Dotted, LooksLikePart;
    if f.hostUrl != "" && !IsRegexHost(f.hostUrl) && FlowHost(flow).Some? {
      DottedHits(f.hostUrl, FlowHost(flow).value);
      OccursLooksLike(f.hostUrl, FlowHost(flow).value);
    }
  }

  /** With literal host texts the automaton loses nothing: staged and plain scan agree. */
  lemma StagedIsScan(fs: seq<Feature>, flow: Flow)
    requires AllReadable(fs) && LiteralHosts(fs)
    ensures Staged(fs, flow).Some? <==> exists f :: f in fs && OneMatches(flow, f)
  {
    StagedAgainstScan(fs, flow);
    forall f | f in fs ensures !WildcardOnly(flow, f) {
      if FlowHost(flow).Some? { OccursLooksLike(f.hostUrl, FlowHost(flow).value); }
    }
  }

  /** A feature on its own that is missed is found by the plain scan only. */
  lemma MissedAlone(flow: Flow, f: Feature)
    requires Readable(f) && Missed(flow, f)
    ensures Staged([f], flow).None? && OneMatches(flow, f)
  {
    hide Staged, Caught, OneMatches, Readable, Occurs;
    CaughtIff(flow, f);
    StagedCatches([f], flow);
  }

  /** A list of one such feature is missed by the staged match and found by the plain scan. */
  lemma WildcardIsMissed(flow: Flow, f: Feature)
    requires Readable(f) && Dotted(f.hostUrl) && WildcardOnly(flow, f)
    ensures Staged([f], flow).None? && OneMatches(flow, f)
  {
    DottedFeature(flow, f);
    MissedAlone(flow, f);
  }

  /** Every dot costs matches: put any other character in its place and the plain scan
      still finds the host while the staged match does not. */
  lemma DotCostsAMatch(flow: Flow, f: Feature, k: nat, c: char)
    requires Readable(f) && HostOnly(f) && Dotted(f.hostUrl) && BasicCond(flow, f)
    requires k < |f.hostUrl| && f.hostUrl[k] == '.' && c != '.' && FlowHost(flow) == Some(f.hostUrl[k := c])
    ensures Staged([f], flow).None? && OneMatches(flow, f)
  {
    DotStandsIn(f.hostUrl, f.hostUrl[k := c]);
    WildcardIsMissed(flow, f);
  }

  lemma DotStandsIn(pattern: string, host: string)
    requires |pattern| == |host| && LooksLike(pattern, host) && pattern != host
    ensures LooksLikePart(pattern, host) && !Occurs(pattern, host)
  {
    assert host[0..|host|] == host;
    forall e | 0 <= e <= |host| ensures !IsSuffix(pattern, host[..e]) {
      if e == |host| { SuffixWindow(pattern, host, e); }
    }
  }

  /** Both anchors without a star: the automaton takes the pattern for a literal text. */
  lemma AnchoredHostIsMissed(flow: Flow, f: Feature)
    requires f.hostUrl == "^a$" && f.requestUrl == "" && BasicCond(flow, f) && FlowHost(flow) == Some("a")
    ensures Readable(f) && Missed(flow, f) && Staged([f], flow).None?
  {
    var item := Item(Lit('a', false), Once);
    var p := Pattern(true, [item], true);
    assert [item][1..] == [] && RenderItems([item]) == "a" + "" + "";
    assert Render(p) == "^a$";
    RegexpDecidesLanguage(p, "a");
    assert InItems([], "a"[1..]) && "a"[..1] == "a" && InItem(item, "a");
    assert InItems([item], "a"[0..1]);
    assert Lex("") != Undefined;
    TooShort("^a$", "a");
    MissedAlone(flow, f);
  }

  lemma TooShort(s: string, text: string)
    requires |text| < |s|
    ensures !Occurs(s, text)
  {
  }

  // ---------- which host texts are safe ----------

  /** The pattern engine and a search for the text itself give the same answer for every host. */
  ghost predicate ReadsAsItself(s: string)
    requires Lex(s) != Undefined
  {
    forall text :: RegexpHits(s, text) <==> Occurs(s, text)
  }

  /** A pattern with a metacharacter of any kind has a match shorter than its own text, if it has one. */
  lemma ShorterMatch(s: string, text: string) returns (t: string)
    requires s != "" && !Dotted(s) && Lex(s).Tokens? && R.Found(Lex(s).re, text)
    ensures R.Found(Lex(s).re, t) && |t| < |s|
  {
    hide Lex, R.Here, R.IsQuantifier, Weight, HasQuantifier, PlainToken, IsMeta, Dotted;
    var re := Lex(s).re;
    LexLength(s);
    if re != [] && re[0].Begin? {
      t := ShortMatch(re[1..], text);
      WeightBelow(re[1..], text);
    } else {
      var i :| 0 <= i <= |text| && R.Here(re, text[i..]);
      t := ShortMatch(re, text[i..]);
      WeightBelow(re, text[i..]);
      assert t[0..] == t;
      if '\\' !in s && '[' !in s {
        LexPlain(s);
        MetaToken(s);
      }
    }
  }

  lemma MetaToken(s: string)
    requires s != "" && !Dotted(s) && '\\' !in s && '[' !in s
    ensures var re := seq(|s|, i requires 0 <= i < |s| => PlainToken(s[i]));
            HasQuantifier(re) || re[0].Begin? || re[|re| - 1].End?
  {
    var re := seq(|s|, i requires 0 <= i < |s| => PlainToken(s[i]));
    if exists i :: 0 <= i < |s| && IsMeta(s[i]) {
      var i :| 0 <= i < |s| && IsMeta(s[i]);
      assert R.IsQuantifier(re[i]);
    }
  }

  /** Exactly the literal texts read as themselves: every dot, metacharacter and effective anchor makes
      some host come out differently. */
  lemma ReadsAsItselfIff(s: string)
    requires s != "" && Lex(s) != Undefined
    ensures ReadsAsItself(s) <==> Literal(s)
  {
    hide R.Found, R.Here, Occurs, LooksLikePart, Lex, IsMeta;
    if Literal(s) {
      forall text ensures RegexpHits(s, text) <==> Occurs(s, text) {
        DottedHits(s, text);
        OccursLooksLike(s, text);
      }
    } else if Lex(s) == Bad {
      TooShort(s, "");
      assert RegexpHits(s, "") && !Occurs(s, "");
    } else if Dotted(s) {
      var k :| 0 <= k < |s| && s[k] == '.';
      var host := s[k := 'x'];
      DotStandsIn(s, host);
      DottedHits(s, host);
      assert RegexpHits(s, host) && !Occurs(s, host);
    } else if R.Found(Lex(s).re, s) {
      var t := ShorterMatch(s, s);
      TooShort(s, t);
      assert RegexpHits(s, t) && !Occurs(s, t);
    } else {
      OccursInItself(s);
      assert !RegexpHits(s, s) && Occurs(s, s);
    }
  }

  lemma OccursInItself(s: string)
    ensures Occurs(s, s)
  {
    assert s[..|s|] == s && IsSuffix(s, s[..|s|]);
  }

  // ---------- patterns that do not compile ----------

  /** Whatever the engine reports comes from a program that found something. */
  ghost predicate Genuine(pattern: string)
    requires Lex(pattern) != Undefined
  {
    forall text :: RegexpHits(pattern, text) ==>
      pattern != "" && Lex(pattern).Tokens? && R.Found(Lex(pattern).re, text)
  }

  /** Matches are genuine exactly for the patterns that compile; any other matches every text. */
  lemma GenuineIff(pattern: string)
    requires Lex(pattern) != Undefined
    ensures Genuine(pattern) <==> pattern != "" && Lex(pattern).Tokens?
    ensures !Genuine(pattern) ==> forall text :: RegexpHits(pattern, text)
  {
    hide R.Found, Lex;
    if pattern == "" || Lex(pattern) == Bad {
      assert RegexpHits(pattern, "");
    }
  }

  /** A host pattern that does not compile passes for every flow that names a host. */
  lemma BadPatternHitsEverything(flow: Flow, f: Feature)
    requires Readable(f) && (exists i: nat :: BadAt(f.hostUrl, i)) && FlowHost(flow).Some?
    ensures HostHits(flow, f)
  {
    hide BadAt;
    BadPatternIff(f.hostUrl);
    assert Lex("") == Tokens([]);
  }

  /** A single bracket is such a pattern. */
  lemma UnclosedClassIsBad()
    ensures BadAt("[", 0) && Lex("[") == Bad && !Genuine("[")
  {
    assert "["[1..] == "" && Spoils("", [], []) && Sound([], '[', []);
    BadPatternIff("[");
    GenuineIff("[");
  }

  // ---------- what one feature asks, on the fields themselves ----------

  function First63(s: string): string { if |s| > 63 then s[..63] else s }

  /** The text a flow names as its host: the one of TLS, or without one that of HTTP. */
  ghost predicate NamesHost(flow: Flow, t: string) {
    && t != ""
    && (flow.httpsHost == Some(t) ||
        ((flow.httpsHost == None || flow.httpsHost == Some("")) && flow.httpHost == Some(t)))
  }

  /** Its first 63 characters are the host, unless they are an address. */
  lemma FlowHostIff(flow: Flow, h: string)
    ensures FlowHost(flow) == Some(h) <==>
            exists t :: NamesHost(flow, t) && h == First63(t) && !flow.ipLiteral(h)
  {
    if FlowHost(flow) == Some(h) {
      var t := if flow.httpsHost.Some? && flow.httpsHost.value != "" then flow.httpsHost.value else flow.httpHost.value;
      assert NamesHost(flow, t);
    }
  }

  ghost predicate RequestFits(flow: Flow, f: Feature)
    requires Readable(f)
  {
    exists u :: flow.httpUrl == Some(u) && u != "" && RegexpHits(f.requestUrl, First63(u))
  }

  /** Where a position check looks; negative ones count from the end. */
  ghost predicate ByteThere(data: seq<int>, p: PosInfo) {
    if p.pos < 0 then -p.pos <= |data| && data[|data| + p.pos] == p.value
    else p.pos < |data| && data[p.pos] == p.value
  }

  /** A feature without texts or positions takes every flow that passes the basic condition; texts are
      looked for in host and request, and only a feature without them looks at the payload. */
  lemma OneMatchesIff(flow: Flow, f: Feature)
    requires Readable(f)
    ensures OneMatches(flow, f) <==>
            BasicCond(flow, f) &&
            ((f.hostUrl == "" && f.requestUrl == "" && f.posInfo == [])
             || (f.hostUrl == "" && f.requestUrl == "" && f.posInfo != [] &&
                 (forall i :: 0 <= i < |f.posInfo| && i < 16 ==> ByteThere(flow.l4Data, f.posInfo[i])) &&
                 (f.searchStr == "" || HasBytes(flow.l4Data, f.searchStr)))
             || (f.hostUrl != "" && exists h :: FlowHost(flow) == Some(h) && RegexpHits(f.hostUrl, h))
             || (f.requestUrl != "" && RequestFits(flow, f)))
  {
    hide BasicCond, FlowHost, RegexpHits, HasBytes;
    if f.hostUrl != "" && FlowHost(flow).Some? {
      assert FlowHost(flow) == Some(FlowHost(flow).value);
    }
    if flow.httpUrl.Some? {
      assert flow.httpUrl == Some(flow.httpUrl.value);
    }
  }

  /** A payload that starts with a byte and a version of 32 bits, high byte first: a long header of a known
      version, of a draft or on the port of HTTPS. */
  lemma QuicIff(flow: Flow, first: int, version: nat, rest: seq<int>)
    requires version < 0x1_0000_0000
    requires flow.l4Data ==
             [first, version / 0x100_0000, version / 0x1_0000 % 256, version / 256 % 256, version % 256] + rest
    ensures IsQuic(flow) <==>
            && flow.l4Protocol == 17 && |rest| >= 3 && first >= 128
            && (version == 0 || version == 1 || version == 0x6b33_43cf || version >= 0xff00_0000 || flow.dport == 443)
  {
    var d := flow.l4Data;
    assert d[0] == first && d[1] == version / 0x100_0000 && d[2] == version / 0x1_0000 % 256;
    assert d[3] == version / 256 % 256 && d[4] == version % 256;
    assert version / 256 == version / 0x1_0000 * 256 + d[3];
    assert version / 0x1_0000 == d[1] * 256 + d[2];
  }

  lemma ShortIsNotQuic(flow: Flow)
    requires |flow.l4Data| < 8
    ensures !IsQuic(flow)
  {
  }
}
