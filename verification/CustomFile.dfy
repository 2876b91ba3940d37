/** The configuration file: one application a line, and the parsers' loops. */
module CustomFile {
  import opened Text
  import opened Strings
  import opened CustomApps
  import opened CustomText
  import opened CustomRoundTrip

  /** `fgets` holds this many characters; a longer line is refused. */
  const LINE_ROOM := 1022

  function StripEnd(line: string): string {
    if line != "" && (line[|line| - 1] == '\n' || line[|line| - 1] == '\r') then StripEnd(line[..|line| - 1]) else line
  }

  predicate IsClassLine(line: string) {
    "#class " <= line
  }

  /** One line of the file, after those already read. */
  function ReadLine(available: int -> bool, earlier: seq<CustomApp>, raw: string): Option<seq<CustomApp>> {
    var line := StripEnd(raw);
    if |raw| > LINE_ROOM then None
    else if line == "" || IsClassLine(line) then Some(earlier)
    else
      match ParseApp(available, earlier, line)
      case None => None
      case Some(a) => Some(earlier + [a])
  }

  function ReadLines(available: int -> bool, earlier: seq<CustomApp>, lines: seq<string>): Option<seq<CustomApp>>
    decreases |lines|
  {
    if lines == [] then Some(earlier)
    else
      match ReadLine(available, earlier, lines[0])
      case None => None
      case Some(more) => ReadLines(available, more, lines[1..])
  }

  /** `config_read_file`; `base` counts the built-in applications. */
  function ReadFile(available: int -> bool, base: nat, content: string): Option<seq<CustomApp>> {
    match ReadLines(available, [], Split(content, '\n'))
    case None => None
    case Some(apps) => if base + |apps| > MAX_APPS then None else Some(SortApps(apps))
  }

  function FileText(apps: seq<CustomApp>): string {
    if apps == [] then "" else AppText(apps[0]) + ['\n'] + FileText(apps[1..])
  }

  predicate AllFit(apps: seq<CustomApp>) {
    forall i :: 0 <= i < |apps| ==> AppLine(apps[i]).Some?
  }

  // ---------- the loops ----------

  lemma SplitStep(done: seq<string>, s: string, c: char)
    ensures var r := Find(s, c);
            && (r.Some? ==> done + Split(s, c) == (done + [s[..r.value]]) + Split(s[r.value + 1..], c))
            && (r.None? ==> done + Split(s, c) == done + [s])
  {
  }

  /** Cuts the text into exactly `n` fields. */
  method SplitExact(text: string, c: char, n: nat) returns (r: Option<seq<string>>)
    requires n > 0
    ensures r == if |Split(text, c)| == n then Some(Split(text, c)) else None
  {
    hide Split;
    var fields: seq<string>, rest, i := [], text, 1;
    assert [] + Split(text, c) == Split(text, c);
    while i < n
      invariant 1 <= i <= n && |fields| == i - 1 && fields + Split(rest, c) == Split(text, c)
    {
      SplitStep(fields, rest, c);
      var at := Find(rest, c);
      if at.None? { return None; }
      fields, rest := fields + [rest[..at.value]], rest[at.value + 1..];
      i := i + 1;
    }
    SplitStep(fields, rest, c);
    if Find(rest, c).Some? {
      assert |Split(text, c)| > n;
      return None;
    }
    return Some(fields + [rest]);
  }

  lemma {:induction false} ParseAllConcat<T>(parse: string -> Option<T>, a: seq<string>, b: seq<string>)
    ensures ParseAll(parse, a + b) ==
            match ParseAll(parse, a)
            case None => None
            case Some(xs) =>
              match ParseAll(parse, b)
              case None => None
              case Some(ys) => Some(xs + ys)
    decreases |a|
  {
    if a == [] {
      assert a + b == b;
      if ParseAll(parse, b).Some? { assert [] + ParseAll(parse, b).value == ParseAll(parse, b).value; }
    } else {
      assert (a + b)[1..] == a[1..] + b;
      ParseAllConcat(parse, a[1..], b);
      if ParseAll(parse, a).Some? && ParseAll(parse, b).Some? {
        var x, xs, ys := parse(a[0]).value, ParseAll(parse, a[1..]).value, ParseAll(parse, b).value;
        assert [x] + (xs + ys) == ([x] + xs) + ys;
      }
    }
  }

  lemma ParseNothing<T>(parse: string -> Option<T>)
    ensures ParseAll(parse, []) == Some([])
  {
  }

  /** What one more parsed item means for the whole list. */
  lemma ParseOneMore<T>(parse: string -> Option<T>, done: seq<string>, item: string, more: seq<string>, xs: seq<T>)
    requires ParseAll(parse, done) == Some(xs)
    ensures parse(item).None? ==> ParseAll(parse, done + [item] + more).None?
    ensures parse(item).Some? ==> ParseAll(parse, done + [item]) == Some(xs + [parse(item).value])
  {
    var one := [item];
    assert one[1..] == [];
    assert ParseAll(parse, one) == if parse(item).None? then None else Some([parse(item).value] + []);
    ParseAllConcat(parse, done, one);
    ParseAllConcat(parse, done + one, more);
    if parse(item).Some? {
      assert [parse(item).value] + [] == [parse(item).value];
    }
  }

  /** The item loop of the payload and feature lists: stops at the first bad item, at one
      too many, or at the end. */
  method ParseList<T>(parse: string -> Option<T>, text: string, c: char, limit: nat) returns (r: Option<seq<T>>)
    requires text != "" && text[|text| - 1] != c
    ensures r == if |Split(text, c)| > limit then None else ParseAll(parse, Split(text, c))
  {
    hide Split, ParseAll;
    r := None;
    ghost var done: seq<string> := [];
    var xs: seq<T> := [];
    var item := text;
    assert [] + Split(text, c) == Split(text, c);
    ParseNothing(parse);
    while true
      invariant item != "" && item[|item| - 1] != c && |done| == |xs|
      invariant done + Split(item, c) == Split(text, c) && ParseAll(parse, done) == Some(xs)
      decreases |item|
    {
      SplitStep(done, item, c);
      var at := Find(item, c);
      var head := if at.Some? then item[..at.value] else item;
      if |xs| >= limit { return None; }
      var x := parse(head);
      ParseOneMore(parse, done, head, if at.Some? then Split(item[at.value + 1..], c) else [], xs);
      assert done + [head] + [] == done + [head];
      if x.None? { return None; }
      xs, done := xs + [x.value], done + [head];
      if at.None? { return Some(xs); }
      item := item[at.value + 1..];
    }
  }

  /** `config_write_file`: nothing is kept unless every line fits. */
  method WriteFile(apps: seq<CustomApp>) returns (r: Option<string>)
    ensures r == if AllFit(apps) then Some(FileText(apps)) else None
  {
    hide AppText, AppLine;
    var text := "";
    var i := 0;
    assert apps[0..] == apps;
    while i < |apps|
      invariant 0 <= i <= |apps| && AllFit(apps[..i])
      invariant text + FileText(apps[i..]) == FileText(apps)
    {
      var line := AppLine(apps[i]);
      if line.None? { return None; }
      LineIsText(apps[i]);
      assert apps[i..][1..] == apps[i + 1..];
      assert text + (line.value + ['\n'] + FileText(apps[i + 1..])) ==
             (text + line.value + ['\n']) + FileText(apps[i + 1..]);
      text := text + line.value + ['\n'];
      i := i + 1;
    }
    assert apps[i..] == [] && apps[..i] == apps && text + "" == text;
    return Some(text);
  }

  lemma LineIsText(a: CustomApp)
    ensures AppLine(a).Some? ==> AppLine(a).value == AppText(a)
  {
  }

  /** `config_read_file`'s loop over the lines. */
  method ReadConfig(available: int -> bool, base: nat, content: string) returns (r: Option<seq<CustomApp>>)
    ensures r == ReadFile(available, base, content)
  {
    hide Split, ParseApp;
    var apps: seq<CustomApp> := [];
    var rest := content;
    ghost var left := Split(content, '\n');
    while true
      invariant left == Split(rest, '\n')
      invariant ReadLines(available, [], Split(content, '\n')) == ReadLines(available, apps, left)
      decreases |rest|
    {
      SplitStep([], rest, '\n');
      var at := Find(rest, '\n');
      var line := if at.Some? then rest[..at.value] else rest;
      assert [] + left == left && [] + [line] == [line];
      assert left[0] == line && left[1..] == if at.Some? then Split(rest[at.value + 1..], '\n') else [];
      var more := ReadLine(available, apps, line);
      if more.None? { return None; }
      apps := more.value;
      left := left[1..];
      if at.None? { break; }
      rest := rest[at.value + 1..];
    }
    if base + |apps| > MAX_APPS { return None; }
    return Some(SortApps(apps));
  }

  // ---------- the whole file ----------

  ghost predicate ValidConfig(available: int -> bool, apps: seq<CustomApp>) {
    && Ordered(apps)
    && (forall i :: 0 <= i < |apps| ==> ValidApp(available, apps[..i], apps[i]) && '\n' !in apps[i].name)
  }

  lemma AppTextOneLine(available: int -> bool, earlier: seq<CustomApp>, a: CustomApp)
    requires ValidApp(available, earlier, a) && '\n' !in a.name
    ensures '\n' !in AppText(a)
  {
    hide IntText, FeatureText, Join, ValidFeature;
    IntTextLacks(a.appid, '\n');
    var fields := PrintAll(FeatureText, a.features);
    forall i | 0 <= i < |fields| ensures '\n' !in fields[i] { FeatureOneLine(a.features[i]); }
    JoinLacks(fields, ',', '\n');
  }

  lemma FeatureOneLine(f: CustomFeature)
    requires ValidFeature(f)
    ensures '\n' !in FeatureText(f)
  {
    FieldsLack(f, '\n');
    JoinLacks(FeatureFields(f), ';', '\n');
  }

  lemma ReadsAppLine(available: int -> bool, earlier: seq<CustomApp>, a: CustomApp)
    requires ValidApp(available, earlier, a)
    ensures ReadLine(available, earlier, AppText(a)) == Some(earlier + [a])
  {
    hide ParseApp, IntText, Join, ValidFeature;
    var line := AppText(a);
    AppRoundTrip(available, earlier, a);
    LineIsText(a);
    assert line[|line| - 1] == ']';
    assert StripEnd(line) == line;
    DecIsDigits(a.appid);
    IntTextStart(a.appid);
    assert line[0] == IntText(a.appid)[0];
  }

  lemma IntTextStart(i: int)
    requires i >= 0
    ensures IntText(i) != "" && IsDigit(IntText(i)[0])
  {
    DecIsDigits(i);
  }

  lemma {:induction false} SplitsFile(apps: seq<CustomApp>)
    requires forall i :: 0 <= i < |apps| ==> '\n' !in AppText(apps[i])
    ensures Split(FileText(apps), '\n') == PrintAll(AppText, apps) + [""]
    decreases |apps|
  {
    hide AppText;
    if apps != [] {
      var head, rest := AppText(apps[0]), FileText(apps[1..]);
      SplitsFile(apps[1..]);
      FindAfter(head, '\n', rest);
      var s := head + ['\n'] + rest;
      assert s[..|head|] == head && s[|head| + 1..] == rest;
      assert [head] + (PrintAll(AppText, apps[1..]) + [""]) == PrintAll(AppText, apps) + [""];
    }
  }

  lemma {:induction false} ReadsApps(available: int -> bool, apps: seq<CustomApp>, i: nat)
    requires i <= |apps| && ValidConfig(available, apps)
    ensures ReadLines(available, apps[..i], PrintAll(AppText, apps[i..]) + [""]) == Some(apps)
    decreases |apps| - i
  {
    hide AppText, ReadLine, ValidApp;
    var lines := PrintAll(AppText, apps[i..]) + [""];
    if i == |apps| {
      EmptyLineSkipped(available, apps);
      assert lines == [""] && lines[1..] == [] && apps[..i] == apps;
    } else {
      ReadsAppLine(available, apps[..i], apps[i]);
      assert apps[..i] + [apps[i]] == apps[..i + 1] && apps[i..][1..] == apps[i + 1..];
      assert lines[0] == AppText(apps[i]) && lines[1..] == PrintAll(AppText, apps[i + 1..]) + [""];
      ReadsApps(available, apps, i + 1);
    }
  }

  lemma EmptyLineSkipped(available: int -> bool, earlier: seq<CustomApp>)
    ensures ReadLine(available, earlier, "") == Some(earlier)
  {
  }

  lemma {:induction false} SortsSorted(s: seq<CustomApp>)
    requires Ordered(s)
    ensures SortApps(s) == s
    decreases |s|
  {
    if s != [] {
      assert Ordered(s[1..]);
      SortsSorted(s[1..]);
      assert [s[0]] + s[1..] == s;
    }
  }

  /** Writing a valid sorted configuration and reading the file gives it back. */
  lemma FileRoundTrip(available: int -> bool, base: nat, apps: seq<CustomApp>)
    requires ValidConfig(available, apps) && base + |apps| <= MAX_APPS
    ensures AllFit(apps)
    ensures ReadFile(available, base, FileText(apps)) == Some(apps)
  {
    hide AppText, AppLine, ValidApp, SortApps, ReadLines;
    forall i | 0 <= i < |apps| ensures AppLine(apps[i]).Some? && '\n' !in AppText(apps[i]) {
      AppRoundTrip(available, apps[..i], apps[i]);
      AppTextOneLine(available, apps[..i], apps[i]);
    }
    SplitsFile(apps);
    assert apps[..0] == [] && apps[0..] == apps;
    ReadsApps(available, apps, 0);
    SortsSorted(apps);
  }
}
