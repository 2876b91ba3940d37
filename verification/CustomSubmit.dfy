/** A submitted configuration from its check to the file and back. */
module CustomSubmit {
  import opened Text
  import opened Strings
  import opened CustomApps
  import opened CustomText
  import opened CustomRoundTrip
  import opened CustomFile

  // ---------- the parsers, loop by loop ----------

  /** `parse_payload_text` */
  method ParsePayloadText(text: string) returns (r: Option<seq<Payload>>)
    ensures r == ParsePayloads(text)
  {
    if |text| == 0 { return Some([]); }
    if text[|text| - 1] == '|' { return None; }
    r := ParseList(ParsePayload, text, '|', MAX_PAYLOADS);
  }

  /** `parse_feature_text` */
  method ParseFeatureText(text: string) returns (r: Option<CustomFeature>)
    ensures r == ParseFeature(text)
  {
    hide Split, NormalizePort, ParsePayloads, ValidateFeature;
    if |text| == 0 || |text| > MAX_FEATURE_TEXT { return None; }
    var cut := SplitExact(text, ';', 6);
    if cut.None? { return None; }
    var fields := cut.value;
    if |fields[1]| > 0 || |fields[0]| != 3 { return None; }
    var port := NormalizePort(fields[2]);
    if port.None? || |fields[3]| > DOMAIN_ROOM || |fields[4]| > URI_ROOM { return None; }
    var payload := ParsePayloadText(fields[5]);
    if payload.None? { return None; }
    r := ValidateFeature(CustomFeature(LowerAll(fields[0]), port.value, fields[3], fields[4], payload.value));
  }

  /** `parse_app_line` */
  method ParseAppLine(available: int -> bool, earlier: seq<CustomApp>, line: string) returns (r: Option<CustomApp>)
    ensures r == ParseApp(available, earlier, line)
  {
    hide Split, ParseFeature, ParseHead, FindOpen;
    var open := FindOpen(line);
    if open.None? || |line| > MAX_APP_LINE { return None; }
    var tail := line[open.value + 2..];
    if |tail| == 0 || tail[|tail| - 1] != ']' || |earlier| >= MAX_APPS { return None; }
    var a := ParseHead(line[..open.value]);
    if a.None? || !GoodIdentity(available, earlier, a.value) { return None; }
    var list := tail[..|tail| - 1];
    if |list| == 0 || list[|list| - 1] == ',' { return None; }
    var features := ParseList(ParseFeature, list, ',', MAX_FEATURES);
    if features.None? { return None; }
    r := Some(a.value.(features := features.value));
  }

  // ---------- what a submission has passed ----------

  /** `validate_feature` has nothing to change. */
  ghost predicate CheckedFeature(f: CustomFeature) {
    && ValidateFeature(f) == Some(f)
    && |f.payload| <= MAX_PAYLOADS
    && forall p :: p in f.payload ==> INT_MIN <= p.position <= INT_MAX && p.value <= 0xff
  }

  /** Every application passed its checks against the ones before it. */
  ghost predicate Submitted(available: int -> bool, apps: seq<CustomApp>) {
    && (forall c :: available(c) ==> 1 <= c <= MAX_APP_TYPE)
    && forall i :: 0 <= i < |apps| ==>
         && GoodIdentity(available, apps[..i], apps[i]) && Trimmed(apps[i].name)
         && 0 < |apps[i].features| <= MAX_FEATURES
         && forall f :: f in apps[i].features ==> CheckedFeature(f)
  }

  lemma SubmittedIsPlaced(available: int -> bool, apps: seq<CustomApp>)
    requires Submitted(available, apps)
    ensures AllPlaced(apps) && ExplicitDistinct(apps)
    ensures forall i, j :: 0 <= i < j < |apps| ==> apps[i].name != apps[j].name
  {
    forall i, j | 0 <= i < j < |apps|
      ensures apps[i].name != apps[j].name && (apps[i].appid != 0 ==> apps[i].appid != apps[j].appid)
    {
      assert apps[i] == apps[..j][i] && apps[i] in apps[..j];
    }
  }

  /** What allocation makes of a submission: the ids filled in and the list sorted. */
  ghost function Stored(apps: seq<CustomApp>): seq<CustomApp>
    requires Assign(apps, Explicit(apps)).Some?
  {
    SortApps(Assign(apps, Explicit(apps)).value)
  }

  /** A stored application is a submitted one but for its id, which lies in its class. */
  ghost predicate ComesFrom(a: CustomApp, apps: seq<CustomApp>, i: nat) {
    i < |apps| && a == apps[i].(appid := a.appid) && InClass(a.appid, a.classId)
  }

  lemma StoredComesFrom(available: int -> bool, apps: seq<CustomApp>, k: nat) returns (i: nat)
    requires Submitted(available, apps) && Assign(apps, Explicit(apps)).Some? && k < |Stored(apps)|
    ensures ComesFrom(Stored(apps)[k], apps, i)
  {
    hide Assign, SortApps;
    var r := Assign(apps, Explicit(apps)).value;
    SubmittedIsPlaced(available, apps);
    SortMeaning(r);
    assert Stored(apps)[k] in multiset(Stored(apps));
    assert Stored(apps)[k] in multiset(r);
    i :| 0 <= i < |r| && r[i] == Stored(apps)[k];
    AssignedIds(apps);
    AssignMeaning(apps, Explicit(apps));
    assert Turn(apps, Explicit(apps), r, i);
  }

  lemma StoredSize(apps: seq<CustomApp>)
    requires Assign(apps, Explicit(apps)).Some?
    ensures |Stored(apps)| == |apps|
  {
    hide Assign, SortApps;
    var r := Assign(apps, Explicit(apps)).value;
    AssignMeaning(apps, Explicit(apps));
    SortMeaning(r);
    assert |multiset(Stored(apps))| == |multiset(r)|;
  }

  lemma FeatureIsValid(f: CustomFeature)
    requires CheckedFeature(f) && |FeatureText(f)| <= MAX_FEATURE_TEXT
    ensures ValidFeature(f)
  {
    hide FeatureText, NormalizePort, Forbidden;
    var port := NormalizePort(f.destPort);
    assert f.(destPort := port.value) == f;
  }

  /** Every stored application is valid after those stored before it. */
  lemma StoredIsValid(available: int -> bool, apps: seq<CustomApp>, k: nat)
    requires Submitted(available, apps) && SmallClasses(apps) && |apps| <= MAX_APPS
    requires Assign(apps, Explicit(apps)).Some? && AllFit(Stored(apps)) && k < |Stored(apps)|
    ensures ValidApp(available, Stored(apps)[..k], Stored(apps)[k])
  {
    hide Assign, SortApps, AppText, FeatureText, ValidFeature, CheckedFeature, ForbiddenInName, SmallClasses;
    var out := Stored(apps);
    var a := out[k];
    var i := StoredComesFrom(available, apps, k);
    SubmittedIsPlaced(available, apps);
    AllocatedList(apps);
    StoredSize(apps);
    forall e | e in out[..k] ensures e.name != a.name && e.appid != a.appid {
      var j :| 0 <= j < k && out[j] == e;
      var p := StoredComesFrom(available, apps, j);
      assert e.appid < a.appid;
      assert p != i by { if p == i { OneIdEach(available, apps, j, k, i); } }
    }
    assert AppLine(a).Some?;
    forall f | f in a.features ensures ValidFeature(f) { FeatureIsValid(f); }
  }

  /** Two stored applications never come from the same submitted one. */
  lemma OneIdEach(available: int -> bool, apps: seq<CustomApp>, j: nat, k: nat, i: nat)
    requires Submitted(available, apps) && Assign(apps, Explicit(apps)).Some?
    requires j < k < |Stored(apps)| && Stored(apps)[j].name == Stored(apps)[k].name
    ensures Stored(apps)[j].appid == Stored(apps)[k].appid
  {
    hide Assign, SortApps;
    var r, out := Assign(apps, Explicit(apps)).value, Stored(apps);
    SubmittedIsPlaced(available, apps);
    SortMeaning(r);
    AssignMeaning(apps, Explicit(apps));
    assert out[j] in multiset(out) && out[k] in multiset(out);
    assert out[j] in multiset(r) && out[k] in multiset(r);
    var p :| 0 <= p < |r| && r[p] == out[j];
    var q :| 0 <= q < |r| && r[q] == out[k];
    assert Turn(apps, Explicit(apps), r, p) && Turn(apps, Explicit(apps), r, q);
  }

  // ---------- names that hold a line end ----------

  lemma {:induction false} ReadsPrefix(available: int -> bool, apps: seq<CustomApp>, k: nat, i: nat, t: string)
    requires i <= k <= |apps|
    requires forall j :: 0 <= j < k ==> ValidApp(available, apps[..j], apps[j]) && '\n' !in apps[j].name
    ensures ReadLines(available, apps[..i], Split(FileText(apps[i..k]) + t, '\n')) ==
            ReadLines(available, apps[..k], Split(t, '\n'))
    decreases k - i
  {
    hide AppText, ReadLine, ValidApp;
    if i == k {
      assert apps[i..k] == [] && "" + t == t;
    } else {
      var head, rest := AppText(apps[i]), FileText(apps[i + 1..k]) + t;
      AppTextOneLine(available, apps[..i], apps[i]);
      ReadsAppLine(available, apps[..i], apps[i]);
      assert apps[i..k][1..] == apps[i + 1..k];
      var s := FileText(apps[i..k]) + t;
      assert s == head + ['\n'] + rest;
      FirstPiece(head, '\n', rest);
      assert ([head] + Split(rest, '\n'))[1..] == Split(rest, '\n');
      assert apps[..i] + [apps[i]] == apps[..i + 1];
      ReadsPrefix(available, apps, k, i + 1, t);
    }
  }

  /** A line that starts like an application and ends inside its name is refused. */
  lemma BrokenLine(available: int -> bool, earlier: seq<CustomApp>, id: nat, name: string)
    requires ':' !in name
    ensures ReadLine(available, earlier, IntText(id) + ['~'] + name) == None
  {
    hide IntText, ParseHead, GoodIdentity, ParseFeatures;
    var line := IntText(id) + ['~'] + name;
    IntTextStart(id);
    IntTextLacks(id, ':');
    assert line[0] == IntText(id)[0];
    StripKeepsHead(line);
    var rest := StripEnd(line);
    assert ':' !in line;
    NoOpen(rest);
  }

  lemma {:induction false} StripKeepsHead(line: string)
    requires line != "" && line[0] != '\n' && line[0] != '\r'
    ensures StripEnd(line) != "" && StripEnd(line) <= line
    decreases |line|
  {
    if line[|line| - 1] == '\n' || line[|line| - 1] == '\r' {
      assert |line| > 1;
      StripKeepsHead(line[..|line| - 1]);
    }
  }

  lemma {:induction false} NoOpen(s: string)
    requires ':' !in s
    ensures FindOpen(s) == None
  {
    if |s| >= 2 { NoOpen(s[1..]); }
  }

  lemma FirstPiece(head: string, c: char, tail: string)
    requires c !in head
    ensures Split(head + [c] + tail, c) == [head] + Split(tail, c)
  {
    var s := head + [c] + tail;
    FindAfter(head, c, tail);
    assert s[..|head|] == head && s[|head| + 1..] == tail;
  }

  /** The text of an application breaks where its name does. */
  lemma TextBreaks(a: CustomApp, at: nat) returns (tail: string)
    requires at < |a.name| && a.name[at] == '\n'
    ensures AppText(a) == (IntText(a.appid) + ['~'] + a.name[..at]) + ['\n'] + tail
  {
    hide IntText, FeatureText;
    var list := if a.features == [] then "" else Join(PrintAll(FeatureText, a.features), ',');
    tail := a.name[at + 1..] + ":[" + list + "]";
    assert a.name == a.name[..at] + ['\n'] + a.name[at + 1..];
  }

  lemma BrokenFile(available: int -> bool, base: nat, apps: seq<CustomApp>, k: nat)
    requires k < |apps| && '\n' in apps[k].name && apps[k].appid >= 0 && !ForbiddenInName(apps[k].name)
    requires forall j :: 0 <= j < k ==> ValidApp(available, apps[..j], apps[j]) && '\n' !in apps[j].name
    ensures ReadFile(available, base, FileText(apps)) == None
  {
    hide ReadLine, ValidApp, AppText, IntText, Split, SortApps;
    var a, at := apps[k], Find(apps[k].name, '\n').value;
    var head := IntText(a.appid) + ['~'] + a.name[..at];
    var tail := TextBreaks(a, at);
    FileTextFrom(apps, k);
    assert apps[..0] == [] && apps[0..k] == apps[..k] && apps[k..][1..] == apps[k + 1..];
    var more := tail + ['\n'] + FileText(apps[k + 1..]);
    assert FileText(apps[k..]) == head + ['\n'] + more;
    ReadsPrefix(available, apps, k, 0, FileText(apps[k..]));
    IntTextLacks(a.appid, '\n');
    FirstPiece(head, '\n', more);
    NameParts(a.name, at);
    BrokenLine(available, apps[..k], a.appid, a.name[..at]);
  }

  lemma NameParts(name: string, at: nat)
    requires at <= |name| && !ForbiddenInName(name)
    ensures ':' !in name[..at]
  {
  }

  lemma {:induction false} FileTextFrom(apps: seq<CustomApp>, k: nat)
    requires k <= |apps|
    ensures FileText(apps) == FileText(apps[..k]) + FileText(apps[k..])
    decreases k
  {
    hide AppText;
    if k == 0 {
      assert apps[..0] == [] && apps[0..] == apps;
    } else {
      FileTextFrom(apps[1..], k - 1);
      assert apps[..k][1..] == apps[1..][..k - 1] && apps[1..][k - 1..] == apps[k..];
    }
  }

  // ---------- the whole way ----------

  ghost predicate OneLineNames(apps: seq<CustomApp>) {
    forall i :: 0 <= i < |apps| ==> '\n' !in apps[i].name
  }

  lemma StoredNames(available: int -> bool, apps: seq<CustomApp>)
    requires Submitted(available, apps) && Assign(apps, Explicit(apps)).Some?
    ensures OneLineNames(Stored(apps)) <==> OneLineNames(apps)
  {
    hide Assign, SortApps;
    var r, out := Assign(apps, Explicit(apps)).value, Stored(apps);
    SortMeaning(r);
    AssignMeaning(apps, Explicit(apps));
    forall i | 0 <= i < |r| ensures r[i].name == apps[i].name && r[i] in out {
      assert Turn(apps, Explicit(apps), r, i);
      assert r[i] in multiset(r) && r[i] in multiset(out);
    }
    forall k | 0 <= k < |out| ensures exists i :: 0 <= i < |apps| && apps[i].name == out[k].name {
      var i := StoredComesFrom(available, apps, k);
    }
    if OneLineNames(out) {
      forall i | 0 <= i < |apps| ensures '\n' !in apps[i].name {
        var k :| 0 <= k < |out| && out[k] == r[i];
      }
    }
  }

  /** A checked, allocated submission whose lines fit is read back from its file exactly when no name
      holds a line end; the check of names lets those through. */
  lemma SubmissionSurvivesIff(available: int -> bool, base: nat, apps: seq<CustomApp>)
    requires Submitted(available, apps) && SmallClasses(apps) && base + |apps| <= MAX_APPS
    requires Assign(apps, Explicit(apps)).Some? && AllFit(Stored(apps))
    ensures ReadFile(available, base, FileText(Stored(apps))) == Some(Stored(apps)) <==> OneLineNames(apps)
  {
    hide Assign, SortApps, ReadFile, FileText, ValidApp, AllFit, Submitted, SmallClasses;
    var out := Stored(apps);
    StoredSize(apps);
    StoredNames(available, apps);
    forall k | 0 <= k < |out| ensures ValidApp(available, out[..k], out[k]) { StoredIsValid(available, apps, k); }
    if OneLineNames(apps) {
      SortMeaning(Assign(apps, Explicit(apps)).value);
      FileRoundTrip(available, base, out);
    } else {
      var k := FirstBroken(out);
      ValidHasName(available, out[..k], out[k]);
      BrokenFile(available, base, out, k);
    }
  }

  lemma ValidHasName(available: int -> bool, earlier: seq<CustomApp>, a: CustomApp)
    requires ValidApp(available, earlier, a)
    ensures a.appid >= 0 && !ForbiddenInName(a.name)
  {
    hide ForbiddenInName;
  }

  lemma {:induction false} FirstBroken(apps: seq<CustomApp>) returns (k: nat)
    requires !OneLineNames(apps)
    ensures k < |apps| && '\n' in apps[k].name && forall j :: 0 <= j < k ==> '\n' !in apps[j].name
  {
    if '\n' in apps[0].name {
      k := 0;
    } else {
      assert forall i :: 0 <= i < |apps[1..]| ==> apps[1..][i] == apps[i + 1];
      k := FirstBroken(apps[1..]);
      k := k + 1;
      forall j | 0 <= j < k ensures '\n' !in apps[j].name {
        if j > 0 { assert apps[j] == apps[1..][j - 1]; }
      }
    }
  }
}
