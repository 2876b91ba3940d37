/** Printing an application and parsing the line gives the application back. */
module CustomRoundTrip {
  import opened Text
  import opened Strings
  import opened CustomApps
  import opened CustomText

  // ---------- which characters a printed text can hold ----------

  lemma IntTextLacks(i: int, c: char)
    requires !IsDigit(c) && c != '-'
    ensures c !in IntText(i)
  {
    DecIsDigits(if i < 0 then -i else i);
  }

  lemma {:induction false} JoinLacks(fields: seq<string>, c: char, d: char)
    requires fields != [] && d != c && forall i :: 0 <= i < |fields| ==> d !in fields[i]
    ensures d !in Join(fields, c)
    decreases |fields|
  {
    if |fields| > 1 { JoinLacks(fields[1..], c, d); }
  }

  lemma {:induction false} JoinLast(fields: seq<string>, c: char)
    requires fields != [] && fields[|fields| - 1] != ""
    ensures Join(fields, c) != ""
    ensures Join(fields, c)[|Join(fields, c)| - 1] == fields[|fields| - 1][|fields[|fields| - 1]| - 1]
    decreases |fields|
  {
    if |fields| > 1 { JoinLast(fields[1..], c); }
  }

  lemma {:induction false} JoinNotEmpty(fields: seq<string>, c: char)
    requires |fields| > 1
    ensures Join(fields, c) != ""
  {
  }

  // ---------- payload entries ----------

  lemma HexRoundTrip(v: nat)
    requires v <= 0xff
    ensures IsHex(Hex2(v)[0]) && IsHex(Hex2(v)[1]) && HexValue(Hex2(v)[0]) * 16 + HexValue(Hex2(v)[1]) == v
    ensures forall i :: 0 <= i < 2 ==> IsHex(Hex2(v)[i])
  {
    assert v == v / 16 * 16 + v % 16;
  }

  ghost predicate ValidPayload(p: Payload) {
    INT_MIN <= p.position <= INT_MAX && p.value <= 0xff
  }

  lemma PayloadRoundTrip(p: Payload)
    requires ValidPayload(p)
    ensures ParsePayload(PayloadText(p)) == Some(p)
  {
    hide IntText, Strtol, Find;
    var head, value := IntText(p.position), Hex2(p.value);
    var s := head + [':'] + value;
    assert PayloadText(p) == s;
    IntTextLacks(p.position, ':');
    FindAfter(head, ':', value);
    assert s[..|head|] == head && s[|head| + 1..] == value;
    StrtolReadsInt(p.position, "");
    assert head + "" == head;
    HexRoundTrip(p.value);
    assert value == [value[0], value[1]];
  }

  lemma PayloadTextLacks(p: Payload, c: char)
    requires ValidPayload(p) && !IsHex(c) && c != '-' && c != ':'
    ensures c !in PayloadText(p) && PayloadText(p) != ""
  {
    IntTextLacks(p.position, c);
    HexRoundTrip(p.value);
  }

  lemma PayloadsRoundTrip(ps: seq<Payload>)
    requires |ps| <= MAX_PAYLOADS && forall p :: p in ps ==> ValidPayload(p)
    ensures ParsePayloads(PayloadsText(ps)) == Some(ps)
  {
    if ps != [] {
      hide PayloadText, ParsePayload, Split, Join;
      var fields := PrintAll(PayloadText, ps);
      forall i | 0 <= i < |ps| ensures '|' !in fields[i] && fields[i] != "" && ParsePayload(fields[i]) == Some(ps[i]) {
        PayloadTextLacks(ps[i], '|');
        PayloadRoundTrip(ps[i]);
      }
      JoinLast(fields, '|');
      SplitsJoin(fields, '|');
      ParsesAll(ParsePayload, fields, ps);
    }
  }

  lemma PayloadsTextLacks(ps: seq<Payload>, c: char)
    requires forall p :: p in ps ==> ValidPayload(p)
    requires !IsHex(c) && c != '-' && c != ':' && c != '|'
    ensures c !in PayloadsText(ps)
  {
    if ps != [] {
      hide PayloadText;
      var fields := PrintAll(PayloadText, ps);
      forall i | 0 <= i < |ps| ensures c !in fields[i] { PayloadTextLacks(ps[i], c); }
      JoinLacks(fields, '|', c);
    }
  }

  // ---------- ports ----------

  /** What normalizing returns is made of digits and a dash. */
  lemma PortLacks(text: string, c: char)
    requires NormalizePort(text).Some? && !IsDigit(c) && c != '-'
    ensures c !in NormalizePort(text).value
  {
    if text != "" {
      match Find(text, '-')
      case None => IntTextLacks(ParseInt(text, 1, 65535).value, c);
      case Some(i) =>
        IntTextLacks(ParseInt(text[..i], 1, 65535).value, c);
        IntTextLacks(ParseInt(text[i + 1..], 1, 65535).value, c);
    }
  }

  lemma PortTextFits(p: int)
    requires 1 <= p <= 65535
    ensures 1 <= |IntText(p)| <= 5
  {
    assert Dec(p / 10000 % 10) == [DigitChar(p / 10000 % 10)];
    if p >= 10 { assert Dec(p) == Dec(p / 10) + [DigitChar(p % 10)]; }
    if p >= 100 { assert Dec(p / 10) == Dec(p / 10 / 10) + [DigitChar(p / 10 % 10)]; }
    if p >= 1000 { assert Dec(p / 10 / 10) == Dec(p / 10 / 10 / 10) + [DigitChar(p / 10 / 10 % 10)]; }
    if p >= 10000 { assert Dec(p / 10 / 10 / 10) == Dec(p / 10 / 10 / 10 / 10) + [DigitChar(p / 10 / 10 / 10 % 10)]; }
  }

  lemma OnePort(p: int)
    requires 1 <= p <= 65535
    ensures NormalizePort(IntText(p)) == Some(IntText(p))
  {
    hide Find, ParseInt;
    PortTextFits(p);
    DecIsDigits(p);
    assert '-' !in IntText(p);
    ParsesInt(p, 1, 65535);
  }

  lemma PortRange(a: int, b: int)
    requires 1 <= a <= b <= 65535
    ensures NormalizePort(IntText(a) + ['-'] + IntText(b)) == Some(IntText(a) + ['-'] + IntText(b))
  {
    hide Find, ParseInt;
    var s := IntText(a) + ['-'] + IntText(b);
    PortTextFits(a);
    PortTextFits(b);
    DecIsDigits(a);
    DecIsDigits(b);
    assert '-' !in IntText(a) && '-' !in IntText(b);
    FindAfter(IntText(a), '-', IntText(b));
    assert s[..|IntText(a)|] == IntText(a) && s[|IntText(a)| + 1..] == IntText(b);
    ParsesInt(a, 1, 65535);
    ParsesInt(b, 1, 65535);
  }

  /** Normalizing is settled after one pass. */
  lemma NormalizeIdempotent(text: string)
    requires NormalizePort(text).Some?
    ensures NormalizePort(NormalizePort(text).value) == NormalizePort(text)
  {
    hide ParseInt, IntText;
    if text != "" {
      match Find(text, '-')
      case None =>
        ParseIntBounds(text, 1, 65535);
        OnePort(ParseInt(text, 1, 65535).value);
      case Some(i) =>
        ParseIntBounds(text[..i], 1, 65535);
        ParseIntBounds(text[i + 1..], 1, 65535);
        PortRange(ParseInt(text[..i], 1, 65535).value, ParseInt(text[i + 1..], 1, 65535).value);
    }
  }

  lemma ParseIntBounds(s: string, lo: int, hi: int)
    ensures ParseInt(s, lo, hi).Some? ==> lo <= ParseInt(s, lo, hi).value <= hi
  {
  }

  // ---------- features ----------

  lemma FieldsLack(f: CustomFeature, c: char)
    requires ValidFeature(f) && (c == ';' || c == ',' || c == '\n')
    ensures forall i :: 0 <= i < 6 ==> c !in FeatureFields(f)[i]
  {
    hide NormalizePort, PayloadsText;
    PortLacks(f.destPort, c);
    forall p | p in f.payload ensures ValidPayload(p) {}
    PayloadsTextLacks(f.payload, c);
  }

  lemma LowerOfProtocol(s: string)
    requires s == "tcp" || s == "udp"
    ensures LowerAll(s) == s
  {
  }

  lemma FeatureRoundTrip(f: CustomFeature)
    requires ValidFeature(f)
    ensures ParseFeature(FeatureText(f)) == Some(f)
  {
    hide NormalizePort, PayloadsText, ParsePayloads, Split, Join, LowerAll, Forbidden;
    var fields := FeatureFields(f);
    FieldsLack(f, ';');
    JoinNotEmpty(fields, ';');
    SplitsJoin(fields, ';');
    LowerOfProtocol(f.protocol);
    forall p | p in f.payload ensures ValidPayload(p) {}
    PayloadsRoundTrip(f.payload);
  }

  lemma FeatureTextLacksComma(f: CustomFeature)
    requires ValidFeature(f)
    ensures ',' !in FeatureText(f) && FeatureText(f) != ""
  {
    FieldsLack(f, ',');
    JoinLacks(FeatureFields(f), ';', ',');
    JoinNotEmpty(FeatureFields(f), ';');
  }

  lemma FeaturesRoundTrip(fs: seq<CustomFeature>)
    requires 0 < |fs| <= MAX_FEATURES && forall f :: f in fs ==> ValidFeature(f)
    ensures ParseFeatures(Join(PrintAll(FeatureText, fs), ',')) == Some(fs)
  {
    hide FeatureText, ParseFeature, ValidFeature, Split, Join;
    var fields := PrintAll(FeatureText, fs);
    forall i | 0 <= i < |fs| ensures ',' !in fields[i] && fields[i] != "" && ParseFeature(fields[i]) == Some(fs[i]) {
      FeatureTextLacksComma(fs[i]);
      FeatureRoundTrip(fs[i]);
    }
    JoinLast(fields, ',');
    SplitsJoin(fields, ',');
    ParsesAll(ParseFeature, fields, fs);
  }

  // ---------- the line ----------

  lemma {:induction false} FindsOpen(head: string, tail: string)
    requires ':' !in head
    ensures FindOpen(head + ":[" + tail) == Some(|head|)
    decreases |head|
  {
    var s := head + ":[" + tail;
    if head != "" {
      assert s[1..] == head[1..] + ":[" + tail;
      FindsOpen(head[1..], tail);
    }
  }

  lemma HeadRoundTrip(a: CustomApp)
    requires 0 < a.appid <= INT_MAX && InClass(a.appid, a.classId)
    requires Trimmed(a.name) && 0 < |a.name| <= NAME_ROOM
    ensures ParseHead(IntText(a.appid) + ['~'] + a.name) == Some(a.(features := []))
  {
    hide Find, Strtol, Trim;
    var id := IntText(a.appid);
    var head := id + ['~'] + a.name;
    IntTextLacks(a.appid, '~');
    FindAfter(id, '~', a.name);
    assert head[..|id|] == id && head[|id| + 1..] == a.name;
    DecIsDigits(a.appid);
    TrimLeavesTrimmed(id);
    TrimLeavesTrimmed(a.name);
    TrimLeavesTrimmed("");
    StrtolReadsInt(a.appid, "");
    assert id + "" == id;
    assert a.appid / 1000 == a.classId;
  }

  lemma NameLacksColon(name: string)
    requires !ForbiddenInName(name)
    ensures ':' !in name
  {
  }

  /** Parsing the line of a valid application gives it back: class from the id, ports
      canonical, payload in order. */
  lemma AppRoundTrip(available: int -> bool, earlier: seq<CustomApp>, a: CustomApp)
    requires ValidApp(available, earlier, a)
    ensures AppLine(a).Some?
    ensures ParseApp(available, earlier, AppLine(a).value) == Some(a)
  {
    hide IntText, FeatureText, Join, FindOpen, ParseHead, ParseFeatures, ValidFeature, ForbiddenInName;
    var head, body := IntText(a.appid) + ['~'] + a.name, Join(PrintAll(FeatureText, a.features), ',');
    var line, tail := AppText(a), body + "]";
    assert line == head + ":[" + tail;
    forall f | f in a.features ensures |FeatureText(f)| <= MAX_FEATURE_TEXT { FeatureFits(f); }
    IntTextLacks(a.appid, ':');
    NameLacksColon(a.name);
    FindsOpen(head, tail);
    assert line[..|head|] == head && line[|head| + 2..] == tail;
    assert tail[..|tail| - 1] == body;
    HeadRoundTrip(a);
    FeaturesRoundTrip(a.features);
  }

  lemma FeatureFits(f: CustomFeature)
    requires ValidFeature(f)
    ensures |FeatureText(f)| <= MAX_FEATURE_TEXT
  {
  }
}
