/** The text form of custom applications: printing, parsing and the file as a whole. */
module CustomText {
  import opened Text
  import opened Strings
  import opened CustomApps

  const MAX_FEATURES := 16
  const MAX_PAYLOADS := 15
  const MAX_FEATURE_TEXT := 127
  const MAX_APP_LINE := 799
  const DOMAIN_ROOM := 31
  const URI_ROOM := 63
  const NAME_ROOM := 63
  const PORT_ROOM := 15
  const INT_MAX := 0x7fff_ffff
  const INT_MIN := -0x8000_0000

  // ---------- printing ----------

  function HexDigit(d: nat): char
    requires d < 16
  {
    if d < 10 then DigitChar(d) else ('a' as int + d - 10) as char
  }

  /** `%02x` of a byte. */
  function Hex2(v: nat): string
    requires v <= 0xff
  {
    [HexDigit(v / 16), HexDigit(v % 16)]
  }

  function PayloadText(p: Payload): string {
    if p.value <= 0xff then IntText(p.position) + [':'] + Hex2(p.value) else ""
  }

  function PayloadsText(ps: seq<Payload>): string {
    if ps == [] then "" else Join(PrintAll(PayloadText, ps), '|')
  }

  function FeatureFields(f: CustomFeature): seq<string> {
    [f.protocol, "", f.destPort, f.domain, f.uri, PayloadsText(f.payload)]
  }

  /** `feature_to_text`, before its length check. */
  function FeatureText(f: CustomFeature): string {
    Join(FeatureFields(f), ';')
  }

  /** `app_to_line`; it fails when a feature or the line is too long. */
  function AppText(a: CustomApp): string {
    IntText(a.appid) + ['~'] + a.name + ":[" +
    (if a.features == [] then "" else Join(PrintAll(FeatureText, a.features), ',')) + "]"
  }

  function AppLine(a: CustomApp): Option<string> {
    if (forall f :: f in a.features ==> |FeatureText(f)| <= MAX_FEATURE_TEXT) && |AppText(a)| <= MAX_APP_LINE
    then Some(AppText(a)) else None
  }

  // ---------- parsing ----------

  predicate IsHex(c: char) {
    IsDigit(c) || 'a' <= c <= 'f' || 'A' <= c <= 'F'
  }

  function HexValue(c: char): nat
    requires IsHex(c)
  {
    if IsDigit(c) then DigitValue(c)
    else if 'a' <= c <= 'f' then c as int - 'a' as int + 10
    else c as int - 'A' as int + 10
  }

  function ParsePayload(item: string): Option<Payload> {
    match Find(item, ':')
    case None => None
    case Some(i) =>
      var value := item[i + 1..];
      var (position, rest) := Strtol(item[..i]);
      if ':' in value || rest != "" || position < INT_MIN || position > INT_MAX then None
      else if |value| != 2 || !IsHex(value[0]) || !IsHex(value[1]) then None
      else Some(Payload(position, HexValue(value[0]) * 16 + HexValue(value[1])))
  }

  function ParsePayloads(text: string): Option<seq<Payload>> {
    if text == "" then Some([])
    else if text[|text| - 1] == '|' then None
    else
      var items := Split(text, '|');
      if |items| > MAX_PAYLOADS then None else ParseAll(ParsePayload, items)
  }

  /** Empty, one port, or an ascending range; the result is in canonical decimal. */
  function NormalizePort(text: string): Option<string> {
    if text == "" then Some("")
    else if |text| > PORT_ROOM then None
    else
      match Find(text, '-')
      case None =>
        (match ParseInt(text, 1, 65535)
         case None => None
         case Some(p) => Some(IntText(p)))
      case Some(i) =>
        var start, end := ParseInt(text[..i], 1, 65535), ParseInt(text[i + 1..], 1, 65535);
        if '-' in text[i + 1..] || start.None? || end.None? || start.value > end.value then None
        else Some(IntText(start.value) + ['-'] + IntText(end.value))
  }

  predicate Forbidden(text: string) {
    exists i :: 0 <= i < |text| &&
      (IsSpace(text[i]) || text[i] == ';' || text[i] == ',' || text[i] == '[' || text[i] == ']')
  }

  predicate ForbiddenInName(text: string) {
    exists i :: 0 <= i < |text| &&
      (text[i] == ':' || text[i] == '~' || text[i] == '[' || text[i] == ']' || text[i] == ';' || text[i] == ',')
  }

  function Lower(c: char): char {
    if 'A' <= c <= 'Z' then (c as int + 32) as char else c
  }

  function LowerAll(s: string): (r: string)
    ensures |r| == |s|
  {
    seq(|s|, i requires 0 <= i < |s| => Lower(s[i]))
  }

  /** `validate_feature` */
  function ValidateFeature(f: CustomFeature): Option<CustomFeature> {
    var port := NormalizePort(f.destPort);
    if f.protocol != "tcp" && f.protocol != "udp" then None
    else if port.None? then None
    else if |f.domain| > DOMAIN_ROOM || Forbidden(f.domain) then None
    else if |f.uri| > URI_ROOM || Forbidden(f.uri) then None
    else if port.value == "" && f.domain == "" && f.uri == "" && f.payload == [] then None
    else Some(f.(destPort := port.value))
  }

  /** `parse_feature_text` */
  function ParseFeature(text: string): Option<CustomFeature> {
    if text == "" || |text| > MAX_FEATURE_TEXT then None
    else
      var fields := Split(text, ';');
      if |fields| != 6 || fields[1] != "" || |fields[0]| != 3 then None
      else
        var port, payload := NormalizePort(fields[2]), ParsePayloads(fields[5]);
        if port.None? || |fields[3]| > DOMAIN_ROOM || |fields[4]| > URI_ROOM || payload.None? then None
        else ValidateFeature(CustomFeature(LowerAll(fields[0]), port.value, fields[3], fields[4], payload.value))
  }

  /** Where `:[` first occurs. */
  function FindOpen(s: string): (r: Option<nat>)
    ensures r.Some? ==> r.value + 2 <= |s| && s[r.value] == ':' && s[r.value + 1] == '['
  {
    if |s| < 2 then None
    else if s[0] == ':' && s[1] == '[' then Some(0)
    else match FindOpen(s[1..])
      case None => None
      case Some(i) => Some(i + 1)
  }

  /** `validate_app_identity` against the applications read before. */
  predicate GoodIdentity(available: int -> bool, earlier: seq<CustomApp>, a: CustomApp) {
    && available(a.classId)
    && 0 < |a.name| <= NAME_ROOM && !ForbiddenInName(a.name)
    && (a.appid != 0 ==> InClass(a.appid, a.classId))
    && forall e :: e in earlier ==> e.name != a.name && (a.appid != 0 ==> e.appid != a.appid)
  }

  function ParseHead(head: string): Option<CustomApp> {
    match Find(head, '~')
    case None => None
    case Some(t) =>
      var idText, name := Trim(head[..t]), Trim(head[t + 1..]);
      var (appid, rest) := Strtol(idText);
      if idText == "" || name == "" || appid <= 0 || appid > INT_MAX || Trim(rest) != "" || |name| > NAME_ROOM then None
      else Some(CustomApp(appid, appid / 1000, name, []))
  }

  function ParseFeatures(text: string): Option<seq<CustomFeature>> {
    if text == "" || text[|text| - 1] == ',' then None
    else
      var fields := Split(text, ',');
      if |fields| > MAX_FEATURES then None else ParseAll(ParseFeature, fields)
  }

  /** `parse_app_line` */
  function ParseApp(available: int -> bool, earlier: seq<CustomApp>, line: string): Option<CustomApp> {
    match FindOpen(line)
    case None => None
    case Some(open) =>
      var tail := line[open + 2..];
      if |line| > MAX_APP_LINE || tail == "" || tail[|tail| - 1] != ']' || |earlier| >= MAX_APPS then None
      else
        match ParseHead(line[..open])
        case None => None
        case Some(a) =>
          if !GoodIdentity(available, earlier, a) then None
          else
            match ParseFeatures(tail[..|tail| - 1])
            case None => None
            case Some(fs) => Some(a.(features := fs))
  }

  const MAX_APPS := 1024

  // ---------- what is valid ----------

  /** A port text is canonical when it is what normalizing gives. */
  ghost predicate ValidFeature(f: CustomFeature) {
    && (f.protocol == "tcp" || f.protocol == "udp")
    && NormalizePort(f.destPort) == Some(f.destPort)
    && |f.domain| <= DOMAIN_ROOM && !Forbidden(f.domain)
    && |f.uri| <= URI_ROOM && !Forbidden(f.uri)
    && !(f.destPort == "" && f.domain == "" && f.uri == "" && f.payload == [])
    && |f.payload| <= MAX_PAYLOADS
    && (forall p :: p in f.payload ==> INT_MIN <= p.position <= INT_MAX && p.value <= 0xff)
    && |FeatureText(f)| <= MAX_FEATURE_TEXT
  }

  ghost predicate ValidApp(available: int -> bool, earlier: seq<CustomApp>, a: CustomApp) {
    && 0 < a.appid <= INT_MAX && InClass(a.appid, a.classId)
    && Trimmed(a.name) && GoodIdentity(available, earlier, a) && |earlier| < MAX_APPS
    && 0 < |a.features| <= MAX_FEATURES
    && (forall f :: f in a.features ==> ValidFeature(f))
    && |AppText(a)| <= MAX_APP_LINE
  }
}
