/** The kernel module's JSON trees: how they are printed and how text is parsed back. */
module Json {
  import opened Text
  import opened Strings

  const INT_MAX := 0x7fff_ffff

  datatype Value =
    | Null
    | False
    | True
    | Number(number: int)
    | Text(text: string)
    | Array(items: seq<Value>)
    | Object(members: seq<Member>)

  datatype Member = Member(key: string, value: Value)

  // ---------- printing ----------

  /** A control character without an escape of its own is dropped. */
  function Quoted(c: char): string {
    if c == '\\' then "\\\\"
    else if c == '\"' then "\\\""
    else if c > 31 as char then [c]
    else if c == 8 as char then "\\b"
    else if c == 12 as char then "\\f"
    else if c == '\n' then "\\n"
    else if c == '\r' then "\\r"
    else if c == '\t' then "\\t"
    else ""
  }

  function QuotedAll(s: string): string {
    if s == "" then "" else Quoted(s[0]) + QuotedAll(s[1..])
  }

  function Quote(s: string): string {
    "\"" + QuotedAll(s) + "\""
  }

  method PrintString(s: string) returns (r: string)
    ensures r == Quote(s)
  {
    hide QuotedAll;
    NothingQuoted();
    r := "\"";
    var i := 0;
    while i < |s|
      invariant 0 <= i <= |s| && r + QuotedAll(s[i..]) + "\"" == "\"" + QuotedAll(s) + "\""
    {
      var c := s[i];
      var piece;
      if c > 31 as char && c != '\"' && c != '\\' {
        piece := [c];
      } else if c == '\\' {
        piece := "\\\\";
      } else if c == '\"' {
        piece := "\\\"";
      } else if c == 8 as char {
        piece := "\\b";
      } else if c == 12 as char {
        piece := "\\f";
      } else if c == '\n' {
        piece := "\\n";
      } else if c == '\r' {
        piece := "\\r";
      } else if c == '\t' {
        piece := "\\t";
      } else {
        piece := "";
      }
      assert piece == Quoted(c);
      QuotesNext(r, s, i);
      r := r + piece;
      i := i + 1;
    }
    assert s[i..] == "" && r + "" + "\"" == r + "\"";
    r := r + "\"";
  }

  lemma NothingQuoted()
    ensures QuotedAll("") == ""
  {
  }

  lemma QuotesNext(r: string, s: string, i: nat)
    requires i < |s|
    ensures r + QuotedAll(s[i..]) + "\"" == r + Quoted(s[i]) + QuotedAll(s[i + 1..]) + "\""
  {
    hide Quoted;
    assert s[i..][1..] == s[i + 1..];
  }

  /** The text of a child is used as a format: `%%` prints one `%`, any other directive has no argument. */
  function Formatted(s: string): Option<string> {
    if s == "" then Some("")
    else if s[0] != '%' then
      match Formatted(s[1..])
      case None => None
      case Some(r) => Some([s[0]] + r)
    else if |s| > 1 && s[1] == '%' then
      match Formatted(s[2..])
      case None => None
      case Some(r) => Some("%" + r)
    else None
  }

  function Tabs(n: nat): (r: string)
    ensures |r| == n && forall i :: 0 <= i < n ==> r[i] == '\t'
  {
    seq(n, _ => '\t')
  }

  /** The text of a value; it is undefined when a child's text is not a plain format. */
  function Printed(v: Value, depth: nat): Option<string>
    decreases v
  {
    match v
    case Null => Some("null")
    case False => Some("false")
    case True => Some("true")
    case Number(n) => Some(IntText(n))
    case Text(s) => Some(Quote(s))
    case Array(items) =>
      (match PrintedItems(items, depth + 1)
       case None => None
       case Some(r) => Some("[" + r + "]"))
    case Object(members) =>
      match PrintedMembers(members, depth + 1)
      case None => None
      case Some(r) => Some("{\n" + r + (Tabs(depth) + "}"))
  }

  function PrintedItems(items: seq<Value>, depth: nat): Option<string>
    decreases items
  {
    if items == [] then Some("")
    else
      var first := Child(Printed(items[0], depth));
      var rest := PrintedItems(items[1..], depth);
      if first.None? || rest.None? then None
      else Some(first.value + (if |items| > 1 then ", " else "") + rest.value)
  }

  function PrintedMembers(members: seq<Member>, depth: nat): Option<string>
    decreases members
  {
    if members == [] then Some("")
    else
      var key := Formatted(Quote(members[0].key));
      var value := Child(Printed(members[0].value, depth));
      var rest := PrintedMembers(members[1..], depth);
      if key.None? || value.None? || rest.None? then None
      else
        Some(Tabs(depth) + key.value + ":\t" + value.value + (if |members| > 1 then "," else "") + "\n" + rest.value)
  }

  function Child(text: Option<string>): Option<string> {
    match text
    case None => None
    case Some(s) => Formatted(s)
  }

  method PrintValue(v: Value, depth: nat) returns (r: Option<string>)
    ensures r == Printed(v, depth)
    decreases v, 1
  {
    match v
    case Null => return Some("null");
    case False => return Some("false");
    case True => return Some("true");
    case Number(n) => return Some(IntText(n));
    case Text(s) =>
      var text := PrintString(s);
      return Some(text);
    case Array(items) => r := PrintArray(items, depth);
    case Object(members) => r := PrintObject(members, depth);
  }

  method PrintArray(items: seq<Value>, depth: nat) returns (r: Option<string>)
    ensures r == Printed(Array(items), depth)
    decreases items
  {
    var out := "[";
    var i := 0;
    while i < |items|
      invariant 0 <= i <= |items|
      invariant Printed(Array(items), depth) == Closed(out, PrintedItems(items[i..], depth + 1), "]")
    {
      assert items[i..][1..] == items[i + 1..];
      var text := PrintValue(items[i], depth + 1);
      if text.None? { return None; }
      var formatted := Formatted(text.value);
      if formatted.None? { return None; }
      ghost var before := out;
      ghost var piece := formatted.value + if i + 1 < |items| then ", " else "";
      ClosedJoins(out, piece, PrintedItems(items[i + 1..], depth + 1), "]");
      out := out + formatted.value;
      if i + 1 < |items| { out := out + ", "; }
      assert out == before + piece;
      i := i + 1;
    }
    ClosedEnds(out, "]");
    r := Some(out + "]");
  }

  method PrintObject(members: seq<Member>, depth: nat) returns (r: Option<string>)
    ensures r == Printed(Object(members), depth)
    decreases members
  {
    hide Quote, Formatted, Tabs;
    var out := "{\n";
    var i := 0;
    while i < |members|
      invariant 0 <= i <= |members|
      invariant Printed(Object(members), depth) ==
                Closed(out, PrintedMembers(members[i..], depth + 1), Tabs(depth) + "}")
    {
      assert members[i..][1..] == members[i + 1..];
      var key := PrintString(members[i].key);
      var text := PrintValue(members[i].value, depth + 1);
      if text.None? { return None; }
      var formattedKey, formatted := Formatted(key), Formatted(text.value);
      if formattedKey.None? || formatted.None? { return None; }
      ghost var before := out;
      ghost var piece := Tabs(depth + 1) + formattedKey.value + ":\t" + formatted.value +
                         (if i + 1 < |members| then "," else "") + "\n";
      ClosedJoins(out, piece, PrintedMembers(members[i + 1..], depth + 1), Tabs(depth) + "}");
      out := out + Tabs(depth + 1) + formattedKey.value + ":\t" + formatted.value;
      if i + 1 < |members| { out := out + ","; }
      out := out + "\n";
      assert out == before + piece;
      i := i + 1;
    }
    ClosedEnds(out, Tabs(depth) + "}");
    assert out + Tabs(depth) + "}" == out + (Tabs(depth) + "}");
    r := Some(out + Tabs(depth) + "}");
  }

  ghost function Closed(out: string, rest: Option<string>, end: string): Option<string> {
    match rest
    case None => None
    case Some(r) => Some(out + r + end)
  }

  lemma ClosedJoins(out: string, piece: string, rest: Option<string>, end: string)
    ensures Closed(out + piece, rest, end) ==
            match rest
            case None => None
            case Some(r) => Closed(out, Some(piece + r), end)
  {
    if rest.Some? { assert out + piece + rest.value + end == out + (piece + rest.value) + end; }
  }

  lemma ClosedEnds(out: string, end: string)
    ensures Closed(out, Some(""), end) == Some(out + end)
  {
    assert out + "" == out;
  }

  // ---------- parsing ----------

  /** Where a parse of some text ends: a result and what follows it, a refusal, or something C or this
      model leaves open. */
  datatype Outcome<T> = Done(result: T, rest: string) | Refused | Unspecified

  /** White space is skipped without looking for the end of the text. */
  function Skip(s: string): (r: Option<string>)
    ensures r.Some? ==> |r.value| <= |s| && r.value != "" && r.value[0] > ' '
  {
    if s == "" then None else if s[0] <= ' ' then Skip(s[1..]) else Some(s)
  }

  /** A number that does not fit its 32 bits overflows. */
  function Digits(s: string, n: nat): (r: Outcome<int>)
    ensures r.Done? ==> |r.rest| <= |s|
  {
    if s == "" || !IsDigit(s[0]) then Done(n, s)
    else
      var next := n * 10 + DigitValue(s[0]);
      if next > INT_MAX then Unspecified else Digits(s[1..], next)
  }

  function AfterZero(s: string): string {
    if s != "" && s[0] == '0' then s[1..] else s
  }

  /** The sign is read and then ignored. */
  function ParsedNumber(s: string): (r: Outcome<Value>)
    requires s != "" && (s[0] == '-' || IsDigit(s[0]))
    ensures r.Done? ==> |r.rest| < |s|
  {
    var t := AfterZero(if s[0] == '-' then s[1..] else s);
    if t != "" && '1' <= t[0] <= '9' then
      match Digits(t[1..], DigitValue(t[0]))
      case Done(n, rest) => Done(Number(n), rest)
      case _ => Unspecified
    else Done(Number(0), t)
  }

  /** The character a backslash and `c` stand for, apart from `\u`. */
  function Unescaped(c: char): char {
    match c
    case 'b' => 8 as char
    case 'f' => 12 as char
    case 'n' => '\n'
    case 'r' => '\r'
    case 't' => '\t'
    case _ => c
  }

  /** A string ends at its quote, and also at a control character or the end of the text. */
  function Chars(s: string, out: string): (r: Outcome<string>)
    ensures r.Done? ==> |r.rest| <= |s|
    decreases |s|
  {
    if s == "" || s[0] <= 31 as char then Done(out, s)
    else if s[0] == '\"' then Done(out, s[1..])
    else if s[0] != '\\' then Chars(s[1..], out + [s[0]])
    else if |s| < 2 || s[1] == 'u' then Unspecified
    else Chars(s[2..], out + [Unescaped(s[1])])
  }

  function ParsedString(s: string): (r: Outcome<string>)
    ensures r.Done? ==> |r.rest| < |s|
  {
    if s == "" || s[0] != '\"' then Refused else Chars(s[1..], "")
  }

  function ParsedValue(s: string): (r: Outcome<Value>)
    ensures r.Done? ==> |r.rest| < |s|
    decreases |s|, 2
  {
    if "null" <= s then Done(Null, s[4..])
    else if "false" <= s then Done(False, s[5..])
    else if "true" <= s then Done(True, s[4..])
    else if s == "" then Refused
    else if s[0] == '\"' then
      match ParsedString(s)
      case Done(t, rest) => Done(Text(t), rest)
      case Refused => Refused
      case Unspecified => Unspecified
    else if s[0] == '-' || IsDigit(s[0]) then ParsedNumber(s)
    else if s[0] == '[' then
      match Skip(s[1..])
      case None => Unspecified
      case Some(t) => if t[0] == ']' then Done(Array([]), t[1..]) else ParsedItems(t, [])
    else if s[0] == '{' then
      match Skip(s[1..])
      case None => Unspecified
      case Some(t) => if t[0] == '}' then Done(Object([]), t[1..]) else ParsedMembers(t, [])
    else Refused
  }

  /** From the first character of an item, after the items `acc`. */
  function ParsedItems(s: string, acc: seq<Value>): (r: Outcome<Value>)
    ensures r.Done? ==> |r.rest| < |s|
    decreases |s|, 3
  {
    match ParsedValue(s)
    case Refused => Refused
    case Unspecified => Unspecified
    case Done(v, after) => MoreItems(Skip(after), |s|, acc + [v])
  }

  function MoreItems(s: Option<string>, bound: nat, acc: seq<Value>): (r: Outcome<Value>)
    requires s.Some? ==> s.value != "" && |s.value| < bound
    ensures r.Done? ==> |r.rest| < bound
    decreases bound, 0
  {
    if s.None? then Unspecified
    else if s.value[0] == ',' then
      match Skip(s.value[1..])
      case None => Unspecified
      case Some(t) => ParsedItems(t, acc)
    else if s.value[0] == ']' then Done(Array(acc), s.value[1..])
    else Refused
  }

  /** From the first character of a key, after the members `acc`. */
  function ParsedMembers(s: string, acc: seq<Member>): (r: Outcome<Value>)
    ensures r.Done? ==> |r.rest| < |s|
    decreases |s|, 3
  {
    match ParsedMember(s)
    case Refused => Refused
    case Unspecified => Unspecified
    case Done(m, after) => MoreMembers(Skip(after), |s|, acc + [m])
  }

  function ParsedMember(s: string): (r: Outcome<Member>)
    ensures r.Done? ==> |r.rest| < |s|
    decreases |s|, 1
  {
    match ParsedString(s)
    case Refused => Refused
    case Unspecified => Unspecified
    case Done(key, after) =>
      match Skip(after)
      case None => Unspecified
      case Some(t) =>
        if t[0] != ':' then Refused
        else
          match Skip(t[1..])
          case None => Unspecified
          case Some(u) =>
            match ParsedValue(u)
            case Refused => Refused
            case Unspecified => Unspecified
            case Done(v, rest) => Done(Member(key, v), rest)
  }

  function MoreMembers(s: Option<string>, bound: nat, acc: seq<Member>): (r: Outcome<Value>)
    requires s.Some? ==> s.value != "" && |s.value| < bound
    ensures r.Done? ==> |r.rest| < bound
    decreases bound, 0
  {
    if s.None? then Unspecified
    else if s.value[0] == ',' then
      match Skip(s.value[1..])
      case None => Unspecified
      case Some(t) => ParsedMembers(t, acc)
    else if s.value[0] == '}' then Done(Object(acc), s.value[1..])
    else Refused
  }

  /** What follows the value is not looked at. */
  function Parsed(s: string): Outcome<Value> {
    match Skip(s)
    case None => Unspecified
    case Some(t) => ParsedValue(t)
  }

  method SkipBlanks(s: string) returns (r: Option<string>)
    ensures r == Skip(s)
  {
    var p := s;
    while p != "" && p[0] <= ' '
      invariant Skip(p) == Skip(s)
      decreases |p|
    {
      p := p[1..];
    }
    r := if p == "" then None else Some(p);
  }

  method ParseNumber(s: string) returns (r: Outcome<Value>)
    requires s != "" && (s[0] == '-' || IsDigit(s[0]))
    ensures r == ParsedNumber(s)
  {
    var p, n: int := s, 0;
    if p[0] == '-' { p := p[1..]; }
    if p != "" && p[0] == '0' { p := p[1..]; }
    if p != "" && '1' <= p[0] <= '9' {
      n, p := DigitValue(p[0]), p[1..];
      while p != "" && IsDigit(p[0])
        invariant n >= 0
        invariant ParsedNumber(s) == (match Digits(p, n)
                                      case Done(m, rest) => Done(Number(m), rest)
                                      case _ => Unspecified)
        decreases |p|
      {
        if n * 10 + DigitValue(p[0]) > INT_MAX { return Unspecified; }
        n, p := n * 10 + DigitValue(p[0]), p[1..];
      }
    }
    r := Done(Number(n), p);
  }

  method ParseString(s: string) returns (r: Outcome<string>)
    ensures r == ParsedString(s)
  {
    if s == "" || s[0] != '\"' { return Refused; }
    var p, out := s[1..], "";
    while p != "" && p[0] != '\"' && p[0] > 31 as char
      invariant Chars(p, out) == ParsedString(s)
      decreases |p|
    {
      if p[0] != '\\' {
        out, p := out + [p[0]], p[1..];
      } else if |p| < 2 || p[1] == 'u' {
        return Unspecified;
      } else {
        out, p := out + [Unescaped(p[1])], p[2..];
      }
    }
    r := Done(out, if p != "" && p[0] == '\"' then p[1..] else p);
  }

  method ParseValue(s: string) returns (r: Outcome<Value>)
    ensures r == ParsedValue(s)
    decreases |s|, 2
  {
    if "null" <= s { return Done(Null, s[4..]); }
    if "false" <= s { return Done(False, s[5..]); }
    if "true" <= s { return Done(True, s[4..]); }
    if s == "" { return Refused; }
    if s[0] == '\"' {
      var text := ParseString(s);
      match text
      case Done(t, rest) => return Done(Text(t), rest);
      case Refused => return Refused;
      case Unspecified => return Unspecified;
    }
    if s[0] == '-' || IsDigit(s[0]) {
      r := ParseNumber(s);
      return;
    }
    if s[0] == '[' {
      r := ParseArray(s);
      return;
    }
    if s[0] == '{' {
      r := ParseObject(s);
      return;
    }
    r := Refused;
  }

  method ParseArray(s: string) returns (r: Outcome<Value>)
    requires s != "" && s[0] == '['
    ensures r == ParsedValue(s)
    decreases |s|, 1
  {
    var p := SkipBlanks(s[1..]);
    if p.None? { return Unspecified; }
    if p.value[0] == ']' { return Done(Array([]), p.value[1..]); }
    var items := [];
    var more := true;
    while more
      invariant p.Some? && |p.value| < |s| && p.value != ""
      invariant more ==> ParsedItems(p.value, items) == ParsedValue(s)
      invariant !more ==> p.value[0] != ',' && MoreItems(p, |s|, items) == ParsedValue(s)
      decreases more, |p.value|
    {
      var value := ParseValue(p.value);
      if value.Refused? { return Refused; }
      if value.Unspecified? { return Unspecified; }
      ghost var was := p.value;
      p := SkipBlanks(value.rest);
      if p.None? { return Unspecified; }
      items := items + [value.result];
      more := p.value[0] == ',';
      if more {
        p := SkipBlanks(p.value[1..]);
        if p.None? { return Unspecified; }
      }
    }
    if p.value[0] == ']' { return Done(Array(items), p.value[1..]); }
    r := Refused;
  }

  method ParseObject(s: string) returns (r: Outcome<Value>)
    requires s != "" && s[0] == '{'
    ensures r == ParsedValue(s)
    decreases |s|, 1
  {
    var p := SkipBlanks(s[1..]);
    if p.None? { return Unspecified; }
    if p.value[0] == '}' { return Done(Object([]), p.value[1..]); }
    var members := [];
    var more := true;
    while more
      invariant p.Some? && |p.value| < |s| && p.value != ""
      invariant more ==> ParsedMembers(p.value, members) == ParsedValue(s)
      invariant !more ==> p.value[0] != ',' && MoreMembers(p, |s|, members) == ParsedValue(s)
      decreases more, |p.value|
    {
      var key := ParseString(p.value);
      if key.Refused? { return Refused; }
      if key.Unspecified? { return Unspecified; }
      p := SkipBlanks(key.rest);
      if p.None? { return Unspecified; }
      if p.value[0] != ':' { return Refused; }
      p := SkipBlanks(p.value[1..]);
      if p.None? { return Unspecified; }
      var value := ParseValue(p.value);
      if value.Refused? { return Refused; }
      if value.Unspecified? { return Unspecified; }
      p := SkipBlanks(value.rest);
      if p.None? { return Unspecified; }
      members := members + [Member(key.result, value.result)];
      more := p.value[0] == ',';
      if more {
        p := SkipBlanks(p.value[1..]);
        if p.None? { return Unspecified; }
      }
    }
    if p.value[0] == '}' { return Done(Object(members), p.value[1..]); }
    r := Refused;
  }

  method Parse(s: string) returns (r: Outcome<Value>)
    ensures r == Parsed(s)
  {
    var p := SkipBlanks(s);
    if p.None? { return Unspecified; }
    r := ParseValue(p.value);
  }
}
