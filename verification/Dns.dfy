/** The question section of a DNS query (sections 3.1 and 4.1.2 of RFC 1035). */
module Dns {
  import opened Text

  type byte = x: nat | x < 256 witness 0

  const HEADER := 12
  const TCP_PREFIX := 2
  /** Room for a name, its terminator not counted. */
  const NAME_ROOM := 127
  const MAX_QUERIES := 16
  const DNS_PORT := 53
  const TCP := 6
  const UDP := 17

  function Lower(c: byte): char {
    (if 0x41 <= c <= 0x5a then c + 32 else c) as char
  }

  function LowerLabel(part: seq<byte>): (s: string)
    ensures |s| == |part|
  {
    seq(|part|, i requires 0 <= i < |part| => Lower(part[i]))
  }

  datatype Question = Question(name: string, qtype: nat, next: nat)

  function Dot(out: string): string {
    if out == "" then "" else out + "."
  }

  function Big16(hi: byte, lo: byte): nat {
    256 * (hi as int) + (lo as int)
  }

  /** Reads labels off the front; stops behind the empty one or at the end of the data. */
  function ReadLabels(s: seq<byte>, out: string): Option<(string, seq<byte>)>
    decreases |s|
  {
    if s == [] then Some((out, []))
    else
      var len: nat := s[0];
      if len == 0 then Some((out, s[1..]))
      else if len > 63 || 1 + len > |s| then None
      else
        var longer := Dot(out) + LowerLabel(s[1..1 + len]);
        if |longer| > NAME_ROOM then None else ReadLabels(s[1 + len..], longer)
  }

  lemma {:induction false} ReadLabelsShrinks(s: seq<byte>, out: string)
    ensures ReadLabels(s, out).Some? ==> |ReadLabels(s, out).value.1| <= |s|
    decreases |s|
  {
    if s != [] && 0 < s[0] <= 63 && 1 + s[0] as int <= |s| {
      ReadLabelsShrinks(s[1 + s[0] as int..], Dot(out) + LowerLabel(s[1..1 + s[0] as int]));
    }
  }

  function ParseQuestion(p: seq<byte>, offset: nat): Option<Question> {
    if offset < HEADER || |p| <= HEADER || offset >= |p| then None
    else
      match ReadLabels(p[offset..], "")
      case None => None
      case Some(r) =>
        ReadLabelsShrinks(p[offset..], "");
        if r.0 == "" || |r.1| < 4 then None
        else Some(Question(r.0, Big16(r.1[0], r.1[1]), |p| - |r.1| + 4))
  }

  method AppendLabel(p: seq<byte>, offset: nat, len: nat, start: string) returns (r: Option<string>)
    requires 0 < len && offset + len <= |p| && |start| <= NAME_ROOM
    ensures r == var longer := Dot(start) + LowerLabel(p[offset..offset + len]);
                 if |longer| > NAME_ROOM then None else Some(longer)
  {
    hide LowerLabel, Lower;
    var out := start;
    if |out| > 0 {
      if |out| >= NAME_ROOM { return None; }
      out := out + ['.'];
    }
    var i := 0;
    while i < len
      invariant 0 <= i <= len && |out| <= NAME_ROOM
      invariant out == Dot(start) + LowerLabel(p[offset..offset + i])
    {
      LowerGrows(p, offset, i, len);
      if |out| >= NAME_ROOM { return None; }
      out := out + [Lower(p[offset + i])];
      i := i + 1;
    }
    return Some(out);
  }

  lemma LowerGrows(p: seq<byte>, offset: nat, i: nat, len: nat)
    requires i < len && offset + len <= |p|
    ensures LowerLabel(p[offset..offset + i + 1]) == LowerLabel(p[offset..offset + i]) + [Lower(p[offset + i])]
    ensures |LowerLabel(p[offset..offset + len])| == len && |LowerLabel(p[offset..offset + i])| == i
  {
    hide Lower;
    assert p[offset..offset + i + 1] == p[offset..offset + i] + [p[offset + i]];
  }

  /** One turn of the reading loop. */
  lemma ReadStep(p: seq<byte>, offset: nat, out: string)
    requires offset < |p|
    ensures var len: nat := p[offset];
            var at := offset + 1;
            ReadLabels(p[offset..], out) ==
            if len == 0 then Some((out, p[at..]))
            else if len > 63 || at + len > |p| then None
            else
              var longer := Dot(out) + LowerLabel(p[at..at + len]);
              if |longer| > NAME_ROOM then None else ReadLabels(p[at + len..], longer)
  {
    hide LowerLabel, Dot;
    var here, len := p[offset..], p[offset] as nat;
    assert here[1..] == p[offset + 1..];
    if 1 + len <= |here| {
      assert here[1..1 + len] == p[offset + 1..offset + 1 + len] && here[1 + len..] == p[offset + 1 + len..];
    }
  }

  lemma ReadEnd(p: seq<byte>, out: string)
    ensures ReadLabels(p[|p|..], out) == Some((out, p[|p|..]))
  {
    assert p[|p|..] == [];
  }

  /** `af_parse_dns_query_name` */
  method ParseQueryName(p: seq<byte>, queryOffset: nat) returns (r: Option<Question>)
    ensures r == ParseQuestion(p, queryOffset)
  {
    hide LowerLabel, Dot, ReadLabels;
    if queryOffset < HEADER || |p| <= HEADER || queryOffset >= |p| { return None; }
    var offset := queryOffset;
    var out := "";
    ghost var all := ReadLabels(p[queryOffset..], "");
    while offset < |p|
      invariant offset <= |p| && |out| <= NAME_ROOM
      invariant all == ReadLabels(p[offset..], out)
      decreases |p| - offset
    {
      var len: nat := p[offset];
      ReadStep(p, offset, out);
      offset := offset + 1;
      if len == 0 {
        ghost var done := p[offset..];
        assert all == Some((out, done));
        break;
      }
      if len >= 0x40 { return None; }
      if len > 63 || offset + len > |p| { return None; }
      var longer := AppendLabel(p, offset, len, out);
      if longer.None? { return None; }
      out := longer.value;
      offset := offset + len;
    }
    if offset == |p| { ReadEnd(p, out); }
    assert all == Some((out, p[offset..]));
    if |out| <= 0 || offset + 4 > |p| { return None; }
    return Some(Question(out, Big16(p[offset], p[offset + 1]), offset + 4));
  }

  // ---------- encodings ----------

  ghost predicate ValidLabels(labels: seq<seq<byte>>) {
    forall i :: 0 <= i < |labels| ==> 0 < |labels[i]| <= 63
  }

  /** Section 3.1: each label behind its length, then the empty label. */
  function Encode(labels: seq<seq<byte>>): seq<byte>
    requires ValidLabels(labels)
  {
    if labels == [] then [0] else [|labels[0]|] + labels[0] + Encode(labels[1..])
  }

  /** The dotted name, lower-cased, behind what was read before. */
  function Dotted(out: string, labels: seq<seq<byte>>): string
    decreases |labels|
  {
    if labels == [] then out else Dotted(Dot(out) + LowerLabel(labels[0]), labels[1..])
  }

  lemma {:induction false} DottedGrows(out: string, labels: seq<seq<byte>>)
    ensures |out| <= |Dotted(out, labels)|
    decreases |labels|
  {
    if labels != [] { DottedGrows(Dot(out) + LowerLabel(labels[0]), labels[1..]); }
  }

  lemma {:induction false} ReadsEncoding(s: seq<byte>, out: string, labels: seq<seq<byte>>, rest: seq<byte>)
    requires ValidLabels(labels) && s == Encode(labels) + rest && |out| <= NAME_ROOM
    ensures ReadLabels(s, out) == if |Dotted(out, labels)| > NAME_ROOM then None else Some((Dotted(out, labels), rest))
    decreases |labels|
  {
    hide LowerLabel;
    if labels == [] {
      assert s[0] == 0 && s[1..] == rest;
    } else {
      var head, tail := labels[0], Encode(labels[1..]) + rest;
      assert s == [|head|] + head + tail;
      assert s[1..1 + |head|] == head && s[1 + |head|..] == tail;
      var longer := Dot(out) + LowerLabel(head);
      DottedGrows(longer, labels[1..]);
      if |longer| <= NAME_ROOM { ReadsEncoding(tail, longer, labels[1..], rest); }
    }
  }

  lemma JoinEncoding(s: seq<byte>, head: seq<byte>, more: seq<byte>, rest: seq<byte>)
    requires 0 < |head| <= 63 && 1 + |head| <= |s| && s[0] as int == |head|
    requires s[1..1 + |head|] == head && s[1 + |head|..] == more + rest
    ensures s == ([|head|] + head + more) + rest
  {
    assert s == [s[0]] + s[1..1 + |head|] + s[1 + |head|..];
  }

  /** The labels a reader that ended behind an empty label has seen. */
  lemma {:induction false} ReadMeansEncoding(s: seq<byte>, out: string) returns (labels: seq<seq<byte>>)
    requires ReadLabels(s, out).Some? && ReadLabels(s, out).value.1 != []
    ensures ValidLabels(labels) && s == Encode(labels) + ReadLabels(s, out).value.1
    decreases |s|
  {
    hide LowerLabel, Dot;
    var n: nat := s[0];
    if n == 0 {
      labels := [];
      assert s == [0] + s[1..];
    } else {
      var head, tail := s[1..1 + n], s[1 + n..];
      var more := ReadMeansEncoding(tail, Dot(out) + LowerLabel(head));
      labels := [head] + more;
      assert labels[0] == head && labels[1..] == more;
      JoinEncoding(s, head, Encode(more), ReadLabels(s, out).value.1);
    }
  }

  ghost predicate EncodesQuestion(p: seq<byte>, offset: nat, labels: seq<seq<byte>>, rest: seq<byte>, q: Question)
    requires offset <= |p|
  {
    && labels != [] && ValidLabels(labels) && p[offset..] == Encode(labels) + rest && |rest| >= 4
    && |Dotted("", labels)| <= NAME_ROOM
    && q == Question(Dotted("", labels), Big16(rest[0], rest[1]), offset + |Encode(labels)| + 4)
  }

  /** A question is accepted exactly when it is an encoded name of up to 127 characters with
      room for type and class behind it; then name, type and end are those of the encoding. */
  lemma QuestionMeaning(p: seq<byte>, offset: nat, q: Question)
    requires HEADER <= offset < |p|
    ensures ParseQuestion(p, offset) == Some(q) <==> exists labels, rest :: EncodesQuestion(p, offset, labels, rest, q)
  {
    hide ReadLabels, Encode, Dotted;
    if ParseQuestion(p, offset) == Some(q) {
      var rest := ReadLabels(p[offset..], "").value.1;
      var labels := ReadMeansEncoding(p[offset..], "");
      ReadsEncoding(p[offset..], "", labels, rest);
      DottedEmpty(labels);
      assert EncodesQuestion(p, offset, labels, rest, q);
    }
    forall labels, rest | EncodesQuestion(p, offset, labels, rest, q) ensures ParseQuestion(p, offset) == Some(q) {
      ReadsEncoding(p[offset..], "", labels, rest);
      DottedEmpty(labels);
    }
  }

  lemma DottedEmpty(labels: seq<seq<byte>>)
    requires ValidLabels(labels)
    ensures Dotted("", labels) == "" <==> labels == []
  {
    if labels != [] { DottedGrows(Dot("") + LowerLabel(labels[0]), labels[1..]); }
  }

  /** No compression pointer is ever followed: a byte of 64 or more where a length belongs fails. */
  lemma PointersRefused(p: seq<byte>, offset: nat)
    requires HEADER <= offset < |p| && p[offset] >= 64
    ensures ParseQuestion(p, offset) == None
  {
  }

  // ---------- the section ----------

  /** Questions one behind the other, up to `n`, ending at the first bad one. */
  function Questions(p: seq<byte>, offset: nat, n: nat): (qs: seq<Question>)
    ensures |qs| <= n
    decreases n
  {
    if n == 0 then []
    else
      match ParseQuestion(p, offset)
      case None => []
      case Some(q) => [q] + Questions(p, q.next, n - 1)
  }

  /** The message inside the payload: TCP puts its length in front. */
  function Message(protocol: nat, data: seq<byte>): (r: Option<(nat, seq<byte>)>)
    ensures r.Some? ==> r.value.0 + HEADER < |data|
  {
    if |data| <= HEADER then None
    else if protocol == UDP then Some((0, data))
    else if protocol != TCP || |data| <= TCP_PREFIX + HEADER then None
    else
      var len := Big16(data[0], data[1]);
      if len == 0 || len > |data| - TCP_PREFIX then None
      else Some((TCP_PREFIX, data[TCP_PREFIX..TCP_PREFIX + len]))
  }

  /** What the section yields: nothing for responses, for no questions or a bad first one. */
  function Section(protocol: nat, sport: nat, dport: nat, data: seq<byte>): seq<Question> {
    if sport != DNS_PORT && dport != DNS_PORT then []
    else
      match Message(protocol, data)
      case None => []
      case Some(m) =>
        var count := Big16(data[m.0 + 4], data[m.0 + 5]);
        if data[m.0 + 2] >= 0x80 || count == 0 then [] else Questions(m.1, HEADER, Min(count, MAX_QUERIES))
  }

  method DpiDns(protocol: nat, sport: nat, dport: nat, data: seq<byte>) returns (qs: seq<Question>)
    ensures qs == Section(protocol, sport, dport, data)
  {
    hide ParseQuestion, Big16, Questions;
    qs := [];
    if |data| <= HEADER { return; }
    if sport != DNS_PORT && dport != DNS_PORT { return; }
    var m := Message(protocol, data);
    if m.None? { return; }
    var (at, payload) := m.value;
    var count := Big16(data[at + 4], data[at + 5]);
    if data[at + 2] >= 0x80 || count <= 0 { return; }
    var offset: nat := HEADER;
    var i := 0;
    ghost var n := Min(count, MAX_QUERIES);
    ghost var all := Questions(payload, HEADER, n);
    while i < count && |qs| < MAX_QUERIES
      invariant i == |qs| <= n
      invariant qs + Questions(payload, offset, n - i) == all
      decreases count - i
    {
      QuestionsStep(payload, offset, n - i, qs);
      var q := ParseQueryName(payload, offset);
      if q.None? { return; }
      qs := qs + [q.value];
      offset := q.value.next;
      i := i + 1;
    }
    NoQuestions(payload, offset);
    assert qs + [] == qs;
  }

  lemma NoQuestions(p: seq<byte>, offset: nat)
    ensures Questions(p, offset, 0) == []
  {
  }

  lemma QuestionsStep(p: seq<byte>, offset: nat, n: nat, before: seq<Question>)
    requires n > 0
    ensures match ParseQuestion(p, offset)
            case None => before + Questions(p, offset, n) == before
            case Some(q) => before + Questions(p, offset, n) == (before + [q]) + Questions(p, q.next, n - 1)
  {
    hide ParseQuestion;
  }

  /** Each question starts where the one before ended; the list stops short of its bound
      only before something that is no question. */
  lemma {:induction false} QuestionsMeaning(p: seq<byte>, offset: nat, n: nat)
    ensures var qs := Questions(p, offset, n);
            && (forall i :: 0 <= i < |qs| ==>
                  ParseQuestion(p, if i == 0 then offset else qs[i - 1].next) == Some(qs[i]))
            && (|qs| < n ==> ParseQuestion(p, if qs == [] then offset else qs[|qs| - 1].next) == None)
    decreases n
  {
    hide ParseQuestion;
    if n > 0 && ParseQuestion(p, offset).Some? {
      QuestionsMeaning(p, ParseQuestion(p, offset).value.next, n - 1);
    }
  }
}
