/** Whole DNS queries on the wire: which names and types come back. */
module DnsQuery {
  import opened Text
  import opened Dns

  datatype Asked = Asked(labels: seq<seq<byte>>, qtype: nat, qclass: seq<byte>)

  /** The name as the dots and lower-cased letters that stand for its labels. */
  ghost predicate Spells(name: string, labels: seq<seq<byte>>)
    requires labels != []
    decreases |labels|
  {
    var part := labels[0];
    && |part| <= |name|
    && (forall k :: 0 <= k < |part| ==>
          name[k] as int == if 'A' as int <= part[k] <= 'Z' as int then part[k] + 32 else part[k])
    && if |labels| == 1 then |name| == |part|
       else |part| < |name| && name[|part|] == '.' && Spells(name[|part| + 1..], labels[1..])
  }

  function NameLength(labels: seq<seq<byte>>): nat {
    if labels == [] then 0
    else |labels[0]| + (if |labels| == 1 then 0 else 1) + NameLength(labels[1..])
  }

  ghost predicate Proper(a: Asked) {
    && a.labels != [] && (forall i :: 0 <= i < |a.labels| ==> 0 < |a.labels[i]| <= 63)
    && NameLength(a.labels) <= 127 && a.qtype < 0x1_0000 && |a.qclass| == 2
  }

  ghost predicate AllProper(asked: seq<Asked>) {
    forall i :: 0 <= i < |asked| ==> Proper(asked[i])
  }

  /** High byte first. */
  function Bytes16(n: nat): seq<byte>
    requires n < 0x1_0000
  {
    [n / 256, n % 256]
  }

  /** Section 4.1.2 of RFC 1035, one question behind the other. */
  function Wire(asked: seq<Asked>): seq<byte>
    requires AllProper(asked)
    decreases |asked|
  {
    if asked == [] then []
    else Encode(asked[0].labels) + Bytes16(asked[0].qtype) + asked[0].qclass + Wire(asked[1..])
  }

  ghost predicate Answers(qs: seq<Question>, asked: seq<Asked>)
    requires AllProper(asked)
  {
    && |qs| == |asked|
    && forall i :: 0 <= i < |qs| ==> qs[i].qtype == asked[i].qtype && Spells(qs[i].name, asked[i].labels)
  }

  lemma {:induction false} DottedBehind(out: string, labels: seq<seq<byte>>)
    requires labels != [] && ValidLabels(labels)
    ensures Dotted(out, labels) == Dot(out) + Dotted("", labels)
    decreases |labels|
  {
    hide LowerLabel;
    var head, tail := LowerLabel(labels[0]), labels[1..];
    if tail == [] {
      assert Dot(out) + head == Dot(out) + (Dot("") + head);
    } else {
      DottedBehind(Dot(out) + head, tail);
      DottedBehind(Dot("") + head, tail);
      assert Dot(Dot(out) + head) == Dot(out) + Dot(head);
      assert Dot("") + head == head;
    }
  }

  lemma OneLabel(part: seq<byte>)
    ensures Dotted("", [part]) == LowerLabel(part) && NameLength([part]) == |part|
  {
    hide LowerLabel;
    assert [part][1..] == [] && Dot("") + LowerLabel(part) == LowerLabel(part);
  }

  lemma LastLabelSpells(part: seq<byte>)
    ensures Spells(LowerLabel(part), [part])
  {
  }

  lemma FirstLabelSpells(labels: seq<seq<byte>>, rest: string)
    requires |labels| > 1 && Spells(rest, labels[1..])
    ensures Spells(LowerLabel(labels[0]) + "." + rest, labels)
  {
    var head := LowerLabel(labels[0]);
    var name := head + "." + rest;
    assert name[|head| + 1..] == rest;
    assert forall k :: 0 <= k < |head| ==> name[k] == head[k];
  }

  lemma {:induction false} DottedSpells(labels: seq<seq<byte>>)
    requires labels != [] && ValidLabels(labels)
    ensures Spells(Dotted("", labels), labels) && |Dotted("", labels)| == NameLength(labels)
    decreases |labels|
  {
    hide Spells, LowerLabel;
    var head, tail, name := LowerLabel(labels[0]), labels[1..], Dotted("", labels);
    assert Dot("") + head == head;
    if tail == [] {
      OneLabel(labels[0]);
      LastLabelSpells(labels[0]);
      assert labels == [labels[0]];
    } else {
      DottedBehind(head, tail);
      DottedSpells(tail);
      assert name == head + "." + Dotted("", tail);
      FirstLabelSpells(labels, Dotted("", tail));
    }
  }

  /** One question at `offset`, whatever follows it. */
  lemma ReadsQuestion(p: seq<byte>, offset: nat, a: Asked, rest: seq<byte>) returns (q: Question)
    requires Proper(a) && HEADER <= offset < |p|
    requires p[offset..] == Encode(a.labels) + Bytes16(a.qtype) + a.qclass + rest
    ensures ParseQuestion(p, offset) == Some(q) && q.next <= |p| && p[q.next..] == rest
    ensures q.qtype == a.qtype && Spells(q.name, a.labels)
  {
    hide Encode, ParseQuestion, Dotted, NameLength, Spells;
    DottedSpells(a.labels);
    var tail := Bytes16(a.qtype) + a.qclass + rest;
    assert p[offset..] == Encode(a.labels) + tail;
    q := Question(Dotted("", a.labels), a.qtype, offset + |Encode(a.labels)| + 4);
    assert EncodesQuestion(p, offset, a.labels, tail, q);
    QuestionMeaning(p, offset, q);
    assert p[q.next..] == p[offset..][|Encode(a.labels)| + 4..];
  }

  lemma {:induction false} ReadsWire(p: seq<byte>, offset: nat, asked: seq<Asked>, tail: seq<byte>)
    requires AllProper(asked) && HEADER <= offset <= |p| && p[offset..] == Wire(asked) + tail
    ensures Answers(Questions(p, offset, |asked|), asked)
    decreases |asked|
  {
    hide ParseQuestion, Encode, Spells;
    if asked != [] {
      var a, more := asked[0], asked[1..];
      var rest := Wire(more) + tail;
      assert p[offset..] == Encode(a.labels) + Bytes16(a.qtype) + a.qclass + rest;
      var q := ReadsQuestion(p, offset, a, rest);
      ReadsWire(p, q.next, more, tail);
    }
  }

  /** Header of section 4.1.1: id, flags, number of questions, the other three counts. */
  function Query(id: seq<byte>, flags: seq<byte>, n: nat, counts: seq<byte>, body: seq<byte>): seq<byte>
    requires n < 0x1_0000
  {
    id + flags + Bytes16(n) + counts + body
  }

  /** A query, not a response, of `n` questions; up to sixteen of them are spelled out. */
  ghost predicate GoodQuery(id: seq<byte>, flags: seq<byte>, n: nat, counts: seq<byte>, asked: seq<Asked>) {
    && |id| == 2 && |flags| == 2 && |counts| == 6 && flags[0] < 0x80
    && 0 < n < 0x1_0000 && |asked| == (if n < 16 then n else 16) && AllProper(asked)
  }

  /** Over UDP exactly the names and types asked for come back. */
  lemma UdpQuery(sport: nat, dport: nat, id: seq<byte>, flags: seq<byte>, n: nat, counts: seq<byte>,
                 asked: seq<Asked>, tail: seq<byte>)
    requires GoodQuery(id, flags, n, counts, asked) && (sport == 53 || dport == 53)
    ensures Answers(Section(17, sport, dport, Query(id, flags, n, counts, Wire(asked) + tail)), asked)
  {
    hide Questions, Wire, Answers;
    var msg := Query(id, flags, n, counts, Wire(asked) + tail);
    assert msg[2] == flags[0] && msg[4] == n / 256 && msg[5] == n % 256;
    assert msg[HEADER..] == Wire(asked) + tail;
    WireNotEmpty(asked);
    ReadsWire(msg, HEADER, asked, tail);
  }

  /** Over TCP the same message behind its length. */
  lemma TcpQuery(sport: nat, dport: nat, id: seq<byte>, flags: seq<byte>, n: nat, counts: seq<byte>,
                 asked: seq<Asked>, tail: seq<byte>, more: seq<byte>)
    requires GoodQuery(id, flags, n, counts, asked) && (sport == 53 || dport == 53)
    requires |Query(id, flags, n, counts, Wire(asked) + tail)| < 0x1_0000
    ensures var msg := Query(id, flags, n, counts, Wire(asked) + tail);
            Answers(Section(6, sport, dport, Bytes16(|msg|) + msg + more), asked)
  {
    hide Questions, Wire, Answers;
    var msg := Query(id, flags, n, counts, Wire(asked) + tail);
    var data := Bytes16(|msg|) + msg + more;
    assert msg[2] == flags[0] && msg[4] == n / 256 && msg[5] == n % 256;
    assert data[4] == msg[2] && data[6] == msg[4] && data[7] == msg[5];
    assert data[2..2 + |msg|] == msg;
    assert msg[HEADER..] == Wire(asked) + tail;
    WireNotEmpty(asked);
    ReadsWire(msg, HEADER, asked, tail);
  }

  lemma WireNotEmpty(asked: seq<Asked>)
    requires AllProper(asked) && asked != []
    ensures Wire(asked) != []
  {
  }

  /** Other ports, other protocols, short data, responses and messages without questions give nothing. */
  lemma NotAQuery(protocol: nat, sport: nat, dport: nat, data: seq<byte>)
    requires
      || (sport != 53 && dport != 53) || (protocol != 6 && protocol != 17) || |data| <= 12
      || (protocol == 17 && (data[2] >= 0x80 || (data[4] == 0 && data[5] == 0)))
      || (protocol == 6 && (|data| <= 14 || data[4] >= 0x80 || (data[6] == 0 && data[7] == 0)))
    ensures Section(protocol, sport, dport, data) == []
  {
  }
}
