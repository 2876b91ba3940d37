/** The verdict a connection carries in its 32-bit mark. */
module Mark {
  import opened Text
  import opened MachineWords

  const APPID_MASK: word := 0x0000_ffff
  const DNS_MATCH_BIT: word := 0x1000_0000
  const IGNORE_BIT: word := 0x2000_0000
  const CLIENT_HELLO_BIT: word := 0x4000_0000
  const DROP_BIT: word := 0x8000_0000

  const MAX_DPI_PKT_NUM := 256

  function Update(mark: word, mask: word, value: word): word {
    (mark & !mask) | (value & mask)
  }

  function Inside(mark: word, mask: word): word { mark & mask }

  function Outside(mark: word, mask: word): word { mark & !mask }

  /** A masked store is the one new mark that takes the masked bits from the value and the rest from before. */
  lemma MaskedStore(mark: word, value: word, mask: word, next: word)
    ensures next == Update(mark, mask, value) <==>
            Inside(next, mask) == Inside(value, mask) && Outside(next, mask) == Outside(mark, mask)
  {
    hide Update, Inside, Outside;
    StoreInside(mark, value, mask);
    StoreOutside(mark, value, mask);
    Whole(next, mask);
    Whole(Update(mark, mask, value), mask);
  }

  lemma StoreInside(mark: word, value: word, mask: word)
    ensures Inside(Update(mark, mask, value), mask) == Inside(value, mask)
  {
    BitsInside(mark, value, mask);
  }

  lemma BitsInside(m: bv32, v: bv32, k: bv32)
    ensures ((m & !k) | (v & k)) & k == v & k
  {
  }

  lemma StoreOutside(mark: word, value: word, mask: word)
    ensures Outside(Update(mark, mask, value), mask) == Outside(mark, mask)
  {
    BitsOutside(mark, value, mask);
  }

  lemma BitsOutside(m: bv32, v: bv32, k: bv32)
    ensures ((m & !k) | (v & k)) & !k == m & !k
  {
  }

  function Joined(inside: word, outside: word): word { inside | outside }

  lemma Whole(mark: word, mask: word)
    ensures mark == Joined(Inside(mark, mask), Outside(mark, mask))
  {
    BitsWhole(mark, mask);
  }

  lemma BitsWhole(m: bv32, k: bv32)
    ensures m == (m & k) | (m & !k)
  {
  }

  function AppIdOf(mark: word): word { mark & APPID_MASK }

  function LowHalf(id: word): word { id & APPID_MASK }

  /** Ids below 1000 are the built-in protocols. */
  predicate BuiltIn(id: word) { id < 1000 }

  predicate ValidAppId(id: word) { 0 < id <= 32000 }

  predicate Test(mark: word, bit: word) { mark & bit != 0 }

  function SetBit(mark: word, bit: word, on: bool): word {
    Update(mark, bit, if on then bit else 0)
  }

  function SetAppId(mark: word, id: word): word {
    Update(mark, APPID_MASK, id)
  }

  predicate ValidDropMark(mark: word) {
    Test(mark, DROP_BIT) && (AppIdOf(mark) == 0 || ValidAppId(AppIdOf(mark)))
  }

  predicate IsFlag(bit: word) {
    bit == DNS_MATCH_BIT || bit == IGNORE_BIT || bit == CLIENT_HELLO_BIT || bit == DROP_BIT
  }

  /** Each field of the mark can be set without disturbing the others. */
  lemma FieldsIndependent(mark: word, bit: word, other: word, on: bool, id: word)
    requires IsFlag(bit) && IsFlag(other) && bit != other
    ensures Test(SetBit(mark, bit, on), bit) == on
    ensures Test(SetBit(mark, bit, on), other) == Test(mark, other)
    ensures AppIdOf(SetBit(mark, bit, on)) == AppIdOf(mark)
    ensures Test(SetAppId(mark, id), bit) == Test(mark, bit)
    ensures AppIdOf(SetAppId(mark, id)) == LowHalf(id)
  {
  }

  lemma SetBitNoop(mark: word, bit: word, on: bool)
    requires IsFlag(bit) && Test(mark, bit) == on
    ensures SetBit(mark, bit, on) == mark
  {
  }

  // ---------- one packet ----------

  datatype Dpi = NoMatch | Matched(appId: word, byDns: bool, ignore: bool)

  /** What one packet brings: clocks, the rules as they stand for this client, and what
      inspection would find. `packets` is missing when accounting is off. */
  datatype Packet = Packet(
    now: word, updated: word, enabled: bool, rules: word -> bool, macRule: bool,
    packets: Option<nat>, readable: bool, clientHello: bool, dpi: Dpi)

  datatype Verdict = Accept | Drop

  datatype Outcome = Outcome(mark: word, verdict: Verdict, inspected: bool)

  /** Less than 30 seconds, at 100 ticks a second, on a clock that wraps. */
  predicate Fresher(now: word, updated: word) { now - updated < 3000 }

  /** Have the rules just changed? */
  predicate Recent(p: Packet) {
    Fresher(p.now, p.updated)
  }

  predicate RuleMatches(p: Packet, id: word) {
    p.enabled && p.rules(id)
  }

  /** Only ids above 1000 are looked up again, and only while a change is recent. */
  predicate Reconsidered(p: Packet, id: word) {
    id > 1000 && Recent(p)
  }

  function Decide(drop: bool): Verdict { if drop then Drop else Accept }

  predicate MayInspect(p: Packet) {
    p.packets.Some? && p.packets.value <= MAX_DPI_PKT_NUM && p.readable
  }

  /** What a matched feature writes; built-in protocols never set the ignore bit. */
  function Classify(mark: word, id: word, byDns: bool, ignore: bool): word {
    var n := SetBit(SetAppId(mark, id), DNS_MATCH_BIT, byDns);
    if !BuiltIn(id) && ignore then SetBit(n, IGNORE_BIT, true) else n
  }

  function Inspect(mark: word, p: Packet): Outcome {
    var m := SetBit(mark, CLIENT_HELLO_BIT, p.clientHello);
    match p.dpi
    case NoMatch =>
      Outcome(if p.macRule then SetBit(m, DROP_BIT, true) else m, Decide(p.macRule), true)
    case Matched(id, byDns, ignore) =>
      var k := Classify(m, id, byDns, ignore);
      var drop := RuleMatches(p, id) || p.macRule;
      Outcome(if drop then SetBit(k, DROP_BIT, true) else k, Decide(drop), true)
  }

  /** A classified connection lives by its drop bit, which recent rule changes rewrite;
      a dropped unclassified one stays dropped; any other may be inspected. */
  function Step(mark: word, p: Packet): Outcome {
    var id := AppIdOf(mark);
    if ValidAppId(id) then
      var drop := if Reconsidered(p, id) then RuleMatches(p, id) else Test(mark, DROP_BIT);
      Outcome(SetBit(mark, DROP_BIT, drop), Decide(drop), false)
    else if id == 0 && Test(mark, DROP_BIT) then Outcome(mark, Drop, false)
    else if !MayInspect(p) then Outcome(mark, Accept, false)
    else Inspect(mark, p)
  }

  class Connection {
    var mark: word

    method MarkUpdate(mask: word, value: word)
      modifies this
      ensures Inside(mark, mask) == Inside(value, mask) && Outside(mark, mask) == Outside(old(mark), mask)
      ensures mark == Update(old(mark), mask, value)
    {
      hide Inside, Outside;
      MaskedStore(mark, value, mask, Update(mark, mask, value));
      mark := (mark & !mask) | (value & mask);
    }

    /** Has the rules' answer moved away from `action` since they changed? */
    method ActionChanged(action: bool, id: word, p: Packet) returns (changed: bool)
      ensures changed == (Recent(p) && RuleMatches(p, id) != action)
    {
      changed := false;
      if Recent(p) {
        if RuleMatches(p, id) {
          if !action { changed := true; }
        } else {
          if action { changed := true; }
        }
      }
    }

    method Handle(p: Packet) returns (verdict: Verdict, inspected: bool)
      modifies this
      ensures Outcome(mark, verdict, inspected) == Step(old(mark), p)
    {
      hide Update, AppIdOf, Test, SetBit, SetAppId, Recent;
      var id := AppIdOf(mark);
      if id != 0 && ValidAppId(id) {
        var action := Test(mark, DROP_BIT);
        SetBitNoop(mark, DROP_BIT, action);
        if 0 < id < 1000 && p.enabled && action { return Drop, false; }
        if 1000 < id <= 32000 {
          var changed := ActionChanged(action, id, p);
          if changed {
            action := !action;
            FieldsIndependent(mark, DROP_BIT, IGNORE_BIT, action, 0);
            SetFlag(DROP_BIT, action);
          }
          if p.enabled && action { return Drop, false; }
        }
      }
      if Test(mark, DROP_BIT) && ValidDropMark(mark) { return Drop, false; }
      id := AppIdOf(mark);
      if id != 0 && ValidAppId(id) { return Accept, false; }
      if p.packets.None? || p.packets.value > MAX_DPI_PKT_NUM || !p.readable { return Accept, false; }
      verdict := InspectNow(p);
      return verdict, true;
    }

    method SetFlag(bit: word, on: bool)
      modifies this
      ensures mark == SetBit(old(mark), bit, on)
    {
      MarkUpdate(bit, if on then bit else 0);
    }

    method StoreMatch(id: word, byDns: bool, ignore: bool)
      modifies this
      ensures mark == Classify(old(mark), id, byDns, ignore)
    {
      hide Update, SetBit;
      MarkUpdate(APPID_MASK, id);
      SetFlag(DNS_MATCH_BIT, byDns);
      if !BuiltIn(id) && ignore {
        SetFlag(IGNORE_BIT, true);
      }
    }

    method InspectNow(p: Packet) returns (verdict: Verdict)
      modifies this
      ensures Outcome(mark, verdict, true) == Inspect(old(mark), p)
    {
      hide Update, AppIdOf, Test, RuleMatches, SetBit, Classify;
      verdict := Accept;
      SetFlag(CLIENT_HELLO_BIT, p.clientHello);
      if p.dpi.Matched? {
        StoreMatch(p.dpi.appId, p.dpi.byDns, p.dpi.ignore);
        if RuleMatches(p, p.dpi.appId) {
          SetFlag(DROP_BIT, true);
          verdict := Drop;
        }
      }
      if verdict != Drop && p.macRule {
        SetFlag(DROP_BIT, true);
        verdict := Drop;
      }
    }
  }

  // ---------- whole runs ----------

  /** What every packet of a run met with, in order. */
  function Run(mark: word, ps: seq<Packet>): (outs: seq<Outcome>)
    ensures |outs| == |ps|
    decreases |ps|
  {
    if ps == [] then []
    else
      var o := Step(mark, ps[0]);
      [o] + Run(o.mark, ps[1..])
  }

  lemma ClassifiedStep(mark: word, p: Packet)
    requires ValidAppId(AppIdOf(mark))
    ensures var id, o := AppIdOf(mark), Step(mark, p);
            && AppIdOf(o.mark) == id && !o.inspected
            && (o.verdict == Drop <==> Test(o.mark, DROP_BIT))
            && Test(o.mark, DROP_BIT) == if Reconsidered(p, id) then RuleMatches(p, id) else Test(mark, DROP_BIT)
  {
    hide Update, AppIdOf, Test, SetBit, Recent;
    var id := AppIdOf(mark);
    var drop := if Reconsidered(p, id) then RuleMatches(p, id) else Test(mark, DROP_BIT);
    FieldsIndependent(mark, DROP_BIT, IGNORE_BIT, drop, 0);
  }

  /** The last word the rules had on this id: their answer at the latest packet that came
      soon after a change, or what the connection started with. */
  ghost predicate Standing(drop: bool, id: word, ps: seq<Packet>)
    decreases |ps|
  {
    if ps == [] then drop
    else
      var last := ps[|ps| - 1];
      if Reconsidered(last, id) then RuleMatches(last, id) else Standing(drop, id, ps[..|ps| - 1])
  }

  lemma {:induction false} StandingCons(drop: bool, id: word, p: Packet, ps: seq<Packet>)
    ensures Standing(drop, id, [p] + ps) == Standing(if Reconsidered(p, id) then RuleMatches(p, id) else drop, id, ps)
    decreases |ps|
  {
    if ps == [] {
      assert [p] + ps == [p];
      assert [p][..0] == [];
    } else {
      var init := ps[..|ps| - 1];
      assert ([p] + ps)[..|ps|] == [p] + init;
      StandingCons(drop, id, p, init);
    }
  }

  /** From a classified connection on: the id never changes, inspection never runs again,
      and every verdict is the last word the rules had. */
  lemma {:induction false} ClassifiedRun(mark: word, ps: seq<Packet>, i: nat)
    requires ValidAppId(AppIdOf(mark)) && i < |ps|
    ensures var id, o := AppIdOf(mark), Run(mark, ps)[i];
            && AppIdOf(o.mark) == id && !o.inspected
            && (o.verdict == Drop <==> Standing(Test(mark, DROP_BIT), id, ps[..i + 1]))
            && (Test(o.mark, DROP_BIT) <==> o.verdict == Drop)
    decreases |ps|
  {
    hide Update, AppIdOf, Test, SetBit, Step;
    var id := AppIdOf(mark);
    var o := Step(mark, ps[0]);
    ClassifiedStep(mark, ps[0]);
    assert ps[..i + 1] == [ps[0]] + ps[1..][..i];
    StandingCons(Test(mark, DROP_BIT), id, ps[0], ps[1..][..i]);
    if i > 0 {
      ClassifiedRun(o.mark, ps[1..], i - 1);
    } else {
      assert ps[1..][..0] == [];
    }
  }

  lemma {:induction false} RunSuffix(mark: word, ps: seq<Packet>, i: nat)
    requires i < |ps|
    ensures Run(mark, ps)[i + 1..] == Run(Run(mark, ps)[i].mark, ps[i + 1..])
    decreases |ps|
  {
    hide Step;
    var o := Step(mark, ps[0]);
    assert Run(mark, ps)[1..] == Run(o.mark, ps[1..]);
    if i > 0 {
      RunSuffix(o.mark, ps[1..], i - 1);
      assert Run(mark, ps)[i + 1..] == Run(mark, ps)[1..][i..];
      assert ps[i + 1..] == ps[1..][i..];
    }
  }

  /** In every run, once a packet leaves a valid id in the mark, every later packet sees
      that id, is not inspected, and is dropped exactly when the rules last said so. */
  lemma VerdictIsCached(mark: word, ps: seq<Packet>, i: nat, j: nat)
    requires i < j < |ps| && ValidAppId(AppIdOf(Run(mark, ps)[i].mark))
    ensures var before, o := Run(mark, ps)[i].mark, Run(mark, ps)[j];
            && AppIdOf(o.mark) == AppIdOf(before) && !o.inspected
            && (o.verdict == Drop <==> Standing(Test(before, DROP_BIT), AppIdOf(before), ps[i + 1..j + 1]))
  {
    hide Update, AppIdOf, Test, SetBit, Step;
    var before := Run(mark, ps)[i].mark;
    RunSuffix(mark, ps, i);
    ClassifiedRun(before, ps[i + 1..], j - i - 1);
    assert Run(mark, ps)[j] == Run(mark, ps)[i + 1..][j - i - 1];
    assert ps[i + 1..][..j - i] == ps[i + 1..j + 1];
  }

  /** Within 30 seconds of a rule change a packet of an app above 1000 is dropped exactly
      when the rules as they now stand match it. */
  lemma RecentChangeIsObeyed(mark: word, p: Packet)
    requires 1000 < AppIdOf(mark) <= 32000 && Recent(p)
    ensures Step(mark, p).verdict == Drop <==> RuleMatches(p, AppIdOf(mark))
  {
  }

  // ---------- which marks obey the rules ----------

  /** No packet of any run gets through, whatever rules, clocks and inspection say. */
  ghost predicate DropIsFinal(mark: word) {
    forall ps: seq<Packet>, i: nat :: i < |ps| ==> Run(mark, ps)[i].verdict == Drop
  }

  /** Soon after any rule change every packet is dropped exactly when the rules as they stand match. */
  ghost predicate Obeys(mark: word) {
    forall p: Packet :: Recent(p) ==> (Step(mark, p).verdict == Drop <==> RuleMatches(p, AppIdOf(mark)))
  }

  /** A packet just after a rule change, of a connection too quiet to be inspected. */
  function Fresh(drop: bool): Packet {
    Packet(0, 0, true, _ => drop, false, None, false, false, NoMatch)
  }

  lemma {:induction false} DroppedForGood(mark: word, ps: seq<Packet>, i: nat)
    requires Test(mark, DROP_BIT) && AppIdOf(mark) <= 1000 && i < |ps|
    ensures Run(mark, ps)[i] == Outcome(mark, Drop, false)
    decreases |ps|
  {
    hide AppIdOf, Test, SetBit, Inspect;
    SetBitNoop(mark, DROP_BIT, true);
    if i > 0 {
      DroppedForGood(mark, ps[1..], i - 1);
    }
  }

  /** A drop is never lifted exactly when it lies on an unclassified connection or on one of an
      id up to 1000; any other connection lets some packet through. */
  lemma DropIsFinalIff(mark: word)
    ensures DropIsFinal(mark) <==> Test(mark, DROP_BIT) && AppIdOf(mark) <= 1000
  {
    hide AppIdOf, Test, SetBit, Inspect;
    if Test(mark, DROP_BIT) && AppIdOf(mark) <= 1000 {
      forall ps: seq<Packet>, i: nat | i < |ps| ensures Run(mark, ps)[i].verdict == Drop {
        DroppedForGood(mark, ps, i);
      }
    } else {
      var late := Fresh(false).(now := 3000);
      var p := if Test(mark, DROP_BIT) then Fresh(false) else late;
      assert Step(mark, p).verdict == Accept;
      assert Run(mark, [p])[0] == Step(mark, p);
    }
  }

  /** The rules are obeyed soon after a change exactly on connections of an id above 1000. */
  lemma ObeysIff(mark: word)
    ensures Obeys(mark) <==> 1000 < AppIdOf(mark) <= 32000
  {
    hide AppIdOf, Test, SetBit, Inspect;
    var p := Fresh(!Test(mark, DROP_BIT));
    assert Recent(p);
    assert RuleMatches(Fresh(true), AppIdOf(mark));
  }

  /** The first classification: the stored id is the low half of the feature's, and the
      packet is dropped exactly when a rule for the full id or the client matches. */
  lemma FirstClassification(mark: word, p: Packet)
    requires !ValidAppId(AppIdOf(mark)) && !Test(mark, DROP_BIT) && MayInspect(p) && p.dpi.Matched?
    ensures var o := Step(mark, p);
            && o.inspected && AppIdOf(o.mark) == LowHalf(p.dpi.appId)
            && (o.verdict == Drop <==> RuleMatches(p, p.dpi.appId) || p.macRule)
            && (Test(o.mark, DROP_BIT) <==> o.verdict == Drop)
  {
    hide Update, AppIdOf, Test, SetBit, Classify, RuleMatches, LowHalf, ValidAppId;
    var id := p.dpi.appId;
    var m := SetBit(mark, CLIENT_HELLO_BIT, p.clientHello);
    FieldsIndependent(mark, CLIENT_HELLO_BIT, DROP_BIT, p.clientHello, id);
    ClassifyMeaning(m, id, p.dpi.byDns, p.dpi.ignore);
    FieldsIndependent(Classify(m, id, p.dpi.byDns, p.dpi.ignore), DROP_BIT, IGNORE_BIT, true, id);
  }

  lemma ClassifyMeaning(mark: word, id: word, byDns: bool, ignore: bool)
    ensures var k := Classify(mark, id, byDns, ignore);
            AppIdOf(k) == LowHalf(id) && Test(k, DROP_BIT) == Test(mark, DROP_BIT)
  {
    hide Update, AppIdOf, Test, SetBit, SetAppId, BuiltIn, LowHalf;
    var n := SetAppId(mark, id);
    var l := SetBit(n, DNS_MATCH_BIT, byDns);
    FieldsIndependent(mark, DROP_BIT, IGNORE_BIT, true, id);
    FieldsIndependent(n, DNS_MATCH_BIT, DROP_BIT, byDns, id);
    FieldsIndependent(l, IGNORE_BIT, DROP_BIT, true, id);
  }
}
