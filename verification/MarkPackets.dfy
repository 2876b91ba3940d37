/** What one packet does to a connection, on the bits of the mark and the fields of the packet. */
module MarkPackets {
  import opened MachineWords
  import opened Mark
  import opened Text

  function LowSixteen(mark: word): word { mark & 0xffff }

  predicate Bit28(mark: word) { mark & 0x1000_0000 != 0 }

  predicate Bit29(mark: word) { mark & 0x2000_0000 != 0 }

  predicate Bit30(mark: word) { mark & 0x4000_0000 != 0 }

  predicate Bit31(mark: word) { mark & 0x8000_0000 != 0 }

  function BelowBit31(mark: word): word { mark & 0x7fff_ffff }

  function BelowBit30(mark: word): word { mark & 0x3fff_ffff }

  lemma FieldBits(mark: word)
    ensures AppIdOf(mark) == LowSixteen(mark)
    ensures Test(mark, DNS_MATCH_BIT) == Bit28(mark) && Test(mark, IGNORE_BIT) == Bit29(mark)
    ensures Test(mark, CLIENT_HELLO_BIT) == Bit30(mark) && Test(mark, DROP_BIT) == Bit31(mark)
  {
    hide AppIdOf, LowSixteen, Test, Bit28, Bit29, Bit30, Bit31;
    IdBits(mark);
    DnsBit(mark);
    IgnoreBit(mark);
    ClientHelloBit(mark);
    DropBit(mark);
  }

  lemma IdBits(mark: word)
    ensures AppIdOf(mark) == LowSixteen(mark) == LowHalf(mark)
  {
  }

  lemma DnsBit(mark: word)
    ensures Test(mark, DNS_MATCH_BIT) == Bit28(mark)
  {
  }

  lemma IgnoreBit(mark: word)
    ensures Test(mark, IGNORE_BIT) == Bit29(mark)
  {
  }

  lemma ClientHelloBit(mark: word)
    ensures Test(mark, CLIENT_HELLO_BIT) == Bit30(mark)
  {
  }

  lemma DropBit(mark: word)
    ensures Test(mark, DROP_BIT) == Bit31(mark)
  {
  }

  lemma DropStore(mark: word, v: word, on: bool)
    requires v == if on then 0x8000_0000 else 0
    ensures SetBit(mark, DROP_BIT, on) == (mark & !0x8000_0000) | (v & 0x8000_0000)
  {
  }

  lemma HelloStore(mark: word, v: word, on: bool)
    requires v == if on then 0x4000_0000 else 0
    ensures SetBit(mark, CLIENT_HELLO_BIT, on) == (mark & !0x4000_0000) | (v & 0x4000_0000)
  {
  }

  lemma TopStoreBelow31(m: bv32, v: bv32)
    ensures BelowBit31((m & !0x8000_0000) | (v & 0x8000_0000)) == BelowBit31(m)
  {
  }

  lemma TopStoreBelow30(m: bv32, v: bv32)
    ensures BelowBit30((m & !0x8000_0000) | (v & 0x8000_0000)) == BelowBit30(m)
  {
  }

  lemma NextStoreBelow30(m: bv32, v: bv32)
    ensures BelowBit30((m & !0x4000_0000) | (v & 0x4000_0000)) == BelowBit30(m)
  {
  }

  lemma DropKeepsBelow(mark: word, on: bool)
    ensures BelowBit31(SetBit(mark, DROP_BIT, on)) == BelowBit31(mark)
    ensures BelowBit30(SetBit(mark, DROP_BIT, on)) == BelowBit30(mark)
  {
    hide SetBit, BelowBit31, BelowBit30;
    var v: word := if on then 0x8000_0000 else 0;
    DropStore(mark, v, on);
    TopStoreBelow31(mark, v);
    TopStoreBelow30(mark, v);
  }

  lemma HelloKeepsBelow(mark: word, on: bool)
    ensures BelowBit30(SetBit(mark, CLIENT_HELLO_BIT, on)) == BelowBit30(mark)
  {
    hide SetBit, BelowBit31, BelowBit30;
    var v: word := if on then 0x4000_0000 else 0;
    HelloStore(mark, v, on);
    NextStoreBelow30(mark, v);
  }

  /** On a clock of 32 bits that ticks 100 times a second. */
  predicate Within30Seconds(now: word, updated: word) { now - updated < 3000 }

  lemma RecentTicks(now: word, updated: word)
    ensures Fresher(now, updated) <==> Within30Seconds(now, updated)
  {
  }

  /** What inspection leaves in each field. */
  lemma InspectMeaning(mark: word, p: Packet)
    ensures var o := Inspect(mark, p);
            && o.inspected
            && (o.verdict == Drop <==> p.macRule || (p.dpi.Matched? && p.enabled && p.rules(p.dpi.appId)))
            && (Test(o.mark, DROP_BIT) <==> o.verdict == Drop || Test(mark, DROP_BIT))
            && (Test(o.mark, CLIENT_HELLO_BIT) <==> p.clientHello)
            && (p.dpi.NoMatch? ==> BelowBit30(o.mark) == BelowBit30(mark))
            && (p.dpi.Matched? ==>
                  && AppIdOf(o.mark) == LowHalf(p.dpi.appId)
                  && (Test(o.mark, DNS_MATCH_BIT) <==> p.dpi.byDns)
                  && (Test(o.mark, IGNORE_BIT) <==> Test(mark, IGNORE_BIT) || (p.dpi.ignore && p.dpi.appId >= 1000)))
  {
    hide Update, AppIdOf, Test, SetBit, Classify, LowHalf, BelowBit30;
    var m := SetBit(mark, CLIENT_HELLO_BIT, p.clientHello);
    SetBitFields(mark, CLIENT_HELLO_BIT, p.clientHello);
    HelloKeepsBelow(mark, p.clientHello);
    match p.dpi {
      case NoMatch =>
        SetBitFields(m, DROP_BIT, true);
        DropKeepsBelow(m, true);
      case Matched(id, byDns, ignore) =>
        ClassifyFields(m, id, byDns, ignore);
        SetBitFields(Classify(m, id, byDns, ignore), DROP_BIT, true);
    }
  }

  lemma SetBitFields(mark: word, bit: word, on: bool)
    requires IsFlag(bit)
    ensures AppIdOf(SetBit(mark, bit, on)) == AppIdOf(mark) && Test(SetBit(mark, bit, on), bit) == on
    ensures bit != DROP_BIT ==> Test(SetBit(mark, bit, on), DROP_BIT) == Test(mark, DROP_BIT)
    ensures bit != CLIENT_HELLO_BIT ==> Test(SetBit(mark, bit, on), CLIENT_HELLO_BIT) == Test(mark, CLIENT_HELLO_BIT)
    ensures bit != IGNORE_BIT ==> Test(SetBit(mark, bit, on), IGNORE_BIT) == Test(mark, IGNORE_BIT)
    ensures bit != DNS_MATCH_BIT ==> Test(SetBit(mark, bit, on), DNS_MATCH_BIT) == Test(mark, DNS_MATCH_BIT)
  {
    hide Update, AppIdOf, Test, SetBit;
    FieldsIndependent(mark, bit, if bit == DROP_BIT then IGNORE_BIT else DROP_BIT, on, 0);
    FieldsIndependent(mark, bit, if bit == CLIENT_HELLO_BIT then IGNORE_BIT else CLIENT_HELLO_BIT, on, 0);
    FieldsIndependent(mark, bit, if bit == IGNORE_BIT then DROP_BIT else IGNORE_BIT, on, 0);
    FieldsIndependent(mark, bit, if bit == DNS_MATCH_BIT then DROP_BIT else DNS_MATCH_BIT, on, 0);
  }

  lemma SetAppIdFields(mark: word, id: word)
    ensures AppIdOf(SetAppId(mark, id)) == LowHalf(id)
    ensures Test(SetAppId(mark, id), DROP_BIT) == Test(mark, DROP_BIT)
    ensures Test(SetAppId(mark, id), CLIENT_HELLO_BIT) == Test(mark, CLIENT_HELLO_BIT)
    ensures Test(SetAppId(mark, id), IGNORE_BIT) == Test(mark, IGNORE_BIT)
  {
    hide Update, AppIdOf, Test, SetBit, SetAppId, LowHalf;
    FieldsIndependent(mark, DROP_BIT, IGNORE_BIT, true, id);
    FieldsIndependent(mark, CLIENT_HELLO_BIT, IGNORE_BIT, true, id);
    FieldsIndependent(mark, IGNORE_BIT, DROP_BIT, true, id);
  }

  lemma ClassifyFields(mark: word, id: word, byDns: bool, ignore: bool)
    ensures var k := Classify(mark, id, byDns, ignore);
            && AppIdOf(k) == LowHalf(id) && Test(k, DROP_BIT) == Test(mark, DROP_BIT)
            && Test(k, CLIENT_HELLO_BIT) == Test(mark, CLIENT_HELLO_BIT)
            && (Test(k, DNS_MATCH_BIT) <==> byDns)
            && (Test(k, IGNORE_BIT) <==> Test(mark, IGNORE_BIT) || (ignore && id >= 1000))
  {
    hide Update, AppIdOf, Test, SetBit, SetAppId, LowHalf;
    var n := SetAppId(mark, id);
    SetAppIdFields(mark, id);
    SetBitFields(n, DNS_MATCH_BIT, byDns);
    SetBitFields(SetBit(n, DNS_MATCH_BIT, byDns), IGNORE_BIT, true);
  }

  ghost predicate Open(mark: word) {
    !ValidAppId(AppIdOf(mark)) && !(AppIdOf(mark) == 0 && Test(mark, DROP_BIT))
  }

  lemma OpenStep(mark: word, p: Packet)
    requires Open(mark)
    ensures Step(mark, p) == if MayInspect(p) then Inspect(mark, p) else Outcome(mark, Accept, false)
  {
    hide AppIdOf, Test, Inspect, SetBit, RuleMatches, Recent;
  }

  lemma OpenBits(mark: word)
    requires if LowSixteen(mark) == 0 then !Bit31(mark) else LowSixteen(mark) > 32000
    ensures Open(mark)
  {
    hide AppIdOf, Test, LowSixteen, Bit28, Bit29, Bit30, Bit31;
    FieldBits(mark);
  }

  /** A packet of a connection that is neither classified nor dropped for good: it is inspected when
      accounting is on, few packets went by and its data can be read; inspection and rules decide. */
  lemma UnclassifiedPacket(mark: word, p: Packet)
    requires if LowSixteen(mark) == 0 then !Bit31(mark) else LowSixteen(mark) > 32000
    ensures var o := Step(mark, p);
            && (o.inspected <==> p.packets.Some? && p.packets.value <= 256 && p.readable)
            && (o.verdict == Drop <==>
                o.inspected && (p.macRule || (p.dpi.Matched? && p.enabled && p.rules(p.dpi.appId))))
            && (Bit31(o.mark) <==> o.verdict == Drop || Bit31(mark))
            && (o.inspected ==> (Bit30(o.mark) <==> p.clientHello))
            && (!o.inspected ==> o.mark == mark)
  {
    hide AppIdOf, Test, Inspect, LowHalf, LowSixteen, Bit28, Bit29, Bit30, Bit31, BelowBit30, Step, Open;
    OpenBits(mark);
    OpenStep(mark, p);
    FieldBits(mark);
    InspectMeaning(mark, p);
    FieldBits(Inspect(mark, p).mark);
  }

  /** Without a match only the top two bits can change; with one the id and flags are the feature's. */
  lemma UnclassifiedFields(mark: word, p: Packet)
    requires if LowSixteen(mark) == 0 then !Bit31(mark) else LowSixteen(mark) > 32000
    ensures var o := Step(mark, p);
            && (p.dpi.NoMatch? ==> BelowBit30(o.mark) == BelowBit30(mark))
            && (o.inspected && p.dpi.Matched? ==>
                  && LowSixteen(o.mark) == LowSixteen(p.dpi.appId)
                  && (Bit28(o.mark) <==> p.dpi.byDns)
                  && (Bit29(o.mark) <==> Bit29(mark) || (p.dpi.ignore && p.dpi.appId >= 1000)))
  {
    hide AppIdOf, Test, Inspect, LowHalf, LowSixteen, Bit28, Bit29, Bit30, Bit31, BelowBit30, Step, Open;
    OpenBits(mark);
    OpenStep(mark, p);
    FieldBits(mark);
    InspectMeaning(mark, p);
    FieldBits(Inspect(mark, p).mark);
    if p.dpi.Matched? { IdBits(p.dpi.appId); }
  }

  /** A packet of a classified connection is not inspected, and only the drop bit can change: recent
      rule changes rewrite it for ids above 1000, and it is the verdict. */
  lemma ClassifiedPacket(mark: word, p: Packet)
    requires 0 < LowSixteen(mark) <= 32000
    ensures var o, id := Step(mark, p), LowSixteen(mark);
            && !o.inspected && BelowBit31(o.mark) == BelowBit31(mark) && (o.verdict == Drop <==> Bit31(o.mark))
            && (o.verdict == Drop <==>
                if id > 1000 && Within30Seconds(p.now, p.updated) then p.enabled && p.rules(id) else Bit31(mark))
  {
    hide AppIdOf, Test, SetBit, Inspect, LowHalf, LowSixteen, Bit28, Bit29, Bit30, Bit31, BelowBit31;
    hide Fresher, Within30Seconds;
    RecentTicks(p.now, p.updated);
    var o := Step(mark, p);
    FieldBits(mark);
    FieldBits(o.mark);
    SetBitFields(mark, DROP_BIT, o.verdict == Drop);
    DropKeepsBelow(mark, o.verdict == Drop);
  }
}
