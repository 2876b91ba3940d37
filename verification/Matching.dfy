/** Finding the feature of a flow: the automaton first, then a scan that skips what the
    automaton covers, against the plain scan that tries every feature. */
module Matching {
  import opened Text
  import opened Features
  import opened AcSpec
  import opened AhoCorasick
  import opened RegexSyntax

  /** The buffers that hold a host or a request path keep this many characters. */
  const MATCH_ROOM := 63

  const MAX_POS_INFO := 16

  function Clip(s: string): string {
    if |s| > MATCH_ROOM then s[..MATCH_ROOM] else s
  }

  /** The host a flow names, TLS before HTTP; an address is not a host. */
  function FlowHost(flow: Flow): Option<string> {
    var found :=
      if flow.httpsHost.Some? && flow.httpsHost.value != "" then Some(Clip(flow.httpsHost.value))
      else if flow.httpHost.Some? && flow.httpHost.value != "" then Some(Clip(flow.httpHost.value))
      else None;
    if found.Some? && flow.ipLiteral(found.value) then None else found
  }

  /** Any result but 0 counts as a match, so a pattern that does not compile matches all. */
  ghost predicate RegexpHits(pattern: string, text: string)
    requires Lex(pattern) != Undefined
  {
    RegexpResult(pattern, text) != 0
  }

  ghost predicate Readable(f: Feature) {
    Lex(f.hostUrl) != Undefined && Lex(f.requestUrl) != Undefined
  }

  ghost predicate HostHits(flow: Flow, f: Feature)
    requires Readable(f)
  {
    FlowHost(flow).Some? && f.hostUrl != "" && RegexpHits(f.hostUrl, FlowHost(flow).value)
  }

  ghost predicate RequestHits(flow: Flow, f: Feature)
    requires Readable(f)
  {
    flow.httpUrl.Some? && flow.httpUrl.value != "" && f.requestUrl != "" &&
    RegexpHits(f.requestUrl, Clip(flow.httpUrl.value))
  }

  method MatchByUrl(flow: Flow, f: Feature, longest: bool) returns (r: bool)
    requires Readable(f)
    ensures r == (HostHits(flow, f) || RequestHits(flow, f))
  {
    var host := FlowHost(flow);
    if host.Some? && |host.value| > 0 && |f.hostUrl| > 0 {
      var ret := RegexpMatch(f.hostUrl, longest, host.value);
      if ret != 0 { return true; }
    }
    if flow.httpUrl.Some? {
      var url := Clip(flow.httpUrl.value);
      if |url| > 0 && |f.requestUrl| > 0 {
        var ret := RegexpMatch(f.requestUrl, longest, url);
        if ret != 0 { return true; }
      }
    }
    return false;
  }

  /** Where an offset points; a negative one counts from the end of the payload. */
  function Place(len: nat, pos: int): int {
    if pos < 0 then len + pos else pos
  }

  predicate PosHits(data: seq<int>, p: PosInfo) {
    var at := Place(|data|, p.pos);
    0 <= at < |data| && data[at] == p.value
  }

  ghost predicate HasBytes(data: seq<int>, str: string) {
    exists p :: 0 <= p <= |data| - |str| && BytesAt(data, p, str)
  }

  predicate BytesAt(data: seq<int>, p: nat, str: string)
    requires p + |str| <= |data|
  {
    forall i :: 0 <= i < |str| ==> data[p + i] == str[i] as int
  }

  ghost predicate PayloadHits(flow: Flow, f: Feature) {
    && (forall i :: 0 <= i < |f.posInfo| && i < MAX_POS_INFO ==> PosHits(flow.l4Data, f.posInfo[i]))
    && (f.searchStr != "" ==> HasBytes(flow.l4Data, f.searchStr))
  }

  method FindBytes(data: seq<int>, str: string) returns (r: bool)
    ensures r == HasBytes(data, str)
  {
    var p := 0;
    while p <= |data| - |str|
      invariant 0 <= p
      invariant forall q :: 0 <= q < p && q <= |data| - |str| ==> !BytesAt(data, q, str)
    {
      if BytesAt(data, p, str) { return true; }
      p := p + 1;
    }
    return false;
  }

  method MatchByPos(flow: Flow, f: Feature) returns (r: bool)
    ensures r == (f.posInfo != [] && PayloadHits(flow, f))
  {
    if |f.posInfo| == 0 { return false; }
    var i := 0;
    while i < |f.posInfo| && i < MAX_POS_INFO
      invariant 0 <= i <= |f.posInfo|
      invariant forall j :: 0 <= j < i ==> PosHits(flow.l4Data, f.posInfo[j])
    {
      var pos := if f.posInfo[i].pos < 0 then |flow.l4Data| + f.posInfo[i].pos else f.posInfo[i].pos;
      if pos < 0 || pos >= |flow.l4Data| || flow.l4Data[pos] != f.posInfo[i].value {
        assert !PosHits(flow.l4Data, f.posInfo[i]);
        return false;
      }
      i := i + 1;
    }
    if |f.searchStr| > 0 {
      r := FindBytes(flow.l4Data, f.searchStr);
      return;
    }
    return true;
  }

  /** What one feature asks of a flow. */
  ghost predicate OneMatches(flow: Flow, f: Feature)
    requires Readable(f)
  {
    BasicCond(flow, f) &&
    if f.requestUrl != "" || f.hostUrl != "" then HostHits(flow, f) || RequestHits(flow, f)
    else if f.posInfo != [] then PayloadHits(flow, f)
    else true
  }

  method MatchOne(flow: Flow, f: Feature, longest: bool) returns (r: bool)
    requires Readable(f)
    ensures r == OneMatches(flow, f)
  {
    if !BasicCond(flow, f) { return false; }
    if |f.requestUrl| > 0 || |f.hostUrl| > 0 {
      r := MatchByUrl(flow, f, longest);
    } else if |f.posInfo| > 0 {
      r := MatchByPos(flow, f);
    } else {
      return true;
    }
  }

  /** A literal host and nothing else: the fallback scan leaves these to the automaton. */
  predicate HostOnly(f: Feature) {
    f.hostUrl != "" && !IsRegexHost(f.hostUrl) && f.requestUrl == ""
  }

  ghost predicate FallbackHits(flow: Flow, f: Feature)
    requires Readable(f)
  {
    !HostOnly(f) && OneMatches(flow, f)
  }

  ghost predicate AllReadable(fs: seq<Feature>) {
    forall f :: f in fs ==> Readable(f)
  }

  ghost function FirstFallback(fs: seq<Feature>, flow: Flow): Option<Feature>
    requires AllReadable(fs)
  {
    if fs == [] then None
    else if FallbackHits(flow, fs[0]) then Some(fs[0])
    else FirstFallback(fs[1..], flow)
  }

  ghost function AutomatonHit(fs: seq<Feature>, flow: Flow): Option<Feature> {
    var host := FlowHost(flow);
    if host.None? then None else NaiveScan(Indexed(fs), flow, true, host.value, 0)
  }

  /** The staged answer for a flow that carries no DNS query. */
  ghost function Staged(fs: seq<Feature>, flow: Flow): Option<Feature>
    requires AllReadable(fs)
  {
    var hit := AutomatonHit(fs, flow);
    if hit.Some? then hit else FirstFallback(fs, flow)
  }

  const IPPROTO_UDP := 17

  predicate IsQuic(flow: Flow) {
    var d := flow.l4Data;
    flow.l4Protocol == IPPROTO_UDP && |d| >= 8 && d[0] >= 0x80 &&
    var version := ((d[1] * 256 + d[2]) * 256 + d[3]) * 256 + d[4];
    (version == 1 || version == 0 || version == 0x6b3343cf || version >= 0xff000000 || flow.dport == 443)
  }

  datatype Match = Quic | Hit(feature: Feature) | Miss

  /** The feature list and its automaton; `dirty` says the automaton is behind. */
  class FeatureTable {
    var features: seq<Feature>
    var dirty: bool
    const ac: UrlAc
    const longest: bool

    ghost predicate Valid()
      reads this, ac
    {
      ac.Valid() && (!dirty ==> ac.ready && ac.inserted == Indexed(features))
    }

    constructor (longest: bool)
      ensures Valid() && features == [] && dirty && fresh(ac)
    {
      ac := new UrlAc();
      this.longest := longest;
      features, dirty := [], true;
    }

    /** New features go to the head of the list. */
    method Add(f: Feature)
      requires Valid()
      modifies this
      ensures Valid() && features == [f] + old(features)
      ensures dirty == (old(dirty) || (f.hostUrl != "" && !IsRegexHost(f.hostUrl)))
    {
      features := [f] + features;
      IndexedCons(f, old(features));
      if |f.hostUrl| > 0 && !IsRegexHost(f.hostUrl) {
        dirty := true;
      }
    }

    method Clean()
      requires Valid()
      modifies this, ac
      ensures Valid() && features == [] && dirty
    {
      features := [];
      ac.Free();
      dirty := true;
    }

    /** After the last feature of a load, the automaton is brought up to date. */
    method LoadDone()
      requires Valid()
      modifies this, ac
      ensures Valid() && !dirty && features == old(features)
    {
      if dirty {
        ac.Rebuild(features);
        dirty := false;
      }
    }

    method MatchUrlFeature(flow: Flow, stat: MatchStat) returns (r: Option<Feature>)
      requires Valid() && !dirty
      modifies stat
      ensures r == AutomatonHit(features, flow)
    {
      if !ac.ready { return None; }
      var host := FlowHost(flow);
      if host.None? || |host.value| <= 0 { return None; }
      r := ac.MatchText(flow, stat, host.value, true);
    }

    method MatchNonUrlFeature(flow: Flow, stat: MatchStat) returns (r: Option<Feature>)
      requires AllReadable(features)
      modifies stat
      ensures r == FirstFallback(features, flow)
    {
      var i := 0;
      while i < |features|
        invariant 0 <= i <= |features|
        invariant FirstFallback(features, flow) == FirstFallback(features[i..], flow)
      {
        var f := features[i];
        i := i + 1;
        if |f.hostUrl| > 0 && !IsRegexHost(f.hostUrl) && |f.requestUrl| == 0 { continue; }
        stat.fallbackChecks := stat.fallbackChecks + 1;
        var hit := MatchOne(flow, f, longest);
        if hit { return Some(f); }
      }
      return None;
    }

    method MatchFeature(flow: Flow) returns (r: Match)
      requires Valid() && !dirty && AllReadable(features)
      ensures r == if IsQuic(flow) then Quic
                   else if Staged(features, flow).Some? then Hit(Staged(features, flow).value)
                   else Miss
    {
      var stat := new MatchStat();
      if IsQuic(flow) { return Quic; }
      var node := MatchUrlFeature(flow, stat);
      if node.Some? { return Hit(node.value); }
      node := MatchNonUrlFeature(flow, stat);
      if node.Some? { return Hit(node.value); }
      return Miss;
    }
  }

  lemma {:induction false} IndexedCons(f: Feature, fs: seq<Feature>)
    ensures Indexed([f] + fs) == (if f.hostUrl != [] && !IsRegexHost(f.hostUrl) then [f] else []) + Indexed(fs)
  {
    if fs == [] {
      assert [f] + fs == [f];
      assert [f][..0] == [];
    } else {
      assert ([f] + fs)[..|fs|] == [f] + fs[..|fs| - 1];
      IndexedCons(f, fs[..|fs| - 1]);
    }
  }
}
