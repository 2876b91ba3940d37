/** Features, flows and the conditions that need no payload text. */
module Features {
  import opened Text

  datatype PortRange = PortRange(negated: bool, start: int, end: int) {
    predicate Covers(port: int) { start <= port <= end }
  }

  datatype PosInfo = PosInfo(pos: int, value: int)

  datatype Feature = Feature(
    appId: nat, proto: nat, sport: nat, dports: seq<PortRange>,
    hostUrl: string, requestUrl: string,
    posInfo: seq<PosInfo>, searchStr: string, ignore: bool)

  /** What the parsers found in the packet; `None` where they found nothing.
      `ipLiteral` stands for the kernel's address parsers. */
  datatype Flow = Flow(
    l4Protocol: nat, sport: nat, dport: nat, l4Data: seq<int>,
    httpsHost: Option<string>, httpHost: Option<string>, httpUrl: Option<string>,
    ipLiteral: string -> bool)

  /** A negated range anywhere makes the whole list a list of exclusions. */
  predicate PortAllowed(dports: seq<PortRange>, port: int) {
    if exists i :: 0 <= i < |dports| && dports[i].negated then
      forall i :: 0 <= i < |dports| && dports[i].negated ==> !dports[i].Covers(port)
    else
      dports == [] || exists i :: 0 <= i < |dports| && dports[i].Covers(port)
  }

  method MatchPort(dports: seq<PortRange>, port: int) returns (r: bool)
    ensures r == PortAllowed(dports, port)
  {
    if |dports| == 0 { return true; }
    var withNot := false;
    var i := 0;
    while i < |dports|
      invariant 0 <= i <= |dports| && !withNot
      invariant forall j :: 0 <= j < i ==> !dports[j].negated
    {
      if dports[i].negated {
        withNot := true;
        break;
      }
      i := i + 1;
    }
    assert withNot == exists j :: 0 <= j < |dports| && dports[j].negated;
    i := 0;
    while i < |dports|
      invariant 0 <= i <= |dports|
      invariant forall j :: 0 <= j < i && (withNot ==> dports[j].negated) ==> !dports[j].Covers(port)
    {
      if withNot {
        if dports[i].negated && dports[i].start <= port && port <= dports[i].end {
          return false;
        }
      } else if dports[i].start <= port && port <= dports[i].end {
        return true;
      }
      i := i + 1;
    }
    return withNot;
  }

  predicate BasicCond(flow: Flow, f: Feature) {
    && (f.proto > 0 ==> flow.l4Protocol == f.proto)
    && (f.sport != 0 ==> flow.sport == f.sport)
    && PortAllowed(f.dports, flow.dport)
  }

  /** A host pattern goes to the regex scan only when it has all three of `^`, `*`, `$`. */
  predicate IsRegexHost(host: string) {
    host != [] && host[0] == '^' && '*' in host && '$' in host
  }

  /** What makes a flow fail a feature: another protocol, another source port, or a destination port
      that is excluded, or not listed where nothing is excluded. */
  lemma RejectedIff(flow: Flow, f: Feature)
    ensures !BasicCond(flow, f) <==>
            || (f.proto != 0 && flow.l4Protocol != f.proto)
            || (f.sport != 0 && flow.sport != f.sport)
            || (exists i :: 0 <= i < |f.dports| && f.dports[i].negated &&
                            f.dports[i].start <= flow.dport <= f.dports[i].end)
            || (f.dports != [] && forall i :: 0 <= i < |f.dports| ==>
                  !f.dports[i].negated && !(f.dports[i].start <= flow.dport <= f.dports[i].end))
  {
  }

  lemma RegexHostIff(host: string)
    ensures IsRegexHost(host) <==>
            && |host| > 0 && host[0] == '^'
            && (exists i :: 0 <= i < |host| && host[i] == '*') && (exists i :: 0 <= i < |host| && host[i] == '$')
  {
  }
}
