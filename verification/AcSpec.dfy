/** What the host automaton has to compute, and the facts about suffixes it rests on. */
module AcSpec {
  import opened Text
  import opened Features

  // ---------- the reference: a scan of the feature list, no automaton ----------

  predicate Passes(flow: Flow, checkBasic: bool, f: Feature) {
    checkBasic ==> BasicCond(flow, f)
  }

  /** First feature of the list with exactly this host text that passes. */
  function FirstWith(fs: seq<Feature>, flow: Flow, check: bool, text: string): Option<Feature> {
    if fs == [] then None
    else if fs[0].hostUrl == text && Passes(flow, check, fs[0]) then Some(fs[0])
    else FirstWith(fs[1..], flow, check, text)
  }

  /** Tries the suffixes of `w` of length `len` and below, longest first. */
  function BestSuffix(fs: seq<Feature>, flow: Flow, check: bool, w: string, len: nat): Option<Feature>
    requires len <= |w|
  {
    if len == 0 then None
    else
      var hit := FirstWith(fs, flow, check, w[|w| - len..]);
      if hit.Some? then hit else BestSuffix(fs, flow, check, w, len - 1)
  }

  /** Tries the ends i+1, i+2, ... of `host` in order. */
  function NaiveScan(fs: seq<Feature>, flow: Flow, check: bool, host: string, i: nat): Option<Feature>
    requires i <= |host|
    decreases |host| - i
  {
    if i == |host| then None
    else
      var hit := BestSuffix(fs, flow, check, host[..i + 1], i + 1);
      if hit.Some? then hit else NaiveScan(fs, flow, check, host, i + 1)
  }

  lemma {:induction false} FirstWithMeaning(fs: seq<Feature>, flow: Flow, check: bool, text: string)
    ensures var r := FirstWith(fs, flow, check, text);
            match r
            case None => forall f | f in fs && f.hostUrl == text :: !Passes(flow, check, f)
            case Some(g) =>
              exists k :: 0 <= k < |fs| && fs[k] == g && g.hostUrl == text && Passes(flow, check, g) &&
                forall j :: 0 <= j < k ==> fs[j].hostUrl != text || !Passes(flow, check, fs[j])
  {
    if fs == [] {
    } else if fs[0].hostUrl == text && Passes(flow, check, fs[0]) {
    } else {
      FirstWithMeaning(fs[1..], flow, check, text);
      var r := FirstWith(fs[1..], flow, check, text);
      if r.Some? {
        var k :| 0 <= k < |fs[1..]| && fs[1..][k] == r.value && r.value.hostUrl == text &&
          Passes(flow, check, r.value) &&
          forall j :: 0 <= j < k ==> fs[1..][j].hostUrl != text || !Passes(flow, check, fs[1..][j]);
        assert fs[k + 1] == r.value;
        forall j | 0 <= j < k + 1 ensures fs[j].hostUrl != text || !Passes(flow, check, fs[j]) {
          if j > 0 { assert fs[j] == fs[1..][j - 1]; }
        }
      }
    }
  }

  /** `g` sits at position `k` of the list, passes, and no earlier feature with its text does. */
  ghost predicate FirstInserted(fs: seq<Feature>, flow: Flow, check: bool, k: nat, g: Feature) {
    && k < |fs| && fs[k] == g && Passes(flow, check, g)
    && forall j :: 0 <= j < k ==> fs[j].hostUrl != g.hostUrl || !Passes(flow, check, fs[j])
  }

  lemma {:induction false} BestSuffixMeaning(fs: seq<Feature>, flow: Flow, check: bool, w: string, len: nat)
    requires len <= |w|
    ensures var r := BestSuffix(fs, flow, check, w, len);
            match r
            case None =>
              forall f | f in fs && 0 < |f.hostUrl| <= len && IsSuffix(f.hostUrl, w) :: !Passes(flow, check, f)
            case Some(g) =>
              && 0 < |g.hostUrl| <= len && IsSuffix(g.hostUrl, w)
              && (exists k: nat :: FirstInserted(fs, flow, check, k, g))
              && forall f | f in fs && |g.hostUrl| < |f.hostUrl| <= len && IsSuffix(f.hostUrl, w) ::
                   !Passes(flow, check, f)
  {
    if len > 0 {
      var text := w[|w| - len..];
      FirstWithMeaning(fs, flow, check, text);
      var hit := FirstWith(fs, flow, check, text);
      if hit.None? {
        BestSuffixMeaning(fs, flow, check, w, len - 1);
      } else {
        var k :| 0 <= k < |fs| && fs[k] == hit.value && hit.value.hostUrl == text && Passes(flow, check, hit.value) &&
                forall j :: 0 <= j < k ==> fs[j].hostUrl != text || !Passes(flow, check, fs[j]);
        assert FirstInserted(fs, flow, check, k, hit.value);
      }
    }
  }

  /** No passing feature of these ends at `d`. */
  ghost predicate SilentAt(fs: seq<Feature>, flow: Flow, check: bool, host: string, d: nat)
    requires d <= |host|
  {
    forall f | f in fs && f.hostUrl != [] && IsSuffix(f.hostUrl, host[..d]) :: !Passes(flow, check, f)
  }

  /** Nothing longer than `g` that passes ends at `e`. */
  ghost predicate LongestAt(fs: seq<Feature>, flow: Flow, check: bool, host: string, g: Feature, e: nat)
    requires e <= |host|
  {
    forall f | f in fs && |g.hostUrl| < |f.hostUrl| && IsSuffix(f.hostUrl, host[..e]) :: !Passes(flow, check, f)
  }

  /** The winner `g` ends at `e`: nothing ends earlier, nothing longer ends there, first of its text. */
  ghost predicate Wins(fs: seq<Feature>, flow: Flow, check: bool, host: string, g: Feature, e: nat) {
    && e <= |host| && g.hostUrl != [] && IsSuffix(g.hostUrl, host[..e])
    && (exists k: nat :: FirstInserted(fs, flow, check, k, g))
    && (forall d: nat :: d < e ==> SilentAt(fs, flow, check, host, d))
    && LongestAt(fs, flow, check, host, g, e)
  }

  lemma {:induction false} NaiveScanFrom(fs: seq<Feature>, flow: Flow, check: bool, host: string, i: nat)
    requires i <= |host|
    requires forall d: nat :: d <= i ==> SilentAt(fs, flow, check, host, d)
    ensures var r := NaiveScan(fs, flow, check, host, i);
            match r
            case None => forall d: nat :: d <= |host| ==> SilentAt(fs, flow, check, host, d)
            case Some(g) => exists e: nat :: Wins(fs, flow, check, host, g, e)
    decreases |host| - i
  {
    hide SilentAt, BestSuffix, Wins;
    if i < |host| {
      var hit := BestSuffix(fs, flow, check, host[..i + 1], i + 1);
      if hit.None? {
        NoHitIsSilent(fs, flow, check, host, i + 1);
        NaiveScanFrom(fs, flow, check, host, i + 1);
      } else {
        HitWins(fs, flow, check, host, i + 1, hit.value);
      }
    }
  }

  lemma NoHitIsSilent(fs: seq<Feature>, flow: Flow, check: bool, host: string, e: nat)
    requires e <= |host| && BestSuffix(fs, flow, check, host[..e], e).None?
    ensures SilentAt(fs, flow, check, host, e)
  {
    hide BestSuffix;
    BestSuffixMeaning(fs, flow, check, host[..e], e);
  }

  lemma HitWins(fs: seq<Feature>, flow: Flow, check: bool, host: string, e: nat, g: Feature)
    requires e <= |host| && BestSuffix(fs, flow, check, host[..e], e) == Some(g)
    requires forall d: nat :: d < e ==> SilentAt(fs, flow, check, host, d)
    ensures Wins(fs, flow, check, host, g, e)
  {
    hide BestSuffix, SilentAt;
    BestSuffixMeaning(fs, flow, check, host[..e], e);
    assert LongestAt(fs, flow, check, host, g, e);
  }

  /** The scan fails exactly when no passing pattern is a substring; its answer ends
      earliest, is longest among those, and was inserted first among equal texts. */
  lemma NaiveScanMeaning(fs: seq<Feature>, flow: Flow, check: bool, host: string)
    ensures var r := NaiveScan(fs, flow, check, host, 0);
            && (r.None? <==>
                forall f | f in fs && f.hostUrl != [] && Occurs(f.hostUrl, host) :: !Passes(flow, check, f))
            && (r.Some? ==> exists e: nat :: Wins(fs, flow, check, host, r.value, e))
  {
    hide NaiveScan;
    EmptyIsSilent(fs, flow, check, host);
    NaiveScanFrom(fs, flow, check, host, 0);
    var r := NaiveScan(fs, flow, check, host, 0);
    if r.Some? {
      var e: nat :| Wins(fs, flow, check, host, r.value, e);
      var k: nat :| FirstInserted(fs, flow, check, k, r.value);
      assert r.value in fs && Occurs(r.value.hostUrl, host);
    } else {
      forall f | f in fs && f.hostUrl != [] && Occurs(f.hostUrl, host) ensures !Passes(flow, check, f) {
        var e :| 0 <= e <= |host| && IsSuffix(f.hostUrl, host[..e]);
        assert SilentAt(fs, flow, check, host, e);
      }
    }
  }

  lemma EmptyIsSilent(fs: seq<Feature>, flow: Flow, check: bool, host: string)
    ensures forall d: nat :: d <= 0 ==> SilentAt(fs, flow, check, host, d)
  {
  }

  // ---------- longest suffixes over a set of labels ----------

  /** Label `s` is the longest of `labels` that is a suffix of `w`. */
  ghost predicate IsLongest(labels: seq<string>, w: string, s: nat) {
    && s < |labels| && IsSuffix(labels[s], w)
    && forall k :: 0 <= k < |labels| && IsSuffix(labels[k], w) ==> |labels[k]| <= |labels[s]|
  }

  /** Among the suffixes of `w` that `c` extends inside the labels, none is longer than label `s`. */
  ghost predicate Bounds(labels: seq<string>, w: string, c: char, s: nat) {
    && s < |labels| && IsSuffix(labels[s], w)
    && forall k :: 0 <= k < |labels| && IsSuffix(labels[k], w) && labels[k] + [c] in labels
                   ==> |labels[k]| <= |labels[s]|
  }

  lemma LongestBounds(labels: seq<string>, w: string, c: char, s: nat)
    requires IsLongest(labels, w, s)
    ensures Bounds(labels, w, c, s)
  {
  }

  ghost predicate Distinct(labels: seq<string>) {
    forall i, j :: 0 <= i < j < |labels| ==> labels[i] != labels[j]
  }

  ghost predicate PrefixClosed(labels: seq<string>) {
    && |labels| > 0 && labels[0] == []
    && forall k :: 0 < k < |labels| ==> labels[k] != [] && labels[k][..|labels[k]| - 1] in labels
  }

  /** One jump along a fail link that leads nowhere loses nothing. */
  lemma JumpKeepsBounds(labels: seq<string>, w: string, c: char, s: nat, f: nat)
    requires Distinct(labels) && Bounds(labels, w, c, s)
    requires labels[s] != [] && labels[s] + [c] !in labels
    requires IsLongest(labels, labels[s][1..], f)
    ensures Bounds(labels, w, c, f) && |labels[f]| < |labels[s]|
  {
    var tail := labels[s][1..];
    assert IsSuffix(tail, labels[s]);
    SuffixTrans(tail, labels[s], w);
    SuffixTrans(labels[f], tail, w);
    forall k | 0 <= k < |labels| && IsSuffix(labels[k], w) && labels[k] + [c] in labels
      ensures |labels[k]| <= |labels[f]|
    {
      SuffixOfSuffix(labels[k], labels[s], w);
      SuffixOfSuffix(labels[k], tail, w);
    }
  }

  /** The child found at the end of the walk is the longest suffix of the longer text. */
  lemma ChildIsLongest(labels: seq<string>, w: string, c: char, s: nat, t: nat)
    requires PrefixClosed(labels) && Bounds(labels, w, c, s)
    requires t < |labels| && labels[t] == labels[s] + [c]
    ensures IsLongest(labels, w + [c], t)
  {
    SuffixSnoc(labels[s], w, c);
    ExtensionsBounded(labels, w, c, s);
  }

  lemma ExtensionsBounded(labels: seq<string>, w: string, c: char, s: nat)
    requires PrefixClosed(labels) && Bounds(labels, w, c, s)
    ensures forall k :: 0 <= k < |labels| && IsSuffix(labels[k], w + [c]) && labels[k] != [] ==>
              labels[k][..|labels[k]| - 1] + [c] == labels[k] && |labels[k]| <= |labels[s]| + 1
  {
    forall k | 0 <= k < |labels| && IsSuffix(labels[k], w + [c]) && labels[k] != []
      ensures labels[k][..|labels[k]| - 1] + [c] == labels[k] && |labels[k]| <= |labels[s]| + 1
    {
      SuffixUnsnoc(labels[k], w, c);
      var p := labels[k][..|labels[k]| - 1];
      assert p + [c] == labels[k];
      var j :| 0 <= j < |labels| && labels[j] == p;
    }
  }

  /** When even the root has no edge for `c`, no non-empty label ends the longer text. */
  lemma RootIsLongest(labels: seq<string>, w: string, c: char)
    requires PrefixClosed(labels) && Bounds(labels, w, c, 0) && [c] !in labels
    ensures IsLongest(labels, w + [c], 0)
  {
    ExtensionsBounded(labels, w, c, 0);
    forall k | 0 <= k < |labels| && IsSuffix(labels[k], w + [c])
      ensures labels[k] != [] ==> labels[k] == [c]
    {
    }
  }

  /** Between a label and its fail link there is nothing to report. */
  lemma GapIsSilent(fs: seq<Feature>, flow: Flow, check: bool, labels: seq<string>, w: string, hi: nat, f: nat)
    requires forall g | g in fs && g.hostUrl != [] :: g.hostUrl in labels
    requires f < |labels| && |labels[f]| <= hi <= |w|
    requires forall k :: 0 <= k < |labels| && IsSuffix(labels[k], w) && |labels[k]| <= hi ==> |labels[k]| <= |labels[f]|
    ensures BestSuffix(fs, flow, check, w, hi) == BestSuffix(fs, flow, check, w, |labels[f]|)
    decreases hi
  {
    if |labels[f]| < hi {
      FirstWithMeaning(fs, flow, check, w[|w| - hi..]);
      assert IsSuffix(w[|w| - hi..], w);
      assert FirstWith(fs, flow, check, w[|w| - hi..]).None?;
      GapIsSilent(fs, flow, check, labels, w, hi - 1, f);
    }
  }

  /** The features of the list with this host text, in list order: a node's output list. */
  function WithText(fs: seq<Feature>, text: string): seq<Feature> {
    if fs == [] then []
    else WithText(fs[..|fs| - 1], text) + if fs[|fs| - 1].hostUrl == text then [fs[|fs| - 1]] else []
  }

  /** First passing entry of an output list. */
  function FirstPassing(outputs: seq<Feature>, flow: Flow, check: bool): Option<Feature> {
    if outputs == [] then None
    else if Passes(flow, check, outputs[0]) then Some(outputs[0])
    else FirstPassing(outputs[1..], flow, check)
  }

  lemma {:induction false} FirstPassingConcat(a: seq<Feature>, b: seq<Feature>, flow: Flow, check: bool)
    ensures FirstPassing(a + b, flow, check) ==
            var r := FirstPassing(a, flow, check); if r.Some? then r else FirstPassing(b, flow, check)
  {
    if a == [] {
      assert a + b == b;
    } else {
      assert (a + b)[1..] == a[1..] + b;
      FirstPassingConcat(a[1..], b, flow, check);
    }
  }

  lemma {:induction false} FirstWithSnoc(fs: seq<Feature>, g: Feature, flow: Flow, check: bool, text: string)
    ensures FirstWith(fs + [g], flow, check, text) ==
            var r := FirstWith(fs, flow, check, text);
            if r.Some? then r else if g.hostUrl == text && Passes(flow, check, g) then Some(g) else None
  {
    if fs == [] {
      assert (fs + [g])[1..] == [];
    } else {
      assert (fs + [g])[1..] == fs[1..] + [g];
      FirstWithSnoc(fs[1..], g, flow, check, text);
    }
  }

  /** Scanning a node's output list is scanning the whole feature list for its label. */
  lemma {:induction false} OutputsAgree(fs: seq<Feature>, flow: Flow, check: bool, text: string)
    ensures FirstPassing(WithText(fs, text), flow, check) == FirstWith(fs, flow, check, text)
  {
    if fs != [] {
      var init, g := fs[..|fs| - 1], fs[|fs| - 1];
      assert init + [g] == fs;
      OutputsAgree(init, flow, check, text);
      FirstWithSnoc(init, g, flow, check, text);
      FirstPassingConcat(WithText(init, text), if g.hostUrl == text then [g] else [], flow, check);
    }
  }
}
