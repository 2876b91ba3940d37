/** The host automaton: a trie grown in place, fail links laid by a breadth-first
    queue, and a scan that walks them. Nodes are named by their place in `node_list`. */
module AhoCorasick {
  import opened Text
  import opened Features
  import opened AcSpec

  datatype Edge = Edge(ch: char, next: nat)

  datatype Node = Node(edges: seq<Edge>, outputs: seq<Feature>)

  /** Every edge spells one more character; every node but the root hangs on one edge. */
  ghost predicate IsTrie(nodes: seq<Node>, labels: seq<string>, parents: seq<nat>) {
    && |nodes| == |labels| == |parents| && |nodes| > 0 && labels[0] == []
    && Distinct(labels)
    && (forall n, e :: 0 <= n < |nodes| && 0 <= e < |nodes[n].edges| ==> EdgeOk(labels, n, nodes[n].edges[e]))
    && (forall n, d, e :: 0 <= n < |nodes| && 0 <= d < e < |nodes[n].edges| ==>
          nodes[n].edges[d].ch != nodes[n].edges[e].ch)
    && (forall m :: 0 < m < |nodes| ==> HangsOn(nodes, labels, m, parents[m]))
  }

  ghost predicate EdgeOk(labels: seq<string>, n: nat, e: Edge)
    requires n < |labels|
  {
    0 < e.next < |labels| && labels[e.next] == labels[n] + [e.ch]
  }

  ghost predicate HangsOn(nodes: seq<Node>, labels: seq<string>, m: nat, p: nat)
    requires m < |labels| && |labels| == |nodes|
  {
    p < m && labels[m] != [] && Edge(labels[m][|labels[m]| - 1], m) in nodes[p].edges
  }

  lemma TrieIsPrefixClosed(nodes: seq<Node>, labels: seq<string>, parents: seq<nat>)
    requires IsTrie(nodes, labels, parents)
    ensures PrefixClosed(labels)
  {
    forall m | 0 < m < |labels| ensures labels[m] != [] && labels[m][..|labels[m]| - 1] in labels {
      ParentLabel(nodes, labels, parents, m);
    }
  }

  lemma ParentLabel(nodes: seq<Node>, labels: seq<string>, parents: seq<nat>, m: nat)
    requires IsTrie(nodes, labels, parents) && 0 < m < |nodes|
    ensures HangsOn(nodes, labels, m, parents[m])
    ensures labels[m] == labels[parents[m]] + [labels[m][|labels[m]| - 1]]
    ensures labels[parents[m]] == labels[m][..|labels[m]| - 1]
  {
    assert HangsOn(nodes, labels, m, parents[m]);
    var p, c := parents[m], labels[m][|labels[m]| - 1];
    var e :| 0 <= e < |nodes[p].edges| && nodes[p].edges[e] == Edge(c, m);
    assert EdgeOk(labels, p, nodes[p].edges[e]);
  }

  /** A child whose label is in the trie is found on an edge of its parent. */
  lemma ChildHasEdge(nodes: seq<Node>, labels: seq<string>, parents: seq<nat>, n: nat, ch: char)
    requires IsTrie(nodes, labels, parents) && n < |nodes| && labels[n] + [ch] in labels
    ensures exists m: nat :: m < |nodes| && Edge(ch, m) in nodes[n].edges
  {
    var m :| 0 <= m < |labels| && labels[m] == labels[n] + [ch];
    ParentLabel(nodes, labels, parents, m);
    assert parents[m] == n;
  }

  /** Every node lists, in insertion order, the features whose host text is its label. */
  ghost predicate OutputsOk(nodes: seq<Node>, labels: seq<string>, inserted: seq<Feature>)
    requires |nodes| == |labels|
  {
    && (forall n :: 0 <= n < |nodes| ==> nodes[n].outputs == WithText(inserted, labels[n]))
    && (forall f | f in inserted :: f.hostUrl in labels)
  }

  /** The fail link of `m` is the node of the longest proper suffix of its text in the trie. */
  ghost predicate Linked(labels: seq<string>, fail: seq<nat>, m: nat) {
    m < |labels| == |fail| && labels[m] != [] && IsLongest(labels, labels[m][1..], fail[m])
  }

  lemma LinkAt(labels: seq<string>, fail: seq<nat>, m: nat)
    requires Linked(labels, fail, m)
    ensures m < |labels| == |fail| && labels[m] != [] && IsLongest(labels, labels[m][1..], fail[m])
    ensures fail[m] < |labels| && |labels[fail[m]]| < |labels[m]|
  {
  }

  ghost predicate LinksOk(labels: seq<string>, fail: seq<nat>) {
    && |fail| == |labels| && |labels| > 0 && fail[0] == 0
    && forall n :: 0 < n < |labels| ==> Linked(labels, fail, n)
  }

  /** Where a walk ends: on the child for `ch`, or at the root when even the root has none. */
  lemma StepIsLongest(nodes: seq<Node>, labels: seq<string>, parents: seq<nat>, w: string, ch: char, s: nat, t: nat)
    requires IsTrie(nodes, labels, parents) && Bounds(labels, w, ch, s) && t < |labels|
    requires labels[t] == labels[s] + [ch] || (s == t == 0 && [ch] !in labels)
    ensures IsLongest(labels, w + [ch], t)
  {
    TrieIsPrefixClosed(nodes, labels, parents);
    if labels[t] == labels[s] + [ch] {
      ChildIsLongest(labels, w, ch, s, t);
    } else {
      RootIsLongest(labels, w, ch);
    }
  }

  // ---------- the breadth-first queue ----------

  /** The root and q[..h] have all their children in `q`; q[h] has those of its first `i` edges. */
  ghost predicate Reached(nodes: seq<Node>, parents: seq<nat>, q: seq<nat>, h: nat, i: nat, m: nat)
    requires m < |parents| && h <= |q| && forall j :: 0 <= j < |q| ==> q[j] < |nodes|
  {
    || parents[m] == 0 || parents[m] in q[..h]
    || (h < |q| && exists e :: 0 <= e < i && e < |nodes[q[h]].edges| && nodes[q[h]].edges[e].next == m)
  }

  /** No node is queued twice, the queue is exactly what was reached, and depths never drop. */
  ghost predicate QueueOk(nodes: seq<Node>, labels: seq<string>, parents: seq<nat>, q: seq<nat>, h: nat, i: nat)
    requires |labels| == |parents| == |nodes|
  {
    && h <= |q|
    && (forall j :: 0 <= j < |q| ==> 0 < q[j] < |nodes|)
    && (forall j, k :: 0 <= j < k < |q| ==> q[j] != q[k])
    && (forall m :: 0 < m < |nodes| ==> (m in q <==> Reached(nodes, parents, q, h, i, m)))
    && (forall j, k :: 0 <= j < k < |q| ==> |labels[q[j]]| <= |labels[q[k]]|)
    && (h < |q| ==> forall j :: 0 <= j < |q| ==> |labels[q[j]]| <= |labels[q[h]]| + 1)
  }

  lemma EdgeGivesParent(nodes: seq<Node>, labels: seq<string>, parents: seq<nat>, n: nat, e: nat)
    requires IsTrie(nodes, labels, parents) && n < |nodes| && e < |nodes[n].edges|
    ensures 0 < nodes[n].edges[e].next < |nodes| && parents[nodes[n].edges[e].next] == n
  {
    assert EdgeOk(labels, n, nodes[n].edges[e]);
    ParentLabel(nodes, labels, parents, nodes[n].edges[e].next);
  }

  lemma ParentGivesEdge(nodes: seq<Node>, labels: seq<string>, parents: seq<nat>, m: nat)
    requires IsTrie(nodes, labels, parents) && 0 < m < |nodes|
    ensures parents[m] < m && exists e :: 0 <= e < |nodes[parents[m]].edges| && nodes[parents[m]].edges[e].next == m
  {
    assert HangsOn(nodes, labels, m, parents[m]);
  }

  lemma EnqueueKeepsQueue(nodes: seq<Node>, labels: seq<string>, parents: seq<nat>, q: seq<nat>, h: nat, i: nat)
    requires IsTrie(nodes, labels, parents) && QueueOk(nodes, labels, parents, q, h, i)
    requires h < |q| && i < |nodes[q[h]].edges|
    ensures var next := nodes[q[h]].edges[i].next;
            next !in q && 0 < next < |nodes| && QueueOk(nodes, labels, parents, q + [next], h, i + 1)
  {
    var v := q[h];
    var edge := nodes[v].edges[i];
    var next := edge.next;
    EdgeGivesParent(nodes, labels, parents, v, i);
    assert EdgeOk(labels, v, edge);
    forall e | 0 <= e < i ensures nodes[v].edges[e].next != next {
      assert EdgeOk(labels, v, nodes[v].edges[e]);
      assert labels[next][|labels[next]| - 1] == edge.ch;
    }
    assert v !in q[..h] && v != 0;
    assert !Reached(nodes, parents, q, h, i, next);
    var q' := q + [next];
    assert q'[..h] == q[..h];
    forall m | 0 < m < |nodes| ensures m in q' <==> Reached(nodes, parents, q', h, i + 1, m) {
      assert m in q <==> Reached(nodes, parents, q, h, i, m);
      if m != next && Reached(nodes, parents, q', h, i + 1, m) && parents[m] != 0 && parents[m] !in q[..h] {
        var e :| 0 <= e < i + 1 && e < |nodes[v].edges| && nodes[v].edges[e].next == m;
        assert e < i;
      }
      if m == next {
        assert 0 <= i < i + 1 && nodes[q'[h]].edges[i].next == m;
      }
    }
  }

  lemma AdvanceKeepsQueue(nodes: seq<Node>, labels: seq<string>, parents: seq<nat>, q: seq<nat>, h: nat)
    requires IsTrie(nodes, labels, parents)
    requires h < |q| && q[h] < |nodes|
    requires QueueOk(nodes, labels, parents, q, h, |nodes[q[h]].edges|)
    ensures QueueOk(nodes, labels, parents, q, h + 1, 0)
  {
    var v := q[h];
    assert q[..h + 1] == q[..h] + [v];
    forall m | 0 < m < |nodes| ensures m in q <==> Reached(nodes, parents, q, h + 1, 0, m) {
      assert m in q <==> Reached(nodes, parents, q, h, |nodes[v].edges|, m);
      ParentGivesEdge(nodes, labels, parents, m);
      forall e | 0 <= e < |nodes[v].edges| && nodes[v].edges[e].next == m ensures parents[m] == v {
        EdgeGivesParent(nodes, labels, parents, v, e);
      }
    }
  }

  /** Everything no deeper than the node at the head is already queued; at the end, everything is. */
  lemma {:induction false} NothingShallowMissing(nodes: seq<Node>, labels: seq<string>, parents: seq<nat>,
                                               q: seq<nat>, h: nat, m: nat)
    requires IsTrie(nodes, labels, parents) && QueueOk(nodes, labels, parents, q, h, 0)
    requires 0 < m < |nodes| && (h < |q| ==> |labels[m]| <= |labels[q[h]]|)
    ensures m in q
  {
    var p := parents[m];
    ParentLabel(nodes, labels, parents, m);
    if p != 0 {
      NothingShallowMissing(nodes, labels, parents, q, h, p);
      var a :| 0 <= a < |q| && q[a] == p;
      assert a < h;
      assert q[..h][a] == p;
    }
    assert Reached(nodes, parents, q, h, 0, m);
  }

  ghost predicate AllLinked(labels: seq<string>, fail: seq<nat>, q: seq<nat>) {
    forall j :: 0 <= j < |q| ==> Linked(labels, fail, q[j])
  }

  ghost predicate UpToLinked(labels: seq<string>, fail: seq<nat>, depth: nat) {
    forall m :: 0 < m < |labels| && |labels[m]| <= depth ==> Linked(labels, fail, m)
  }

  lemma LinkOneMore(labels: seq<string>, fail: seq<nat>, q: seq<nat>, next: nat, f: nat)
    requires AllLinked(labels, fail, q) && next !in q && next < |fail| == |labels|
    requires labels[next] != [] && IsLongest(labels, labels[next][1..], f)
    ensures AllLinked(labels, fail[next := f], q + [next])
  {
  }

  lemma LinkedBelow(labels: seq<string>, fail: seq<nat>, depth: nat, next: nat, f: nat)
    requires UpToLinked(labels, fail, depth) && next < |fail| == |labels| && |labels[next]| > depth
    ensures UpToLinked(labels, fail[next := f], depth)
  {
    forall m | 0 < m < |labels| && |labels[m]| <= depth ensures Linked(labels, fail[next := f], m) {
      assert Linked(labels, fail, m);
    }
  }

  lemma LinkedAtDepth(labels: seq<string>, fail: seq<nat>, m: nat)
    requires 0 < m < |labels| && UpToLinked(labels, fail, |labels[m]|)
    ensures Linked(labels, fail, m) && labels[m] != []
  {
  }

  lemma ShallowLinked(nodes: seq<Node>, labels: seq<string>, parents: seq<nat>, fail: seq<nat>, q: seq<nat>, h: nat)
    requires IsTrie(nodes, labels, parents) && QueueOk(nodes, labels, parents, q, h, 0) && h < |q|
    requires AllLinked(labels, fail, q)
    ensures 0 < q[h] < |labels| && UpToLinked(labels, fail, |labels[q[h]]|)
  {
    forall m | 0 < m < |labels| && |labels[m]| <= |labels[q[h]]| ensures Linked(labels, fail, m) {
      NothingShallowMissing(nodes, labels, parents, q, h, m);
    }
  }

  lemma QueueExhausted(nodes: seq<Node>, labels: seq<string>, parents: seq<nat>, fail: seq<nat>, q: seq<nat>)
    requires IsTrie(nodes, labels, parents) && QueueOk(nodes, labels, parents, q, |q|, 0)
    requires AllLinked(labels, fail, q) && |fail| == |labels| && fail[0] == 0
    ensures LinksOk(labels, fail)
    ensures forall m: nat :: m in q <==> 0 < m < |nodes|
    ensures forall j, k :: 0 <= j < k < |q| ==> q[j] != q[k]
  {
    forall m | 0 < m < |labels| ensures m in q && Linked(labels, fail, m) {
      NothingShallowMissing(nodes, labels, parents, q, |q|, m);
    }
  }

  lemma QueueFits(nodes: seq<Node>, labels: seq<string>, parents: seq<nat>, q: seq<nat>, h: nat, i: nat)
    requires |labels| == |parents| == |nodes| && QueueOk(nodes, labels, parents, q, h, i) && q != []
    ensures |q| < |nodes|
  {
    DistinctFits(q, |nodes|);
  }

  lemma EdgeText(nodes: seq<Node>, labels: seq<string>, parents: seq<nat>, n: nat, e: nat)
    requires IsTrie(nodes, labels, parents) && 0 < n < |nodes| && e < |nodes[n].edges|
    ensures var edge := nodes[n].edges[e];
            && 0 < edge.next < |nodes| && labels[n] != [] && labels[edge.next] == labels[n] + [edge.ch]
            && labels[edge.next][1..] == labels[n][1..] + [edge.ch]
  {
    assert EdgeOk(labels, n, nodes[n].edges[e]);
    assert HangsOn(nodes, labels, n, parents[n]);
  }

  /** A child of the head, linked and queued, leaves the queue in order. */
  lemma ChildQueued(nodes: seq<Node>, labels: seq<string>, parents: seq<nat>, fail: seq<nat>, q: seq<nat>,
                    h: nat, i: nat, f: nat)
    requires IsTrie(nodes, labels, parents) && QueueOk(nodes, labels, parents, q, h, i)
    requires h < |q| && i < |nodes[q[h]].edges| && |fail| == |labels|
    requires AllLinked(labels, fail, q) && UpToLinked(labels, fail, |labels[q[h]]|)
    requires labels[q[h]] != [] && IsLongest(labels, labels[q[h]][1..] + [nodes[q[h]].edges[i].ch], f)
    ensures var next := nodes[q[h]].edges[i].next;
            && 0 < next < |nodes| && |q| + 1 < |nodes|
            && QueueOk(nodes, labels, parents, q + [next], h, i + 1)
            && AllLinked(labels, fail[next := f], q + [next])
            && UpToLinked(labels, fail[next := f], |labels[q[h]]|)
  {
    var next := nodes[q[h]].edges[i].next;
    EnqueueKeepsQueue(nodes, labels, parents, q, h, i);
    EdgeText(nodes, labels, parents, q[h], i);
    hide IsTrie, QueueOk;
    LinkOneMore(labels, fail, q, next, f);
    LinkedBelow(labels, fail, |labels[q[h]]|, next, f);
    QueueFits(nodes, labels, parents, q + [next], h, i + 1);
  }

  /** While the root's edges are walked the queue holds the children met so far. */
  ghost predicate RootQueued(nodes: seq<Node>, labels: seq<string>, parents: seq<nat>, q: seq<nat>)
    requires |labels| == |parents| == |nodes| > 0
  {
    && |q| <= |nodes[0].edges|
    && forall j :: 0 <= j < |q| ==> q[j] == nodes[0].edges[j].next
  }

  lemma RootEnqueue(nodes: seq<Node>, labels: seq<string>, parents: seq<nat>, q: seq<nat>, fail: seq<nat>)
    requires IsTrie(nodes, labels, parents) && |q| < |nodes[0].edges| && RootQueued(nodes, labels, parents, q)
    requires |fail| == |labels| 
    ensures var next := nodes[0].edges[|q|].next;
            next !in q && 0 < next < |nodes| && Linked(labels, fail[next := 0], next)
            && (forall j :: 0 <= j < |q| ==> 0 < q[j] < |nodes|)
            && (forall j, k :: 0 <= j < k < |q| ==> q[j] != q[k])
  {
    forall j | 0 <= j <= |q| ensures EdgeOk(labels, 0, nodes[0].edges[j]) {
    }
    var next := nodes[0].edges[|q|].next;
    assert labels[next][1..] == [];
    forall j, k | 0 <= j < k <= |q| ensures nodes[0].edges[j].next != nodes[0].edges[k].next {
      assert labels[nodes[0].edges[j].next] == [nodes[0].edges[j].ch];
      assert labels[nodes[0].edges[k].next] == [nodes[0].edges[k].ch];
    }
  }

  lemma RootDone(nodes: seq<Node>, labels: seq<string>, parents: seq<nat>, q: seq<nat>)
    requires IsTrie(nodes, labels, parents) && |q| == |nodes[0].edges| && RootQueued(nodes, labels, parents, q)
    ensures QueueOk(nodes, labels, parents, q, 0, 0)
  {
    forall j | 0 <= j < |q| ensures 0 < q[j] < |nodes| && |labels[q[j]]| == 1 {
      assert EdgeOk(labels, 0, nodes[0].edges[j]);
    }
    forall j, k | 0 <= j < k < |q| ensures q[j] != q[k] {
      assert EdgeOk(labels, 0, nodes[0].edges[j]) && EdgeOk(labels, 0, nodes[0].edges[k]);
      assert labels[q[j]] == [nodes[0].edges[j].ch] && labels[q[k]] == [nodes[0].edges[k].ch];
    }
    forall m | 0 < m < |nodes| ensures m in q <==> Reached(nodes, parents, q, 0, 0, m) {
      ParentGivesEdge(nodes, labels, parents, m);
      if m in q {
        var j :| 0 <= j < |q| && q[j] == m;
        EdgeGivesParent(nodes, labels, parents, 0, j);
      }
    }
  }

  /** Distinct non-root nodes are fewer than the nodes. */
  lemma DistinctFits(q: seq<nat>, n: nat)
    requires forall j :: 0 <= j < |q| ==> 0 < q[j] < n
    requires forall j, k :: 0 <= j < k < |q| ==> q[j] != q[k]
    ensures q != [] ==> |q| < n
  {
    if q != [] {
      SetOfDistinct(q);
      assert Elements(q) <= Below(n) - {0};
      SubsetSize(Elements(q), Below(n) - {0});
    }
  }

  ghost function Elements(q: seq<nat>): set<nat> {
    set x | x in q
  }

  ghost function Below(n: nat): (s: set<nat>)
    ensures |s| == n
    ensures forall x: nat :: x in s <==> x < n
  {
    if n == 0 then {} else Below(n - 1) + {n - 1}
  }

  lemma {:induction false} SetOfDistinct(q: seq<nat>)
    requires forall j, k :: 0 <= j < k < |q| ==> q[j] != q[k]
    ensures |Elements(q)| == |q|
  {
    if q == [] {
      assert Elements(q) == {};
    } else {
      var init, last := q[..|q| - 1], q[|q| - 1];
      SetOfDistinct(init);
      assert last !in init;
      assert q == init + [last];
      assert Elements(q) == Elements(init) + {last};
    }
  }

  /** The patterns the automaton holds: host texts that do not look like a regex. */
  function Indexed(features: seq<Feature>): seq<Feature> {
    if features == [] then []
    else
      var f := features[|features| - 1];
      Indexed(features[..|features| - 1]) + if f.hostUrl != [] && !IsRegexHost(f.hostUrl) then [f] else []
  }

  lemma EmptyIsLongest(nodes: seq<Node>, labels: seq<string>, parents: seq<nat>)
    requires IsTrie(nodes, labels, parents)
    ensures |labels| > 0 && labels[0] == [] && IsLongest(labels, [], 0)
  {
  }

  /** Having reported nothing at `iter`, the walk may go on at its fail link. */
  lemma NextReport(labels: seq<string>, fail: seq<nat>, fs: seq<Feature>, flow: Flow, check: bool, w: string, iter: nat)
    requires Linked(labels, fail, iter) && IsSuffix(labels[iter], w)
    requires forall f | f in fs :: f.hostUrl in labels
    requires FirstWith(fs, flow, check, labels[iter]).None?
    ensures fail[iter] < |labels| && IsSuffix(labels[fail[iter]], w)
    ensures BestSuffix(fs, flow, check, w, |labels[iter]|) == BestSuffix(fs, flow, check, w, |labels[fail[iter]]|)
  {
    var tail := labels[iter][1..];
    SuffixTrans(labels[fail[iter]], tail, labels[iter]);
    SuffixTrans(labels[fail[iter]], labels[iter], w);
    forall k | 0 <= k < |labels| && IsSuffix(labels[k], w) && |labels[k]| <= |labels[iter]| - 1
      ensures |labels[k]| <= |labels[fail[iter]]|
    {
      SuffixOfSuffix(labels[k], labels[iter], w);
      SuffixOfSuffix(labels[k], tail, labels[iter]);
    }
    GapIsSilent(fs, flow, check, labels, w, |labels[iter]| - 1, fail[iter]);
  }

  /** Counters of one match, shared by the caller's stages. */
  class MatchStat {
    var stateSteps: nat
    var failJumps: nat
    var candidateChecks: nat
    var matchCount: nat
    var fallbackChecks: nat
    constructor ()
      ensures stateSteps == failJumps == candidateChecks == matchCount == fallbackChecks == 0
    {
      stateSteps, failJumps, candidateChecks, matchCount, fallbackChecks := 0, 0, 0, 0, 0;
    }
  }

  class UrlAc {
    var nodes: seq<Node>
    var fail: seq<nat>
    var nodeCount: nat
    var edgeCount: nat
    var outputCount: nat
    var ready: bool
    ghost var labels: seq<string>
    ghost var parents: seq<nat>
    ghost var inserted: seq<Feature>

    /** The trie holds exactly the inserted features; the counters count it. */
    ghost predicate Grown()
      reads `nodes, `labels, `parents, `inserted, `nodeCount, `edgeCount, `outputCount
    {
      && IsTrie(nodes, labels, parents) && OutputsOk(nodes, labels, inserted)
      && nodeCount == |nodes| && edgeCount == nodeCount - 1 && outputCount == |inserted|
    }

    /** Every node has room for its link. */
    ghost predicate Linkable()
      reads `nodes, `fail
    {
      |fail| == |nodes|
    }

    ghost predicate Valid()
      reads this
    {
      ready ==> Grown() && LinksOk(labels, fail)
    }

    lemma GrownFacts()
      requires Grown()
      ensures IsTrie(nodes, labels, parents) && OutputsOk(nodes, labels, inserted)
      ensures nodeCount == |nodes| == |labels| == |parents| && labels[0] == [] && Distinct(labels)
    {
    }

    constructor ()
      ensures Valid() && !ready
    {
      nodes, fail, nodeCount, edgeCount, outputCount, ready := [], [], 0, 0, 0, false;
      labels, parents, inserted := [], [], [];
    }

    /** Frees every node. */
    method Free()
      modifies this
      ensures Valid() && !ready && nodes == [] && edgeCount == outputCount == 0 && inserted == []
    {
      nodes, fail, nodeCount, edgeCount, outputCount, ready := [], [], 0, 0, 0, false;
      labels, parents, inserted := [], [], [];
    }

    /** Frees every node and allocates a lone root. */
    method Reset()
      modifies this
      ensures Grown() && Linkable() && !ready && inserted == []
    {
      Free();
      nodes, fail, nodeCount := [Node([], [])], [0], 1;
      labels, parents := [[]], [0];
    }

    method FindNext(n: nat, ch: char) returns (r: Option<nat>)
      requires Grown() && n < |nodes|
      ensures r.None? <==> labels[n] + [ch] !in labels
      ensures r.Some? ==>
                r.value < |nodes| && Edge(ch, r.value) in nodes[n].edges && labels[r.value] == labels[n] + [ch]
    {
      var edges := nodes[n].edges;
      var i := 0;
      while i < |edges|
        invariant 0 <= i <= |edges|
        invariant forall j :: 0 <= j < i ==> edges[j].ch != ch
      {
        if edges[i].ch == ch {
          assert EdgeOk(labels, n, edges[i]) && edges[i] == Edge(ch, edges[i].next);
          return Some(edges[i].next);
        }
        i := i + 1;
      }
      if labels[n] + [ch] in labels {
        ChildHasEdge(nodes, labels, parents, n, ch);
      }
      return None;
    }

    /** Steps to the child for `ch`, hanging a fresh node at the head of the edge list if needed. */
    method GetOrCreateNext(n: nat, ch: char) returns (child: nat)
      requires Grown() && Linkable() && n < |nodes|
      modifies this
      ensures Grown() && Linkable() && inserted == old(inserted) && ready == old(ready)
      ensures old(labels) <= labels && child < |nodes| == |labels| && labels[child] == old(labels)[n] + [ch]
      ensures forall k :: |old(labels)| <= k < |labels| ==> labels[k] == labels[child]
    {
      hide IsTrie, OutputsOk;
      GrownFacts();
      var found := FindNext(n, ch);
      if found.Some? { return found.value; }
      child := |nodes|;
      ghost var text := labels[n] + [ch];
      nodes := nodes[n := nodes[n].(edges := [Edge(ch, child)] + nodes[n].edges)] + [Node([], [])];
      fail, nodeCount, edgeCount := fail + [0], nodeCount + 1, edgeCount + 1;
      labels, parents := labels + [text], parents + [n];
      GrowKeepsTrie(old(nodes), old(labels), old(parents), n, ch, nodes);
      GrowKeepsOutputs(old(nodes), old(labels), inserted, n, text, nodes);
    }

    /** Spells the feature's host text into the trie and appends it to the last node's output list. */
    method InsertPattern(f: Feature)
      requires Grown() && Linkable()
      modifies this
      ensures Grown() && Linkable() && ready == old(ready)
      ensures inserted == old(inserted) + if f.hostUrl == [] then [] else [f]
    {
      hide IsTrie, OutputsOk;
      GrownFacts();
      var len := |f.hostUrl|;
      if len <= 0 { return; }
      var cur: nat := 0;
      var i := 0;
      while i < len
        invariant 0 <= i <= len && Grown() && Linkable() && cur < |nodes| == |labels| && labels[cur] == f.hostUrl[..i]
        invariant inserted == old(inserted) && ready == old(ready)
      {
        cur := GetOrCreateNext(cur, f.hostUrl[i]);
        i := i + 1;
      }
      GrownFacts();
      ghost var before := nodes;
      nodes := nodes[cur := nodes[cur].(outputs := nodes[cur].outputs + [f])];
      outputCount := outputCount + 1;
      inserted := inserted + [f];
      AppendKeepsOutputs(before, labels, old(inserted), cur, f, nodes);
      SameEdgesKeepTrie(before, nodes, labels, parents);
    }

    /** The inner walk: the longest label that ends `labels[v][1..] + [ch]`. */
    method WalkFails(v: nat, ch: char) returns (t: nat)
      requires Grown() && 0 < v < |nodes| && Linked(labels, fail, v)
      requires UpToLinked(labels, fail, |labels[v]|)
      ensures IsLongest(labels, labels[v][1..] + [ch], t)
    {
      assert labels[0] == [] && |labels| == |nodes| && Distinct(labels);
      LinkAt(labels, fail, v);
      hide IsTrie, OutputsOk, Linked, IsLongest, Distinct;
      ghost var w := labels[v][1..];
      var f := fail[v];
      LongestBounds(labels, w, ch, f);
      var fallback: Option<nat> := None;
      while f != 0
        invariant Bounds(labels, w, ch, f) && |labels[f]| < |labels[v]|
        invariant fallback.None?
        decreases |labels[f]|
      {
        fallback := FindNext(f, ch);
        if fallback.Some? { break; }
        LinkAt(labels, fail, f);
        JumpKeepsBounds(labels, w, ch, f, fail[f]);
        f := fail[f];
      }
      if fallback.None? {
        fallback := FindNext(0, ch);
        assert labels[0] + [ch] == [ch];
      }
      t := if fallback.Some? then fallback.value else 0;
      StepIsLongest(nodes, labels, parents, w, ch, f, t);
    }

    /** Queues the root's children, whose fail link is the root. */
    method QueueRootChildren(queue: array<nat>) returns (tail: nat)
      requires Grown() && Linkable() && queue.Length == |nodes|
      modifies `fail, queue
      ensures Linkable() && fail[0] == 0 && tail < queue.Length
      ensures QueueOk(nodes, labels, parents, queue[..tail], 0, 0) && AllLinked(labels, fail, queue[..tail])
    {
      hide OutputsOk, Linked;
      tail := 0;
      fail := fail[0 := 0];
      while tail < |nodes[0].edges|
        invariant 0 <= tail <= |nodes[0].edges| && Linkable() && fail[0] == 0 && tail < queue.Length
        invariant RootQueued(nodes, labels, parents, queue[..tail]) && AllLinked(labels, fail, queue[..tail])
      {
        var next := nodes[0].edges[tail].next;
        ghost var q, was := queue[..tail], fail;
        RootEnqueue(nodes, labels, parents, q, fail);
        fail := fail[next := 0];
        queue[tail] := next;
        tail := tail + 1;
        assert queue[..tail] == q + [next];
        LinkOneMore(labels, was, q, next, 0);
        DistinctFits(queue[..tail], |nodes|);
      }
      RootDone(nodes, labels, parents, queue[..tail]);
    }

    /** Links and queues the children of the node at the head. */
    method ExpandNode(queue: array<nat>, h: nat, tail0: nat) returns (tail: nat)
      requires Grown() && Linkable() && fail[0] == 0 && h < tail0 < queue.Length == |nodes|
      requires QueueOk(nodes, labels, parents, queue[..tail0], h, 0) && AllLinked(labels, fail, queue[..tail0])
      modifies `fail, queue
      ensures Linkable() && fail[0] == 0 && tail0 <= tail < queue.Length
      ensures QueueOk(nodes, labels, parents, queue[..tail], h + 1, 0) && AllLinked(labels, fail, queue[..tail])
    {
      hide Grown, IsTrie, Linked, QueueOk, AllLinked, UpToLinked, IsLongest;
      GrownFacts();
      var cur := queue[h];
      ShallowLinked(nodes, labels, parents, fail, queue[..tail0], h);
      tail := tail0;
      var i := 0;
      while i < |nodes[cur].edges|
        invariant 0 <= i <= |nodes[cur].edges| && tail0 <= tail < queue.Length && Linkable() && fail[0] == 0
        invariant queue[h] == cur && QueueOk(nodes, labels, parents, queue[..tail], h, i)
        invariant UpToLinked(labels, fail, |labels[cur]|) && AllLinked(labels, fail, queue[..tail])
      {
        var edge := nodes[cur].edges[i];
        LinkedAtDepth(labels, fail, cur);
        var f := WalkFails(cur, edge.ch);
        ghost var q := queue[..tail];
        ChildQueued(nodes, labels, parents, fail, q, h, i, f);
        fail := fail[edge.next := f];
        queue[tail] := edge.next;
        tail := tail + 1;
        i := i + 1;
        assert queue[..tail] == q + [edge.next];
      }
      AdvanceKeepsQueue(nodes, labels, parents, queue[..tail], h);
    }

    /** Lays every fail link. The queue holds each non-root node once, so it never overruns. */
    method BuildFailLinks() returns (ghost order: seq<nat>)
      requires Grown() && Linkable()
      modifies `fail
      ensures LinksOk(labels, fail)
      ensures forall m: nat :: m in order <==> 0 < m < |nodes|
      ensures forall j, k :: 0 <= j < k < |order| ==> order[j] != order[k]
    {
      hide Grown, IsTrie, Linked, QueueOk, AllLinked, LinksOk;
      GrownFacts();
      var queue := new nat[nodeCount](_ => 0);
      var head := 0;
      var tail := QueueRootChildren(queue);
      while head < tail
        invariant head <= tail < queue.Length == |nodes| && Linkable() && fail[0] == 0
        invariant QueueOk(nodes, labels, parents, queue[..tail], head, 0) && AllLinked(labels, fail, queue[..tail])
        decreases |nodes| - head
      {
        tail := ExpandNode(queue, head, tail);
        head := head + 1;
      }
      order := queue[..tail];
      QueueExhausted(nodes, labels, parents, fail, order);
    }

    /** Discards the automaton and builds it again from the feature list. */
    method Rebuild(features: seq<Feature>)
      modifies this
      ensures Valid() && ready && inserted == Indexed(features)
    {
      hide IsTrie, OutputsOk, LinksOk;
      Reset();
      var i := 0;
      while i < |features|
        invariant 0 <= i <= |features| && Grown() && Linkable() && !ready && inserted == Indexed(features[..i])
      {
        assert features[..i + 1][..i] == features[..i];
        if |features[i].hostUrl| != 0 && !IsRegexHost(features[i].hostUrl) {
          InsertPattern(features[i]);
        }
        i := i + 1;
      }
      assert features[..i] == features;
      ghost var order := BuildFailLinks();
      ready := true;
    }

    /** One character: follow fail links until some node has an edge for it, or the root gives up. */
    method Advance(stat: MatchStat, state: nat, ch: char, ghost w: string) returns (t: nat)
      requires Grown() && LinksOk(labels, fail) && IsLongest(labels, w, state)
      modifies stat
      ensures t < |labels| && IsLongest(labels, w + [ch], t)
      ensures stat.failJumps + |labels[t]| <= old(stat.failJumps) + |labels[state]| + 1
      ensures stat.stateSteps == old(stat.stateSteps) + 1
      ensures stat.candidateChecks == old(stat.candidateChecks) && stat.matchCount == old(stat.matchCount)
      ensures stat.fallbackChecks == old(stat.fallbackChecks)
    {
      assert labels[0] == [] && |labels| == |nodes| && Distinct(labels);
      LongestBounds(labels, w, ch, state);
      hide IsTrie, OutputsOk, IsLongest, Linked, Distinct;
      var s := state;
      var next: Option<nat> := FindNext(s, ch);
      stat.stateSteps := stat.stateSteps + 1;
      while next.None? && s != 0
        invariant Bounds(labels, w, ch, s)
        invariant next.None? <==> labels[s] + [ch] !in labels
        invariant next.Some? ==> next.value < |labels| && labels[next.value] == labels[s] + [ch]
        invariant stat.failJumps + |labels[s]| <= old(stat.failJumps) + |labels[state]|
        invariant stat.stateSteps == old(stat.stateSteps) + 1
        invariant stat.candidateChecks == old(stat.candidateChecks) && stat.matchCount == old(stat.matchCount)
        invariant stat.fallbackChecks == old(stat.fallbackChecks)
        decreases |labels[s]|
      {
        assert Linked(labels, fail, s);
        LinkAt(labels, fail, s);
        JumpKeepsBounds(labels, w, ch, s, fail[s]);
        s := fail[s];
        stat.failJumps := stat.failJumps + 1;
        next := FindNext(s, ch);
      }
      t := if next.Some? then next.value else 0;
      assert s == 0 ==> labels[s] + [ch] == [ch];
      StepIsLongest(nodes, labels, parents, w, ch, s, t);
    }

    /** Walks the fail links from `state` and returns the first output that passes. */
    method Report(flow: Flow, stat: MatchStat, state: nat, check: bool, ghost w: string) returns (r: Option<Feature>)
      requires Grown() && LinksOk(labels, fail) && IsLongest(labels, w, state)
      modifies stat
      ensures r == BestSuffix(inserted, flow, check, w, |w|)
      ensures stat.stateSteps == old(stat.stateSteps) && stat.failJumps == old(stat.failJumps)
      ensures stat.matchCount == old(stat.matchCount) + if r.Some? then 1 else 0
      ensures stat.fallbackChecks == old(stat.fallbackChecks)
    {
      assert |labels| == |nodes| && labels[0] == [] && IsSuffix(labels[state], w);
      GapIsSilent(inserted, flow, check, labels, w, |w|, state);
      hide IsTrie, Linked, IsLongest;
      var iter: nat := state;
      while iter != 0
        invariant iter < |labels| && IsSuffix(labels[iter], w)
        invariant BestSuffix(inserted, flow, check, w, |labels[iter]|) == BestSuffix(inserted, flow, check, w, |w|)
        invariant stat.stateSteps == old(stat.stateSteps) && stat.failJumps == old(stat.failJumps)
        invariant stat.matchCount == old(stat.matchCount) && stat.fallbackChecks == old(stat.fallbackChecks)
        decreases |labels[iter]|
      {
        assert Linked(labels, fail, iter);
        LinkAt(labels, fail, iter);
        var outputs := nodes[iter].outputs;
        OutputsAgree(inserted, flow, check, labels[iter]);
        var i := 0;
        while i < |outputs|
          invariant 0 <= i <= |outputs|
          invariant FirstPassing(outputs, flow, check) == FirstPassing(outputs[i..], flow, check)
          invariant stat.stateSteps == old(stat.stateSteps) && stat.failJumps == old(stat.failJumps)
          invariant stat.matchCount == old(stat.matchCount) && stat.fallbackChecks == old(stat.fallbackChecks)
        {
          stat.candidateChecks := stat.candidateChecks + 1;
          if !check || BasicCond(flow, outputs[i]) {
            stat.matchCount := stat.matchCount + 1;
            return Some(outputs[i]);
          }
          i := i + 1;
        }
        NextReport(labels, fail, inserted, flow, check, w, iter);
        iter := fail[iter];
      }
      r := None;
    }

    /** The scan of one host. It agrees with the scan that uses no automaton, and it never
        makes more fail jumps than it reads characters. */
    method MatchText(flow: Flow, stat: MatchStat, host: string, check: bool) returns (r: Option<Feature>)
      requires Valid()
      modifies stat
      ensures r == if ready then NaiveScan(inserted, flow, check, host, 0) else None
      ensures stat.failJumps - old(stat.failJumps) <= stat.stateSteps - old(stat.stateSteps) <= |host|
      ensures stat.matchCount == old(stat.matchCount) + if r.Some? then 1 else 0
      ensures stat.fallbackChecks == old(stat.fallbackChecks)
    {
      hide Grown, IsTrie, OutputsOk, LinksOk, IsLongest, BestSuffix;
      if |host| <= 0 || !ready { return None; }
      var state: nat := 0;
      var i := 0;
      GrownFacts();
      EmptyIsLongest(nodes, labels, parents);
      while i < |host|
        invariant 0 <= i <= |host| && state < |labels| && IsLongest(labels, host[..i], state)
        invariant NaiveScan(inserted, flow, check, host, 0) == NaiveScan(inserted, flow, check, host, i)
        invariant stat.failJumps + |labels[state]| - old(stat.failJumps) <= stat.stateSteps - old(stat.stateSteps)
        invariant stat.stateSteps == old(stat.stateSteps) + i
        invariant stat.matchCount == old(stat.matchCount) && stat.fallbackChecks == old(stat.fallbackChecks)
      {
        state := Advance(stat, state, host[i], host[..i]);
        assert host[..i] + [host[i]] == host[..i + 1];
        r := Report(flow, stat, state, check, host[..i + 1]);
        i := i + 1;
        if r.Some? { return; }
      }
      r := None;
    }
  }

  lemma GrowKeepsOutputs(a: seq<Node>, labels: seq<string>, fs: seq<Feature>, n: nat, text: string, b: seq<Node>)
    requires |a| == |labels| && n < |a| && OutputsOk(a, labels, fs) && text !in labels
    requires |b| == |a| + 1 && b[|a|].outputs == []
    requires forall k :: 0 <= k < |a| ==> b[k].outputs == a[k].outputs
    ensures OutputsOk(b, labels + [text], fs)
  {
    NoText(fs, labels, text);
  }

  lemma AppendKeepsOutputs(a: seq<Node>, labels: seq<string>, fs: seq<Feature>, n: nat, f: Feature, b: seq<Node>)
    requires |a| == |labels| && n < |a| && OutputsOk(a, labels, fs) && labels[n] == f.hostUrl && Distinct(labels)
    requires b == a[n := a[n].(outputs := a[n].outputs + [f])]
    ensures OutputsOk(b, labels, fs + [f])
  {
    assert (fs + [f])[..|fs|] == fs;
    forall k | 0 <= k < |b| ensures b[k].outputs == WithText(fs + [f], labels[k]) {
      assert a[k].outputs == WithText(fs, labels[k]);
    }
  }

  lemma NoText(fs: seq<Feature>, labels: seq<string>, text: string)
    requires forall f | f in fs :: f.hostUrl in labels
    requires text !in labels
    ensures WithText(fs, text) == []
  {
    if fs != [] {
      assert fs[|fs| - 1] in fs;
      NoText(fs[..|fs| - 1], labels, text);
    }
  }

  lemma SameEdgesKeepTrie(a: seq<Node>, b: seq<Node>, labels: seq<string>, parents: seq<nat>)
    requires IsTrie(a, labels, parents) && |a| == |b|
    requires forall n :: 0 <= n < |a| ==> a[n].edges == b[n].edges
    ensures IsTrie(b, labels, parents)
  {
    forall m | 0 < m < |b| ensures HangsOn(b, labels, m, parents[m]) {
      assert HangsOn(a, labels, m, parents[m]);
    }
  }

  lemma GrowKeepsTrie(a: seq<Node>, labels: seq<string>, parents: seq<nat>, n: nat, ch: char, b: seq<Node>)
    requires IsTrie(a, labels, parents) && n < |a| && labels[n] + [ch] !in labels
    requires b == a[n := a[n].(edges := [Edge(ch, |a|)] + a[n].edges)] + [Node([], [])]
    ensures IsTrie(b, labels + [labels[n] + [ch]], parents + [n])
  {
    var labels', parents' := labels + [labels[n] + [ch]], parents + [n];
    assert forall k :: 0 <= k < |labels| ==> labels'[k] == labels[k];
    assert labels'[0] == [];
    forall i, j | 0 <= i < j < |labels'| ensures labels'[i] != labels'[j] {
      assert labels'[i] in labels;
    }
    forall m, e | 0 <= m < |b| && 0 <= e < |b[m].edges| ensures EdgeOk(labels', m, b[m].edges[e]) {
      if m == n {
        if e > 0 { assert EdgeOk(labels, n, a[n].edges[e - 1]); }
      } else {
        assert EdgeOk(labels, m, a[m].edges[e]);
      }
    }
    forall m, d, e | 0 <= m < |b| && 0 <= d < e < |b[m].edges| ensures b[m].edges[d].ch != b[m].edges[e].ch {
      if m == n && d == 0 {
        assert EdgeOk(labels, n, a[n].edges[e - 1]);
      }
    }
    forall m | 0 < m < |b| ensures HangsOn(b, labels', m, parents'[m]) {
      if m < |a| {
        assert HangsOn(a, labels, m, parents[m]);
        var p := parents[m];
        if p == n { assert b[n].edges[1..] == a[n].edges; }
      }
    }
  }
}
