/** Filter rules: the bucketed id set of a rule, and the search for the rule that applies. */
module AppFilter {
  import opened Text

  const BUCKETS := 256
  const MAX_IDS := 1024
  const QUIC_ID := 10

  ghost predicate Holds(bucket: seq<nat>, b: nat, ids: set<nat>) {
    && (forall i :: 0 <= i < |bucket| ==> bucket[i] % BUCKETS == b && bucket[i] in ids)
    && (forall i, j :: 0 <= i < j < |bucket| ==> bucket[i] != bucket[j])
    && (forall id :: id in ids && id % BUCKETS == b ==> id in bucket)
  }

  class AppIdSet {
    var buckets: seq<seq<nat>>
    var count: nat
    ghost var ids: set<nat>

    ghost predicate Valid()
      reads this
    {
      && |buckets| == BUCKETS && count == |ids| <= MAX_IDS
      && forall b :: 0 <= b < BUCKETS ==> Holds(buckets[b], b, ids)
    }

    constructor ()
      ensures Valid() && ids == {}
    {
      buckets, count, ids := seq(BUCKETS, _ => []), 0, {};
    }

    method Find(id: nat) returns (found: bool)
      requires Valid()
      ensures found == (id in ids)
    {
      var bucket := buckets[id % BUCKETS];
      assert Holds(bucket, id % BUCKETS, ids);
      var i := 0;
      while i < |bucket|
        invariant 0 <= i <= |bucket|
        invariant forall j :: 0 <= j < i ==> bucket[j] != id
      {
        if bucket[i] == id { return true; }
        i := i + 1;
      }
      return false;
    }

    /** An id already there is no error, full or not. */
    method Add(id: nat) returns (ok: bool)
      requires Valid()
      modifies this
      ensures Valid()
      ensures ok == (|old(ids) + {id}| <= MAX_IDS)
      ensures ids == if ok then old(ids) + {id} else old(ids)
    {
      var found := Find(id);
      if found {
        assert ids + {id} == ids;
        return true;
      }
      if count >= MAX_IDS { return false; }
      var b := id % BUCKETS;
      ghost var was := buckets;
      buckets := buckets[b := [id] + buckets[b]];
      count := count + 1;
      ids := ids + {id};
      forall c | 0 <= c < BUCKETS ensures Holds(buckets[c], c, ids) {
        assert Holds(was[c], c, old(ids));
      }
      return true;
    }

    /** Adds start..end in order and stops at the first id that does not fit. */
    method AddRange(start: int, end: int) returns (ok: bool)
      requires Valid()
      modifies this
      ensures Valid()
      ensures ok == (0 < start <= end && |old(ids) + IdRange(start, end + 1)| <= MAX_IDS)
      ensures ok ==> ids == old(ids) + IdRange(start, end + 1)
      ensures !ok && 0 < start <= end ==> exists i :: start <= i <= end && StoppedAt(ids, old(ids), start, i)
      ensures !(0 < start <= end) ==> ids == old(ids)
    {
      hide Holds, IdRange;
      if start <= 0 || end < start { return false; }
      ghost var was, all := ids, ids + IdRange(start, end + 1);
      var i := start;
      EmptyRange(start);
      while i <= end
        invariant start <= i <= end + 1 && Valid()
        invariant ids == was + IdRange(start, i)
      {
        RangeStep(was, ids, start, i, end);
        ok := Add(i);
        if !ok {
          assert StoppedAt(ids, was, start, i);
          return;
        }
        i := i + 1;
      }
      return true;
    }

    method Delete(id: nat) returns (ok: bool)
      requires Valid()
      modifies this
      ensures Valid()
      ensures ok == (id in old(ids)) && ids == old(ids) - {id}
    {
      var b := id % BUCKETS;
      var bucket := buckets[b];
      assert Holds(bucket, b, ids);
      var i := 0;
      while i < |bucket|
        invariant 0 <= i <= |bucket|
        invariant forall j :: 0 <= j < i ==> bucket[j] != id
      {
        if bucket[i] == id {
          ghost var was := buckets;
          buckets := buckets[b := bucket[..i] + bucket[i + 1..]];
          count := count - 1;
          ids := ids - {id};
          forall c | 0 <= c < BUCKETS ensures Holds(buckets[c], c, ids) {
            assert Holds(was[c], c, old(ids));
            if c == b { RemoveOne(bucket, b, old(ids), i); }
          }
          return true;
        }
        i := i + 1;
      }
      assert ids - {id} == ids;
      return false;
    }
  }

  /** The ids lo, lo + 1, ..., hi - 1. */
  ghost function IdRange(lo: int, hi: int): (s: set<nat>)
    requires 0 <= lo
    ensures forall x: nat :: x in s <==> lo <= x < hi
    decreases hi - lo
  {
    if hi <= lo then {} else IdRange(lo, hi - 1) + {hi - 1}
  }

  /** The ids before `i` are in, `i` is not, and there is no room for it. */
  ghost predicate StoppedAt(now: set<nat>, was: set<nat>, start: nat, i: nat) {
    now == was + IdRange(start, i) && |now| == MAX_IDS && i !in now
  }

  lemma EmptyRange(lo: nat)
    ensures IdRange(lo, lo) == {}
  {
  }

  lemma RangeStep(was: set<nat>, now: set<nat>, lo: nat, i: nat, end: nat)
    requires now == was + IdRange(lo, i) && lo <= i <= end
    ensures now + {i} == was + IdRange(lo, i + 1)
    ensures now <= was + IdRange(lo, end + 1) && |now + {i}| <= |was + IdRange(lo, end + 1)|
  {
    SubsetSize(now + {i}, was + IdRange(lo, end + 1));
  }

  lemma RemoveOne(bucket: seq<nat>, b: nat, ids: set<nat>, i: nat)
    requires Holds(bucket, b, ids) && i < |bucket|
    ensures Holds(bucket[..i] + bucket[i + 1..], b, ids - {bucket[i]})
  {
    var r := bucket[..i] + bucket[i + 1..];
    forall id | id in ids - {bucket[i]} && id % BUCKETS == b ensures id in r {
      var j :| 0 <= j < |bucket| && bucket[j] == id;
      assert r[if j < i then j else j - 1] == id;
    }
  }

  // ---------- rules ----------

  type Mac = seq<int>

  class Rule {
    const ruleId: int
    var enable: bool
    var filterQuic: int
    var macs: set<Mac>
    const ids: AppIdSet

    constructor (ruleId: int)
      ensures this.ruleId == ruleId && enable && filterQuic == 0 && macs == {}
      ensures ids.Valid() && ids.ids == {} && fresh(ids)
    {
      this.ruleId := ruleId;
      enable, filterQuic, macs := true, 0, {};
      ids := new AppIdSet();
    }

    /** A rule without clients is for all; QUIC has its own switch and no id. */
    ghost predicate Applies(id: nat, mac: Mac)
      reads this, ids
    {
      && enable && (mac in macs || macs == {})
      && if id == QUIC_ID then filterQuic == 1 else id in ids.ids
    }
  }

  /** The first rule of the list that applies. */
  method MatchRule(rules: seq<Rule>, id: nat, mac: Mac) returns (r: Rule?)
    requires forall k :: 0 <= k < |rules| ==> rules[k].ids.Valid()
    ensures r == null <==> forall k :: 0 <= k < |rules| ==> !rules[k].Applies(id, mac)
    ensures r != null ==>
              exists k :: 0 <= k < |rules| && rules[k] == r && r.Applies(id, mac) &&
                forall j :: 0 <= j < k ==> !rules[j].Applies(id, mac)
    ensures forall k :: 0 <= k < |rules| ==>
              (rules[k].Applies(id, mac) <==>
               && rules[k].enable && (rules[k].macs == {} || mac in rules[k].macs)
               && (id == 10 ==> rules[k].filterQuic == 1) && (id != 10 ==> id in rules[k].ids.ids))
  {
    var k := 0;
    while k < |rules|
      invariant 0 <= k <= |rules|
      invariant forall j :: 0 <= j < k ==> !rules[j].Applies(id, mac)
    {
      var rule := rules[k];
      k := k + 1;
      if !rule.enable { continue; }
      if mac !in rule.macs {
        if rule.macs != {} { continue; }
      }
      if id == QUIC_ID {
        if rule.filterQuic == 1 { return rule; }
        continue;
      }
      var found := rule.ids.Find(id);
      if found { return rule; }
    }
    return null;
  }
}
