/** Custom applications and the ids they are given. */
module CustomApps {
  import opened Text

  const MAX_APP_TYPE := 16
  const MIN_SUFFIX := 900
  const MAX_SUFFIX := 999
  const SUFFIXES := 100

  datatype Payload = Payload(position: int, value: nat)

  datatype CustomFeature = CustomFeature(
    protocol: string, destPort: string, domain: string, uri: string, payload: seq<Payload>)

  /** An id of 0 asks for one. */
  datatype CustomApp = CustomApp(appid: int, classId: int, name: string, features: seq<CustomFeature>)

  predicate InClass(id: int, classId: int) {
    classId * 1000 + MIN_SUFFIX <= id <= classId * 1000 + MAX_SUFFIX
  }

  /** What validation of one application leaves of its class and id. */
  predicate WellPlaced(a: CustomApp) {
    1 <= a.classId <= MAX_APP_TYPE && (a.appid != 0 ==> InClass(a.appid, a.classId))
  }

  ghost predicate AllPlaced(apps: seq<CustomApp>) {
    forall i :: 0 <= i < |apps| ==> WellPlaced(apps[i])
  }

  ghost function Explicit(apps: seq<CustomApp>): set<int> {
    set i | 0 <= i < |apps| && apps[i].appid != 0 :: apps[i].appid
  }

  ghost predicate ExplicitDistinct(apps: seq<CustomApp>) {
    forall i, j :: 0 <= i < j < |apps| && apps[i].appid != 0 ==> apps[i].appid != apps[j].appid
  }

  function IdOf(classId: int, suffix: int): int { classId * 1000 + suffix }

  /** The lowest suffix from `suffix` on that the class has not used. */
  function LeastFree(used: set<int>, classId: int, suffix: nat): (r: Option<nat>)
    ensures r.Some? ==> suffix <= r.value <= MAX_SUFFIX && IdOf(classId, r.value) !in used
    ensures r.Some? ==> forall s :: suffix <= s < r.value ==> IdOf(classId, s) in used
    ensures r.None? ==> forall s :: suffix <= s <= MAX_SUFFIX ==> IdOf(classId, s) in used
    decreases MAX_SUFFIX + 1 - suffix
  {
    if suffix > MAX_SUFFIX then None
    else if IdOf(classId, suffix) !in used then Some(suffix)
    else LeastFree(used, classId, suffix + 1)
  }

  /** Gives each application without an id the least free one of its class, in list order. */
  function Assign(apps: seq<CustomApp>, used: set<int>): Option<seq<CustomApp>>
    decreases |apps|
  {
    if apps == [] then Some([])
    else
      var a := apps[0];
      if a.appid != 0 then Put(a, Assign(apps[1..], used))
      else
        var s := LeastFree(used, a.classId, MIN_SUFFIX);
        if s.None? then None
        else
          var id := IdOf(a.classId, s.value);
          Put(a.(appid := id), Assign(apps[1..], used + {id}))
  }

  function Put(a: CustomApp, r: Option<seq<CustomApp>>): Option<seq<CustomApp>> {
    if r.None? then None else Some([a] + r.value)
  }

  function ClassCount(apps: seq<CustomApp>, c: int): nat {
    if apps == [] then 0 else (if apps[0].classId == c then 1 else 0) + ClassCount(apps[1..], c)
  }

  function Pending(apps: seq<CustomApp>, c: int): nat {
    if apps == [] then 0 else (if apps[0].classId == c && apps[0].appid == 0 then 1 else 0) + Pending(apps[1..], c)
  }

  // ---------- when there is room ----------

  ghost function ClassIds(c: int): (s: set<int>)
    ensures |s| == SUFFIXES
    ensures forall id :: id in s <==> InClass(id, c)
  {
    IdsUpTo(c, SUFFIXES)
  }

  ghost function IdsUpTo(c: int, n: nat): (s: set<int>)
    ensures |s| == n
    ensures forall id :: id in s <==> c * 1000 + MIN_SUFFIX <= id < c * 1000 + MIN_SUFFIX + n
  {
    if n == 0 then {} else IdsUpTo(c, n - 1) + {c * 1000 + MIN_SUFFIX + n - 1}
  }

  ghost function UsedIn(used: set<int>, c: int): nat {
    |used * ClassIds(c)|
  }

  lemma FullClass(used: set<int>, c: int)
    ensures UsedIn(used, c) <= SUFFIXES
    ensures UsedIn(used, c) == SUFFIXES <==> LeastFree(used, c, MIN_SUFFIX).None?
  {
    var ids, both := ClassIds(c), used * ClassIds(c);
    assert ids == both + (ids - both);
    if LeastFree(used, c, MIN_SUFFIX).None? {
      forall id | id in ids ensures id in both {
        assert id == IdOf(c, id - c * 1000);
      }
      assert both == ids;
    } else {
      var free := IdOf(c, LeastFree(used, c, MIN_SUFFIX).value);
      assert free in ids - both;
    }
  }

  lemma UsedOneMore(used: set<int>, id: int, c: int, d: int)
    requires id !in used && InClass(id, c)
    ensures UsedIn(used + {id}, d) == UsedIn(used, d) + if c == d then 1 else 0
  {
    if c == d {
      assert (used + {id}) * ClassIds(d) == used * ClassIds(d) + {id};
    } else {
      assert (used + {id}) * ClassIds(d) == used * ClassIds(d);
    }
  }

  ghost predicate RoomFor(apps: seq<CustomApp>, used: set<int>) {
    forall c :: UsedIn(used, c) + Pending(apps, c) <= SUFFIXES
  }

  lemma RoomAtEnd(used: set<int>)
    ensures RoomFor([], used)
  {
    forall c ensures UsedIn(used, c) + Pending([], c) <= SUFFIXES { FullClass(used, c); }
  }

  lemma RoomAfterExplicit(apps: seq<CustomApp>, used: set<int>)
    requires apps != [] && apps[0].appid != 0
    ensures RoomFor(apps, used) <==> RoomFor(apps[1..], used)
  {
    assert forall c :: Pending(apps, c) == Pending(apps[1..], c);
  }

  lemma RoomAfterPending(apps: seq<CustomApp>, used: set<int>, id: int)
    requires apps != [] && apps[0].appid == 0 && id !in used && InClass(id, apps[0].classId)
    ensures RoomFor(apps, used) <==> RoomFor(apps[1..], used + {id})
  {
    hide UsedIn;
    forall c ensures UsedIn(used + {id}, c) + Pending(apps[1..], c) == UsedIn(used, c) + Pending(apps, c) {
      UsedOneMore(used, id, apps[0].classId, c);
    }
  }

  lemma {:induction false} AssignsIffRoom(apps: seq<CustomApp>, used: set<int>)
    requires AllPlaced(apps)
    ensures Assign(apps, used).Some? <==> RoomFor(apps, used)
    decreases |apps|
  {
    hide RoomFor, UsedIn;
    if apps == [] {
      RoomAtEnd(used);
    } else if apps[0].appid != 0 {
      AssignsIffRoom(apps[1..], used);
      RoomAfterExplicit(apps, used);
    } else {
      var c := apps[0].classId;
      var s := LeastFree(used, c, MIN_SUFFIX);
      if s.None? {
        NoRoom(apps, used);
      } else {
        AssignsIffRoom(apps[1..], used + {IdOf(c, s.value)});
        RoomAfterPending(apps, used, IdOf(c, s.value));
      }
    }
  }

  lemma NoRoom(apps: seq<CustomApp>, used: set<int>)
    requires apps != [] && apps[0].appid == 0 && LeastFree(used, apps[0].classId, MIN_SUFFIX).None?
    ensures !RoomFor(apps, used)
  {
    FullClass(used, apps[0].classId);
    assert UsedIn(used, apps[0].classId) + Pending(apps, apps[0].classId) > SUFFIXES;
  }

  lemma ExplicitCons(a: CustomApp, rest: seq<CustomApp>)
    ensures Explicit([a] + rest) == Explicit(rest) + if a.appid != 0 then {a.appid} else {}
  {
    var apps := [a] + rest;
    forall id | id in Explicit(rest) ensures id in Explicit(apps) {
      var i :| 0 <= i < |rest| && rest[i].appid != 0 && rest[i].appid == id;
      assert apps[i + 1].appid == id;
    }
    assert apps[0] == a;
  }

  /** Explicit ids and pending requests make up the class. */
  lemma {:induction false} CountSplits(apps: seq<CustomApp>, c: int)
    requires AllPlaced(apps) && ExplicitDistinct(apps)
    ensures UsedIn(Explicit(apps), c) + Pending(apps, c) == ClassCount(apps, c)
    decreases |apps|
  {
    if apps == [] {
      assert Explicit(apps) * ClassIds(c) == {};
    } else {
      var a, rest := apps[0], apps[1..];
      assert apps == [a] + rest && WellPlaced(a);
      assert forall i :: 0 <= i < |rest| ==> rest[i] == apps[i + 1];
      hide UsedIn;
      CountSplits(rest, c);
      ExplicitCons(a, rest);
      if a.appid != 0 {
        assert a.appid !in Explicit(rest);
        UsedOneMore(Explicit(rest), a.appid, a.classId, c);
      } else {
        assert Explicit(rest) + {} == Explicit(rest);
      }
    }
  }

  ghost predicate SmallClasses(apps: seq<CustomApp>) {
    forall c :: ClassCount(apps, c) <= SUFFIXES
  }

  /** Ids can be given out exactly when no class holds more than a hundred applications. */
  lemma RoomIffSmallClasses(apps: seq<CustomApp>)
    requires AllPlaced(apps) && ExplicitDistinct(apps)
    ensures Assign(apps, Explicit(apps)).Some? <==> SmallClasses(apps)
  {
    hide ClassCount, Pending, UsedIn;
    AssignsIffRoom(apps, Explicit(apps));
    forall c ensures UsedIn(Explicit(apps), c) + Pending(apps, c) == ClassCount(apps, c) {
      CountSplits(apps, c);
    }
  }

  // ---------- what was given ----------

  /** Ids given to the first `i` applications that asked. */
  ghost function Given(apps: seq<CustomApp>, r: seq<CustomApp>, i: nat): set<int>
    requires i <= |apps| == |r|
  {
    set j | 0 <= j < i && apps[j].appid == 0 :: r[j].appid
  }

  /** Only a missing id is filled in, with the least one of the class not taken by then. */
  ghost predicate Turn(apps: seq<CustomApp>, used: set<int>, r: seq<CustomApp>, i: nat)
    requires i < |apps| == |r|
  {
    && r[i] == apps[i].(appid := r[i].appid)
    && (apps[i].appid != 0 ==> r[i].appid == apps[i].appid)
    && (apps[i].appid == 0 ==> LeastId(used + Given(apps, r, i), apps[i].classId, r[i].appid))
  }

  ghost predicate LeastId(taken: set<int>, c: int, id: int) {
    InClass(id, c) && id !in taken && forall lower :: InClass(lower, c) && lower < id ==> lower in taken
  }

  lemma LeastFreeIsLeast(used: set<int>, c: int)
    requires LeastFree(used, c, MIN_SUFFIX).Some?
    ensures LeastId(used, c, IdOf(c, LeastFree(used, c, MIN_SUFFIX).value))
  {
    var s := LeastFree(used, c, MIN_SUFFIX).value;
    forall lower | InClass(lower, c) && lower < IdOf(c, s) ensures lower in used {
      assert lower == IdOf(c, lower - c * 1000);
    }
  }

  lemma {:induction false} AssignMeaning(apps: seq<CustomApp>, used: set<int>)
    requires Assign(apps, used).Some?
    ensures var r := Assign(apps, used).value;
            |r| == |apps| && forall i :: 0 <= i < |apps| ==> Turn(apps, used, r, i)
    decreases |apps|
  {
    if apps != [] {
      var a, rest, r := apps[0], apps[1..], Assign(apps, used).value;
      var used' := if a.appid != 0 then used else used + {r[0].appid};
      if a.appid == 0 { LeastFreeIsLeast(used, a.classId); }
      AssignMeaning(rest, used');
      var r' := Assign(rest, used').value;
      assert r == [r[0]] + r';
      forall i | 0 <= i < |apps| ensures Turn(apps, used, r, i) {
        if i > 0 {
          assert Turn(rest, used', r', i - 1);
          GivenShifts(apps, r, i);
          assert used' + Given(rest, r', i - 1) == used + Given(apps, r, i);
        } else {
          assert used + Given(apps, r, 0) == used;
        }
      }
    }
  }

  lemma GivenShifts(apps: seq<CustomApp>, r: seq<CustomApp>, i: nat)
    requires 0 < i <= |apps| == |r|
    ensures Given(apps, r, i) == Given(apps[1..], r[1..], i - 1) + if apps[0].appid == 0 then {r[0].appid} else {}
  {
    forall id | id in Given(apps[1..], r[1..], i - 1) ensures id in Given(apps, r, i) {
      var j :| 0 <= j < i - 1 && apps[1..][j].appid == 0 && r[1..][j].appid == id;
      assert apps[j + 1].appid == 0 && r[j + 1].appid == id;
    }
    forall id | id in Given(apps, r, i) && !(apps[0].appid == 0 && id == r[0].appid)
      ensures id in Given(apps[1..], r[1..], i - 1)
    {
      var j :| 0 <= j < i && apps[j].appid == 0 && r[j].appid == id;
      assert apps[1..][j - 1].appid == 0 && r[1..][j - 1].appid == id;
    }
  }

  /** All ids end up in their class's range and no two alike. */
  lemma AssignedIds(apps: seq<CustomApp>)
    requires AllPlaced(apps) && ExplicitDistinct(apps) && Assign(apps, Explicit(apps)).Some?
    ensures var r := Assign(apps, Explicit(apps)).value;
            && |r| == |apps|
            && (forall i :: 0 <= i < |r| ==> InClass(r[i].appid, r[i].classId))
            && (forall i, j :: 0 <= i < j < |r| ==> r[i].appid != r[j].appid)
  {
    var used := Explicit(apps);
    AssignMeaning(apps, used);
    var r := Assign(apps, used).value;
    forall i | 0 <= i < |r| ensures InClass(r[i].appid, r[i].classId) {
      assert Turn(apps, used, r, i) && WellPlaced(apps[i]);
    }
    forall i, j | 0 <= i < j < |r| ensures r[i].appid != r[j].appid {
      assert Turn(apps, used, r, i) && Turn(apps, used, r, j);
      if apps[i].appid != 0 {
        assert apps[i].appid in used;
      } else if apps[j].appid != 0 {
        assert apps[j].appid in used;
      } else {
        assert r[i].appid in Given(apps, r, j);
      }
    }
  }

  // ---------- sorting ----------

  /** The comparison the sort is given: class first, then id. */
  predicate Before(a: CustomApp, b: CustomApp) {
    if a.classId != b.classId then a.classId < b.classId else a.appid <= b.appid
  }

  function Insert(a: CustomApp, s: seq<CustomApp>): seq<CustomApp> {
    if s == [] || Before(a, s[0]) then [a] + s else [s[0]] + Insert(a, s[1..])
  }

  /** `qsort` with that comparison. */
  function SortApps(s: seq<CustomApp>): seq<CustomApp> {
    if s == [] then [] else Insert(s[0], SortApps(s[1..]))
  }

  ghost predicate Ordered(s: seq<CustomApp>) {
    forall i, j :: 0 <= i < j < |s| ==> Before(s[i], s[j])
  }

  lemma {:induction false} InsertKeeps(a: CustomApp, s: seq<CustomApp>)
    ensures multiset(Insert(a, s)) == multiset{a} + multiset(s)
    decreases |s|
  {
    if s == [] || Before(a, s[0]) {
      assert multiset([a] + s) == multiset{a} + multiset(s);
    } else {
      InsertKeeps(a, s[1..]);
      assert s == [s[0]] + s[1..];
    }
  }

  lemma {:induction false} InsertOrders(a: CustomApp, s: seq<CustomApp>)
    requires Ordered(s)
    ensures Ordered(Insert(a, s))
    ensures forall x :: x in Insert(a, s) ==> x == a || x in s
    decreases |s|
  {
    if s != [] && !Before(a, s[0]) {
      var rest, t := s[1..], Insert(a, s[1..]);
      forall x | x in rest ensures Before(s[0], x) {
        var j :| 0 <= j < |rest| && rest[j] == x;
        assert Before(s[0], s[j + 1]);
      }
      InsertOrders(a, rest);
      forall j | 0 <= j < |t| ensures Before(s[0], t[j]) {
        assert t[j] == a || t[j] in rest;
      }
    }
  }

  lemma {:induction false} SortMeaning(s: seq<CustomApp>)
    ensures Ordered(SortApps(s)) && multiset(SortApps(s)) == multiset(s)
    decreases |s|
  {
    if s != [] {
      SortMeaning(s[1..]);
      InsertKeeps(s[0], SortApps(s[1..]));
      InsertOrders(s[0], SortApps(s[1..]));
      assert s == [s[0]] + s[1..];
    }
  }

  /** The allocated list is a permutation of what was assigned, strictly ascending by id. */
  lemma AllocatedList(apps: seq<CustomApp>)
    requires AllPlaced(apps) && ExplicitDistinct(apps) && SmallClasses(apps)
    ensures Assign(apps, Explicit(apps)).Some?
    ensures var r := Assign(apps, Explicit(apps)).value;
            var out := SortApps(r);
            multiset(out) == multiset(r) && forall i, j :: 0 <= i < j < |out| ==> out[i].appid < out[j].appid
  {
    RoomIffSmallClasses(apps);
    AssignedIds(apps);
    var r := Assign(apps, Explicit(apps)).value;
    var out := SortApps(r);
    SortMeaning(r);
    forall i, j | 0 <= i < j < |out| ensures out[i].appid < out[j].appid {
      SortedStrictly(r, out, i, j);
    }
  }

  lemma SortedStrictly(r: seq<CustomApp>, out: seq<CustomApp>, i: nat, j: nat)
    requires multiset(out) == multiset(r) && Ordered(out) && i < j < |out|
    requires forall k :: 0 <= k < |r| ==> InClass(r[k].appid, r[k].classId)
    requires forall k, l :: 0 <= k < l < |r| ==> r[k].appid != r[l].appid
    ensures out[i].appid < out[j].appid
  {
    assert out[i] in multiset(r) && out[j] in multiset(r);
    if out[i] == out[j] {
      TwiceCounts(out, i, j);
      OnceCounts(r, out[i]);
    }
    assert Before(out[i], out[j]);
  }

  lemma TwiceCounts(s: seq<CustomApp>, i: nat, j: nat)
    requires i < j < |s| && s[i] == s[j]
    ensures multiset(s)[s[i]] >= 2
  {
    assert s == s[..j] + [s[j]] + s[j + 1..];
    assert s[i] in s[..j];
  }

  lemma {:induction false} OnceCounts(s: seq<CustomApp>, a: CustomApp)
    requires forall k, l :: 0 <= k < l < |s| ==> s[k].appid != s[l].appid
    ensures multiset(s)[a] <= 1
    decreases |s|
  {
    if s != [] {
      OnceCounts(s[1..], a);
      assert s == [s[0]] + s[1..];
      if s[0] == a { assert a !in s[1..]; }
    }
  }

  // ---------- the allocator ----------

  class CustomConfig {
    var apps: seq<CustomApp>

    constructor (apps: seq<CustomApp>)
      ensures this.apps == apps
    {
      this.apps := apps;
    }

    /** The table marks exactly the ids in `ids`. */
    ghost predicate Marks(used: array2<bool>, ids: set<int>)
      reads used
    {
      && used.Length0 == MAX_APP_TYPE + 1 && used.Length1 == SUFFIXES
      && forall c, s :: 1 <= c <= MAX_APP_TYPE && 0 <= s < SUFFIXES ==> (used[c, s] <==> IdOf(c, MIN_SUFFIX + s) in ids)
    }

    /** Succeeds exactly when no explicit id repeats and every class fits its range. */
    method AllocateAppids() returns (ok: bool)
      requires AllPlaced(apps)
      modifies this
      ensures ok <==> ExplicitDistinct(old(apps)) && SmallClasses(old(apps))
      ensures ok ==> Assign(old(apps), Explicit(old(apps))).Some?
      ensures ok ==> apps == SortApps(Assign(old(apps), Explicit(old(apps))).value)
    {
      ghost var was := apps;
      var used := new bool[MAX_APP_TYPE + 1, SUFFIXES]((_, _) => false);
      var unique := MarkExplicit(used);
      if !unique { return false; }
      ok := FillMissing(used);
      RoomIffSmallClasses(was);
      if ok {
        apps := SortApps(apps);
      }
    }

    /** First pass: marks the explicit ids, failing on a repeated one. */
    method MarkExplicit(used: array2<bool>) returns (ok: bool)
      requires AllPlaced(apps) && Marks(used, {})
      modifies used
      ensures ok <==> ExplicitDistinct(apps)
      ensures ok ==> Marks(used, Explicit(apps))
    {
      hide SortApps, Assign;
      var i := 0;
      while i < |apps|
        invariant 0 <= i <= |apps| && ExplicitDistinct(apps[..i]) && Marks(used, Explicit(apps[..i]))
      {
        var a := apps[i];
        assert WellPlaced(a) && apps[..i + 1] == apps[..i] + [a];
        ExplicitSnoc(apps[..i], a);
        if a.appid != 0 {
          var suffix := a.appid % 1000;
          assert a.appid == IdOf(a.classId, suffix) && MIN_SUFFIX <= suffix <= MAX_SUFFIX;
          if used[a.classId, suffix - MIN_SUFFIX] {
            assert a.appid in Explicit(apps[..i]);
            return false;
          }
          used[a.classId, suffix - MIN_SUFFIX] := true;
        }
        i := i + 1;
      }
      assert apps[..i] == apps;
      return true;
    }

    /** Second pass: each missing id becomes the first unmarked one of its class. */
    method FillMissing(used: array2<bool>) returns (ok: bool)
      requires AllPlaced(apps) && Marks(used, Explicit(apps))
      modifies this, used
      ensures ok <==> Assign(old(apps), Explicit(old(apps))).Some?
      ensures ok ==> apps == Assign(old(apps), Explicit(old(apps))).value
    {
      hide Assign, LeastFree, Explicit;
      ghost var was, ids := apps, Explicit(apps);
      var i := 0;
      assert was[0..] == was && apps[..0] == [];
      PutNothing(Assign(was, ids));
      while i < |apps|
        invariant 0 <= i <= |apps| == |was| && apps[i..] == was[i..] && Marks(used, ids)
        invariant Assign(was, Explicit(was)) == PutAll(apps[..i], Assign(was[i..], ids))
      {
        var a := apps[i];
        assert a == was[i] && WellPlaced(was[i]);
        ghost var done, rest := apps[..i], was[i..];
        assert rest[1..] == was[i + 1..];
        AssignStep(rest, ids);
        if a.appid == 0 {
          var suffix := FirstUnmarked(used, a.classId, ids);
          if suffix > MAX_SUFFIX { return false; }
          used[a.classId, suffix - MIN_SUFFIX] := true;
          a := a.(appid := a.classId * 1000 + suffix);
          apps := apps[i := a];
          ids := ids + {a.appid};
        }
        PutOneMore(done, a, Assign(was[i + 1..], ids));
        assert apps[..i + 1] == done + [a];
        i := i + 1;
      }
      assert was[i..] == [] && apps[..i] == apps && apps + [] == apps;
      AssignEnd(ids);
      return true;
    }

    method FirstUnmarked(used: array2<bool>, c: int, ghost ids: set<int>) returns (suffix: nat)
      requires Marks(used, ids) && 1 <= c <= MAX_APP_TYPE
      ensures MIN_SUFFIX <= suffix <= MAX_SUFFIX + 1
      ensures LeastFree(ids, c, MIN_SUFFIX) == if suffix > MAX_SUFFIX then None else Some(suffix)
    {
      suffix := MIN_SUFFIX;
      while suffix <= MAX_SUFFIX && used[c, suffix - MIN_SUFFIX]
        invariant MIN_SUFFIX <= suffix <= MAX_SUFFIX + 1
        invariant LeastFree(ids, c, MIN_SUFFIX) == LeastFree(ids, c, suffix)
      {
        suffix := suffix + 1;
      }
    }
  }

  lemma AssignStep(apps: seq<CustomApp>, used: set<int>)
    requires apps != []
    ensures var a := apps[0];
            Assign(apps, used) ==
            if a.appid != 0 then Put(a, Assign(apps[1..], used))
            else
              var s := LeastFree(used, a.classId, MIN_SUFFIX);
              if s.None? then None
              else Put(a.(appid := IdOf(a.classId, s.value)), Assign(apps[1..], used + {IdOf(a.classId, s.value)}))
  {
  }

  lemma AssignEnd(used: set<int>)
    ensures Assign([], used) == Some([])
  {
  }

  lemma PutNothing(r: Option<seq<CustomApp>>)
    ensures PutAll([], r) == r
  {
    if r.Some? { assert [] + r.value == r.value; }
  }

  function PutAll(done: seq<CustomApp>, r: Option<seq<CustomApp>>): Option<seq<CustomApp>> {
    if r.None? then None else Some(done + r.value)
  }

  lemma PutOneMore(done: seq<CustomApp>, a: CustomApp, r: Option<seq<CustomApp>>)
    ensures PutAll(done, Put(a, r)) == PutAll(done + [a], r)
  {
    if r.Some? { assert done + ([a] + r.value) == (done + [a]) + r.value; }
  }

  lemma ExplicitSnoc(apps: seq<CustomApp>, a: CustomApp)
    ensures Explicit(apps + [a]) == Explicit(apps) + if a.appid != 0 then {a.appid} else {}
    ensures ExplicitDistinct(apps + [a]) <==> ExplicitDistinct(apps) && a.appid !in Explicit(apps)
  {
    var more := apps + [a];
    assert more[|apps|] == a && forall i :: 0 <= i < |apps| ==> more[i] == apps[i];
  }
}
