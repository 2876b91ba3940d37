/** Spreading visits over the hours of the day and keeping each hour's top apps. */
module Hours {
  import opened Text

  const HOURS := 24
  const MAX_APPS := 8
  const HOUR_SECS := 3600

  datatype Visit = Visit(appid: int, first: nat, latest: nat)

  /** The calendar: which hour a time falls in, and when the next one starts. */
  datatype Calendar = Calendar(hourOf: nat -> int, next: nat -> nat)

  ghost predicate Regular(c: Calendar) {
    && (forall t: nat :: 0 <= c.hourOf(t) < HOURS)
    && (forall t: nat :: t < c.next(t))
  }

  datatype Segment = Segment(hour: int, length: nat)

  // ---------- splitting ----------

  function Segments(c: Calendar, cursor: nat, end: nat): seq<Segment>
    requires Regular(c)
    decreases end - cursor
  {
    if cursor >= end then []
    else
      var stop := Min(end, c.next(cursor));
      [Segment(c.hourOf(cursor), stop - cursor)] + Segments(c, stop, end)
  }

  /** A visit with no extent counts one second in its hour. */
  function VisitSegments(c: Calendar, v: Visit): seq<Segment>
    requires Regular(c)
  {
    if v.latest <= v.first then [Segment(c.hourOf(v.first), 1)] else Segments(c, v.first, v.latest)
  }

  function SumIn(segs: seq<Segment>, hour: int): nat {
    if segs == [] then 0 else (if segs[0].hour == hour then segs[0].length else 0) + SumIn(segs[1..], hour)
  }

  function Duration(c: Calendar, v: Visit, hour: int): nat
    requires Regular(c)
  {
    SumIn(VisitSegments(c, v), hour)
  }

  function DurationUpTo(c: Calendar, v: Visit, n: nat): nat
    requires Regular(c)
  {
    if n == 0 then 0 else DurationUpTo(c, v, n - 1) + Duration(c, v, n - 1)
  }

  method GetVisitDurationInHour(c: Calendar, v: Visit, target: int) returns (total: nat)
    requires Regular(c)
    ensures total == if 0 <= target < HOURS then Duration(c, v, target) else 0
  {
    total := 0;
    if target < 0 || target >= HOURS { return; }
    if v.latest <= v.first {
      ghost var one := VisitSegments(c, v);
      assert one[1..] == [];
      assert SumIn(one[1..], target) == 0;
      return if c.hourOf(v.first) == target then 1 else 0;
    }
    var cursor := v.first;
    while cursor < v.latest
      invariant total + SumIn(Segments(c, cursor, v.latest), target) == Duration(c, v, target)
      decreases v.latest - cursor
    {
      var nextHour := c.next(cursor);
      var stop := if v.latest < nextHour then v.latest else nextHour;
      var length := stop - cursor;
      if length == 0 { length := 1; }
      if c.hourOf(cursor) == target { total := total + length; }
      cursor := stop;
    }
  }

  function Total(segs: seq<Segment>): nat {
    if segs == [] then 0 else segs[0].length + Total(segs[1..])
  }

  function SumUpTo(segs: seq<Segment>, n: nat): nat {
    if n == 0 then 0 else SumUpTo(segs, n - 1) + SumIn(segs, n - 1)
  }

  lemma {:induction false} SumUpToCons(segs: seq<Segment>, n: nat)
    requires segs != []
    ensures SumUpTo(segs, n) == SumUpTo(segs[1..], n) + if 0 <= segs[0].hour < n then segs[0].length else 0
    decreases n
  {
    if n > 0 { SumUpToCons(segs, n - 1); }
  }

  lemma {:induction false} NothingIn(n: nat)
    ensures SumUpTo([], n) == 0
  {
    if n > 0 { NothingIn(n - 1); }
  }

  lemma {:induction false} HoursCoverSegments(segs: seq<Segment>)
    requires forall i :: 0 <= i < |segs| ==> 0 <= segs[i].hour < HOURS
    ensures SumUpTo(segs, HOURS) == Total(segs)
    decreases |segs|
  {
    if segs == [] {
      NothingIn(HOURS);
    } else {
      SumUpToCons(segs, HOURS);
      HoursCoverSegments(segs[1..]);
    }
  }

  lemma {:induction false} SegmentsTotal(c: Calendar, cursor: nat, end: nat)
    requires Regular(c)
    ensures Total(Segments(c, cursor, end)) == if cursor < end then end - cursor else 0
    ensures forall i :: 0 <= i < |Segments(c, cursor, end)| ==> 0 <= Segments(c, cursor, end)[i].hour < HOURS
    decreases end - cursor
  {
    if cursor < end { SegmentsTotal(c, Min(end, c.next(cursor)), end); }
  }

  lemma {:induction false} SameSums(c: Calendar, v: Visit, n: nat)
    requires Regular(c)
    ensures DurationUpTo(c, v, n) == SumUpTo(VisitSegments(c, v), n)
    decreases n
  {
    if n > 0 { SameSums(c, v, n - 1); }
  }

  /** Nothing of a visit is lost or counted twice: over the day it is its whole extent. */
  lemma HoursAddUp(c: Calendar, v: Visit)
    requires Regular(c)
    ensures DurationUpTo(c, v, HOURS) == if v.first < v.latest then v.latest - v.first else 1
  {
    SameSums(c, v, HOURS);
    SegmentsTotal(c, v.first, v.latest);
    HoursCoverSegments(VisitSegments(c, v));
  }

  // ---------- the slots of an hour ----------

  datatype Slot = Slot(appid: int, total: nat)

  function Capped(n: nat): nat { Min(n, HOUR_SECS) }

  function Place(slots: seq<Slot>, appid: int): (r: Option<nat>)
    ensures r.Some? ==> r.value < |slots| && slots[r.value].appid == appid
    ensures r.None? ==> forall i :: 0 <= i < |slots| ==> slots[i].appid != appid
  {
    if slots == [] then None
    else if slots[0].appid == appid then Some(0)
    else match Place(slots[1..], appid)
      case None => None
      case Some(i) => Some(i + 1)
  }

  /** The first of the least slots. */
  function Least(slots: seq<Slot>): (r: nat)
    requires slots != []
    ensures r < |slots| && forall i :: 0 <= i < |slots| ==> slots[r].total <= slots[i].total
    ensures forall i :: 0 <= i < r ==> slots[r].total < slots[i].total
  {
    if |slots| == 1 then 0
    else
      var r := Least(slots[..|slots| - 1]);
      if slots[|slots| - 1].total < slots[r].total then |slots| - 1 else r
  }

  /** A known app adds up to the cap; a new one takes a free slot or displaces a smaller one. */
  function Added(slots: seq<Slot>, appid: int, duration: nat): seq<Slot>
    requires |slots| <= MAX_APPS
  {
    var at := Place(slots, appid);
    if at.Some? then slots[at.value := Slot(appid, Capped(slots[at.value].total + duration))]
    else if |slots| < MAX_APPS then slots + [Slot(appid, Capped(duration))]
    else
      var least := Least(slots);
      if duration > slots[least].total then slots[least := Slot(appid, Capped(duration))] else slots
  }

  class HourStats {
    var slots: seq<seq<Slot>>

    ghost predicate Valid()
      reads this
    {
      |slots| == HOURS && forall h :: 0 <= h < HOURS ==> |slots[h]| <= MAX_APPS
    }

    constructor ()
      ensures Valid() && slots == seq(HOURS, _ => [])
    {
      slots := seq(HOURS, _ => []);
    }

    method AddAppDuration(hour: int, appid: int, duration: nat)
      requires Valid()
      modifies this
      ensures Valid()
      ensures slots == if 0 <= hour < HOURS && appid > 0 && duration > 0
                       then old(slots)[hour := Added(old(slots)[hour], appid, duration)] else old(slots)
    {
      if hour < 0 || hour >= HOURS || appid <= 0 || duration == 0 { return; }
      var row := slots[hour];
      var i := 0;
      while i < |row| && row[i].appid != appid
        invariant 0 <= i <= |row|
        invariant forall j :: 0 <= j < i ==> row[j].appid != appid
      {
        i := i + 1;
      }
      PlaceIsFirst(row, appid, i);
      if i < |row| {
        var total := row[i].total + duration;
        if total > HOUR_SECS { total := HOUR_SECS; }
        row := row[i := Slot(appid, total)];
      } else if |row| < MAX_APPS {
        row := row + [Slot(appid, if duration > HOUR_SECS then HOUR_SECS else duration)];
      } else {
        var least := FindLeast(row);
        if duration > row[least].total {
          row := row[least := Slot(appid, if duration > HOUR_SECS then HOUR_SECS else duration)];
        }
      }
      slots := slots[hour := row];
    }

    method FindLeast(row: seq<Slot>) returns (least: nat)
      requires row != []
      ensures least == Least(row)
    {
      least := 0;
      var i := 1;
      while i < |row|
        invariant 1 <= i <= |row| && least == Least(row[..i])
      {
        assert row[..i + 1][..i] == row[..i];
        if row[i].total < row[least].total { least := i; }
        i := i + 1;
      }
      assert row[..i] == row;
    }

    method AccumulateVisit(c: Calendar, v: Visit)
      requires Valid() && Regular(c)
      modifies this
      ensures Valid()
      ensures forall h :: 0 <= h < HOURS ==> slots[h] == AddAll(old(slots)[h], Load(v.appid, VisitSegments(c, v), h))
    {
      hide Added, AddAll, Load, Segments;
      if v.appid <= 0 {
        NothingLoaded(old(slots), v.appid, VisitSegments(c, v));
        return;
      }
      if v.latest <= v.first {
        ghost var one := VisitSegments(c, v);
        assert one[1..] == [];
        AddAppDuration(c.hourOf(v.first), v.appid, 1);
        forall h | 0 <= h < HOURS ensures slots[h] == AddAll(old(slots)[h], Load(v.appid, one, h)) {
          FirstSegment(old(slots)[h], v.appid, one, h);
          NoSegmentsLeft(slots[h], v.appid, one[1..], h);
        }
        return;
      }
      var cursor := v.first;
      while cursor < v.latest
        invariant Valid()
        invariant forall h :: 0 <= h < HOURS ==>
                    AddAll(slots[h], Load(v.appid, Segments(c, cursor, v.latest), h)) ==
                    AddAll(old(slots)[h], Load(v.appid, VisitSegments(c, v), h))
        decreases v.latest - cursor
      {
        var nextHour := c.next(cursor);
        var stop := if v.latest < nextHour then v.latest else nextHour;
        var length := stop - cursor;
        if length == 0 { length := 1; }
        ghost var before := slots;
        forall h | 0 <= h < HOURS
          ensures AddAll(SegmentAdded(before[h], v.appid, Segment(c.hourOf(cursor), length), h),
                         Load(v.appid, Segments(c, stop, v.latest), h)) ==
                  AddAll(before[h], Load(v.appid, Segments(c, cursor, v.latest), h))
        {
          NextSegment(c, before[h], v.appid, cursor, v.latest, h);
        }
        AddAppDuration(c.hourOf(cursor), v.appid, length);
        cursor := stop;
      }
      assert Segments(c, cursor, v.latest) == [] by { NoneAfterEnd(c, cursor, v.latest); }
      forall h | 0 <= h < HOURS ensures AddAll(slots[h], Load(v.appid, Segments(c, cursor, v.latest), h)) == slots[h] {
        NoSegmentsLeft(slots[h], v.appid, Segments(c, cursor, v.latest), h);
      }
    }

    method AccumulateVisits(c: Calendar, visits: seq<Visit>)
      requires Valid() && Regular(c)
      modifies this
      ensures Valid()
      ensures forall h :: 0 <= h < HOURS ==> slots[h] == AddAll(old(slots)[h], HourLoad(c, visits, h))
    {
      var i := 0;
      while i < |visits|
        invariant 0 <= i <= |visits| && Valid()
        invariant forall h :: 0 <= h < HOURS ==> slots[h] == AddAll(old(slots)[h], HourLoad(c, visits[..i], h))
      {
        AccumulateVisit(c, visits[i]);
        forall h | 0 <= h < HOURS
          ensures slots[h] == AddAll(old(slots)[h], HourLoad(c, visits[..i + 1], h))
        {
          assert visits[..i + 1][..i] == visits[..i];
          AddAllJoins(old(slots)[h], HourLoad(c, visits[..i], h),
                      Load(visits[i].appid, VisitSegments(c, visits[i]), h));
        }
        i := i + 1;
      }
      assert visits[..i] == visits;
    }
  }

  lemma {:induction false} PlaceIsFirst(row: seq<Slot>, appid: int, i: nat)
    requires i <= |row| && (forall j :: 0 <= j < i ==> row[j].appid != appid) && (i < |row| ==> row[i].appid == appid)
    ensures Place(row, appid) == if i < |row| then Some(i) else None
    decreases i
  {
    if i > 0 { PlaceIsFirst(row[1..], appid, i - 1); }
  }

  // ---------- hours that never overflow their slots ----------

  /** The segments of every visit that fall in one hour, as the durations added to its slots. */
  function HourLoad(c: Calendar, visits: seq<Visit>, hour: int): seq<Slot>
    requires Regular(c)
  {
    if visits == [] then []
    else
      var last := |visits| - 1;
      HourLoad(c, visits[..last], hour) + Load(visits[last].appid, VisitSegments(c, visits[last]), hour)
  }

  function Load(appid: int, segs: seq<Segment>, hour: int): (r: seq<Slot>)
    ensures forall i :: 0 <= i < |r| ==> r[i].appid == appid
  {
    if segs == [] || appid <= 0 then []
    else (if segs[0].hour == hour && segs[0].length > 0 then [Slot(appid, segs[0].length)] else [])
         + Load(appid, segs[1..], hour)
  }

  function AddAll(slots: seq<Slot>, load: seq<Slot>): (r: seq<Slot>)
    requires |slots| <= MAX_APPS
    ensures |r| <= MAX_APPS
    decreases |load|
  {
    if load == [] then slots else AddAll(Added(slots, load[0].appid, load[0].total), load[1..])
  }

  /** How much of a load belongs to an app. */
  function TotalOf(load: seq<Slot>, appid: int): nat {
    if load == [] then 0 else (if load[0].appid == appid then load[0].total else 0) + TotalOf(load[1..], appid)
  }

  function AppsOf(load: seq<Slot>): set<int> {
    set i | 0 <= i < |load| :: load[i].appid
  }

  function SegmentAdded(slots: seq<Slot>, appid: int, seg: Segment, hour: int): (r: seq<Slot>)
    requires |slots| <= MAX_APPS
    ensures |r| <= MAX_APPS
  {
    if seg.hour == hour && seg.length > 0 then Added(slots, appid, seg.length) else slots
  }

  lemma FirstSegment(slots: seq<Slot>, appid: int, segs: seq<Segment>, hour: int)
    requires |slots| <= MAX_APPS && segs != [] && appid > 0
    ensures AddAll(slots, Load(appid, segs, hour)) ==
            AddAll(SegmentAdded(slots, appid, segs[0], hour), Load(appid, segs[1..], hour))
  {
    var rest := Load(appid, segs[1..], hour);
    if segs[0].hour == hour && segs[0].length > 0 {
      var load := [Slot(appid, segs[0].length)] + rest;
      assert load[1..] == rest;
    } else {
      assert [] + rest == rest;
    }
  }

  lemma NextSegment(c: Calendar, slots: seq<Slot>, appid: int, cursor: nat, end: nat, hour: int)
    requires Regular(c) && |slots| <= MAX_APPS && cursor < end && appid > 0
    ensures var stop := Min(end, c.next(cursor));
            AddAll(SegmentAdded(slots, appid, Segment(c.hourOf(cursor), stop - cursor), hour),
                   Load(appid, Segments(c, stop, end), hour)) ==
            AddAll(slots, Load(appid, Segments(c, cursor, end), hour))
  {
    hide Added, AddAll, Load, SegmentAdded;
    FirstSegment(slots, appid, Segments(c, cursor, end), hour);
    assert Segments(c, cursor, end)[1..] == Segments(c, Min(end, c.next(cursor)), end);
  }

  lemma NoneAfterEnd(c: Calendar, cursor: nat, end: nat)
    requires Regular(c) && cursor >= end
    ensures Segments(c, cursor, end) == []
  {
  }

  lemma NoSegmentsLeft(slots: seq<Slot>, appid: int, segs: seq<Segment>, hour: int)
    requires |slots| <= MAX_APPS && segs == []
    ensures AddAll(slots, Load(appid, segs, hour)) == slots
  {
  }

  lemma NothingLoaded(rows: seq<seq<Slot>>, appid: int, segs: seq<Segment>)
    requires appid <= 0 && forall h :: 0 <= h < |rows| ==> |rows[h]| <= MAX_APPS
    ensures forall h :: 0 <= h < |rows| ==> AddAll(rows[h], Load(appid, segs, h)) == rows[h]
  {
  }

  lemma {:induction false} AddAllJoins(slots: seq<Slot>, first: seq<Slot>, rest: seq<Slot>)
    requires |slots| <= MAX_APPS
    ensures AddAll(slots, first + rest) == AddAll(AddAll(slots, first), rest)
    decreases |first|
  {
    if first == [] {
      assert first + rest == rest;
    } else {
      assert (first + rest)[1..] == first[1..] + rest;
      AddAllJoins(Added(slots, first[0].appid, first[0].total), first[1..], rest);
    }
  }

  lemma {:induction false} TotalOfJoins(first: seq<Slot>, rest: seq<Slot>, appid: int)
    ensures TotalOf(first + rest, appid) == TotalOf(first, appid) + TotalOf(rest, appid)
  {
    if first == [] {
      assert first + rest == rest;
    } else {
      assert (first + rest)[1..] == first[1..] + rest;
      TotalOfJoins(first[1..], rest, appid);
    }
  }

  ghost predicate OneSlotEach(slots: seq<Slot>) {
    forall i, j :: 0 <= i < j < |slots| ==> slots[i].appid != slots[j].appid
  }

  /** The slots are exactly the capped totals of the apps of a load. */
  ghost predicate Tallies(slots: seq<Slot>, load: seq<Slot>) {
    && OneSlotEach(slots)
    && AppsOf(slots) == AppsOf(load)
    && forall i :: 0 <= i < |slots| ==> slots[i].total == Capped(TotalOf(load, slots[i].appid))
  }

  lemma {:induction false} SlotsCountApps(slots: seq<Slot>)
    requires OneSlotEach(slots)
    ensures |AppsOf(slots)| == |slots|
  {
    if slots != [] {
      var last := |slots| - 1;
      SlotsCountApps(slots[..last]);
      assert AppsOf(slots) == AppsOf(slots[..last]) + {slots[last].appid};
    }
  }

  lemma {:induction false} NoneOfAbsent(load: seq<Slot>, appid: int)
    requires appid !in AppsOf(load)
    ensures TotalOf(load, appid) == 0
  {
    if load != [] {
      assert load[0].appid in AppsOf(load);
      assert forall i :: 0 <= i < |load[1..]| ==> load[1..][i] == load[i + 1];
      NoneOfAbsent(load[1..], appid);
    }
  }

  lemma LoadSnoc(load: seq<Slot>, x: Slot)
    ensures AppsOf(load + [x]) == AppsOf(load) + {x.appid}
    ensures forall a :: TotalOf(load + [x], a) == TotalOf(load, a) + if x.appid == a then x.total else 0
  {
    assert (load + [x])[|load|] == x;
    assert forall i :: 0 <= i < |load| ==> (load + [x])[i] == load[i];
    forall a ensures TotalOf(load + [x], a) == TotalOf(load, a) + if x.appid == a then x.total else 0 {
      TotalOfJoins(load, [x], a);
      assert [x][1..] == [];
    }
  }

  lemma TalliesKnown(slots: seq<Slot>, load: seq<Slot>, x: Slot, at: nat)
    requires |slots| <= MAX_APPS && Tallies(slots, load)
    requires Place(slots, x.appid) == Some(at)
    ensures Tallies(Added(slots, x.appid, x.total), load + [x])
  {
    hide TotalOf;
    var r := Added(slots, x.appid, x.total);
    LoadSnoc(load, x);
    assert at < |slots| && slots[at].appid == x.appid;
    assert x.appid in AppsOf(slots);
    assert forall i :: 0 <= i < |slots| ==> r[i].appid == slots[i].appid;
    assert AppsOf(r) == AppsOf(slots);
    forall i | 0 <= i < |r| ensures r[i].total == Capped(TotalOf(load + [x], r[i].appid)) {
      if i == at {
      } else {
        assert slots[i].appid != slots[at].appid;
      }
    }
  }

  lemma TalliesNew(slots: seq<Slot>, load: seq<Slot>, x: Slot)
    requires |slots| <= MAX_APPS && Tallies(slots, load)
    requires |AppsOf(load + [x])| <= MAX_APPS && Place(slots, x.appid).None?
    ensures Tallies(Added(slots, x.appid, x.total), load + [x])
  {
    hide TotalOf, Least;
    LoadSnoc(load, x);
    assert x.appid !in AppsOf(slots);
    NoneOfAbsent(load, x.appid);
    SlotsCountApps(slots);
    var r := slots + [Slot(x.appid, Capped(x.total))];
    assert Added(slots, x.appid, x.total) == r;
    LoadSnoc(slots, r[|slots|]);
    forall i | 0 <= i < |r| ensures r[i].total == Capped(TotalOf(load + [x], r[i].appid)) {
      if i < |slots| { assert r[i] == slots[i] && slots[i].appid in AppsOf(slots); }
    }
  }

  lemma {:induction false} FewAppsTally(load: seq<Slot>)
    requires |AppsOf(load)| <= MAX_APPS
    ensures Tallies(AddAll([], load), load)
    decreases |load|
  {
    hide Added;
    if load != [] {
      var last := |load| - 1;
      var before := AddAll([], load[..last]);
      assert load == load[..last] + [load[last]];
      LoadSnoc(load[..last], load[last]);
      SubsetSize(AppsOf(load[..last]), AppsOf(load));
      FewAppsTally(load[..last]);
      AddAllJoins([], load[..last], [load[last]]);
      assert [load[last]][1..] == [];
      match Place(before, load[last].appid)
      case Some(at) => TalliesKnown(before, load[..last], load[last], at);
      case None => TalliesNew(before, load[..last], load[last]);
    }
  }

  /** The slots are the capped totals of all the apps, in whatever order they come, exactly when they are few. */
  lemma TallyIffFewApps(load: seq<Slot>)
    ensures Tallies(AddAll([], load), load) <==> |AppsOf(load)| <= MAX_APPS
  {
    if |AppsOf(load)| <= MAX_APPS {
      FewAppsTally(load);
    } else if OneSlotEach(AddAll([], load)) {
      SlotsCountApps(AddAll([], load));
    }
  }

  /** One slot per app, each an app of the load and none above its capped total. */
  ghost predicate Undercounts(slots: seq<Slot>, load: seq<Slot>) {
    && OneSlotEach(slots)
    && forall i :: 0 <= i < |slots| ==>
         slots[i].appid in AppsOf(load) && slots[i].total <= Capped(TotalOf(load, slots[i].appid))
  }

  lemma UndercountsStep(slots: seq<Slot>, load: seq<Slot>, x: Slot)
    requires |slots| <= MAX_APPS && Undercounts(slots, load)
    ensures Undercounts(Added(slots, x.appid, x.total), load + [x])
  {
    hide TotalOf, AppsOf, Least, Place;
    LoadSnoc(load, x);
    var r := Added(slots, x.appid, x.total);
    forall i | 0 <= i < |r|
      ensures r[i].appid in AppsOf(load + [x]) && r[i].total <= Capped(TotalOf(load + [x], r[i].appid))
    {
      if i < |slots| && r[i] == slots[i] { assert slots[i].appid in AppsOf(load); }
    }
  }

  /** However many apps there are, no slot ever shows more than its app's capped total. */
  lemma {:induction false} NeverOvercounts(load: seq<Slot>)
    ensures Undercounts(AddAll([], load), load)
    decreases |load|
  {
    hide Added;
    if load != [] {
      var last := |load| - 1;
      assert load == load[..last] + [load[last]];
      NeverOvercounts(load[..last]);
      AddAllJoins([], load[..last], [load[last]]);
      assert [load[last]][1..] == [];
      UndercountsStep(AddAll([], load[..last]), load[..last], load[last]);
    }
  }

  // ---------- back to visits ----------

  /** The seconds of an hour that the visits of an app cover. */
  function AppSeconds(c: Calendar, visits: seq<Visit>, appid: int, hour: int): nat
    requires Regular(c)
  {
    if visits == [] then 0
    else
      (if visits[0].appid == appid then Duration(c, visits[0], hour) else 0) + AppSeconds(c, visits[1..], appid, hour)
  }

  function ActiveApps(c: Calendar, visits: seq<Visit>, hour: int): set<int>
    requires Regular(c)
  {
    set i | 0 <= i < |visits| && visits[i].appid > 0 && AppSeconds(c, visits, visits[i].appid, hour) > 0 ::
      visits[i].appid
  }

  lemma {:induction false} LoadTotal(appid: int, segs: seq<Segment>, hour: int, a: int)
    ensures TotalOf(Load(appid, segs, hour), a) == if a == appid && appid > 0 then SumIn(segs, hour) else 0
    ensures forall i :: 0 <= i < |Load(appid, segs, hour)| ==> appid > 0 && Load(appid, segs, hour)[i].total > 0
  {
    if segs != [] && appid > 0 {
      LoadTotal(appid, segs[1..], hour, a);
      var head := if segs[0].hour == hour && segs[0].length > 0 then [Slot(appid, segs[0].length)] else [];
      TotalOfJoins(head, Load(appid, segs[1..], hour), a);
      assert head != [] ==> head[1..] == [];
    }
  }

  lemma {:induction false} SecondsSnoc(c: Calendar, visits: seq<Visit>, v: Visit, appid: int, hour: int)
    requires Regular(c)
    ensures AppSeconds(c, visits + [v], appid, hour) ==
            AppSeconds(c, visits, appid, hour) + if v.appid == appid then Duration(c, v, hour) else 0
  {
    if visits == [] {
      assert [v][1..] == [];
    } else {
      assert (visits + [v])[1..] == visits[1..] + [v];
      SecondsSnoc(c, visits[1..], v, appid, hour);
    }
  }

  lemma {:induction false} HourLoadTotal(c: Calendar, visits: seq<Visit>, hour: int, a: int)
    requires Regular(c)
    ensures TotalOf(HourLoad(c, visits, hour), a) == if a > 0 then AppSeconds(c, visits, a, hour) else 0
    ensures forall i :: 0 <= i < |HourLoad(c, visits, hour)| ==>
              HourLoad(c, visits, hour)[i].appid > 0 && HourLoad(c, visits, hour)[i].total > 0
    decreases |visits|
  {
    if visits != [] {
      var last := |visits| - 1;
      var v := visits[last];
      assert visits == visits[..last] + [v];
      HourLoadTotal(c, visits[..last], hour, a);
      LoadTotal(v.appid, VisitSegments(c, v), hour, a);
      TotalOfJoins(HourLoad(c, visits[..last], hour), Load(v.appid, VisitSegments(c, v), hour), a);
      SecondsSnoc(c, visits[..last], v, a, hour);
    }
  }

  lemma {:induction false} PresentMeansPositive(load: seq<Slot>, a: int)
    requires forall i :: 0 <= i < |load| ==> load[i].total > 0
    ensures a in AppsOf(load) <==> TotalOf(load, a) > 0
  {
    if a !in AppsOf(load) {
      NoneOfAbsent(load, a);
    } else if load[0].appid != a {
      var i :| 0 <= i < |load| && load[i].appid == a;
      assert load[1..][i - 1].appid == a;
      PresentMeansPositive(load[1..], a);
    }
  }

  lemma {:induction false} PositiveMeansVisited(c: Calendar, visits: seq<Visit>, a: int, hour: int)
    requires Regular(c) && AppSeconds(c, visits, a, hour) > 0
    ensures exists i :: 0 <= i < |visits| && visits[i].appid == a
  {
    if visits[0].appid != a {
      PositiveMeansVisited(c, visits[1..], a, hour);
      var i :| 0 <= i < |visits[1..]| && visits[1..][i].appid == a;
      assert visits[i + 1].appid == a;
    }
  }

  lemma LoadedAppsAreActive(c: Calendar, visits: seq<Visit>, hour: int)
    requires Regular(c)
    ensures AppsOf(HourLoad(c, visits, hour)) == ActiveApps(c, visits, hour)
  {
    var load := HourLoad(c, visits, hour);
    forall a ensures a in AppsOf(load) <==> a in ActiveApps(c, visits, hour) {
      HourLoadTotal(c, visits, hour, a);
      PresentMeansPositive(load, a);
      if a > 0 && AppSeconds(c, visits, a, hour) > 0 {
        PositiveMeansVisited(c, visits, a, hour);
      }
    }
  }

  /** Each active app of the hour has one slot with its capped seconds, and nothing else is there. */
  ghost predicate Accounts(row: seq<Slot>, c: Calendar, visits: seq<Visit>, hour: int)
    requires Regular(c)
  {
    && OneSlotEach(row)
    && AppsOf(row) == ActiveApps(c, visits, hour)
    && forall i :: 0 <= i < |row| ==> row[i].total == Capped(AppSeconds(c, visits, row[i].appid, hour))
  }

  /** An hour's row accounts for its apps exactly when no more of them are active than there are slots. */
  lemma AccountsIffFewApps(c: Calendar, visits: seq<Visit>, hour: int)
    requires Regular(c)
    ensures Accounts(AddAll([], HourLoad(c, visits, hour)), c, visits, hour) <==>
            |ActiveApps(c, visits, hour)| <= MAX_APPS
  {
    hide Added, HourLoad, AppSeconds, ActiveApps, AddAll;
    var load := HourLoad(c, visits, hour);
    var row := AddAll([], load);
    LoadedAppsAreActive(c, visits, hour);
    TallyIffFewApps(load);
    forall a ensures a in AppsOf(row) && AppsOf(row) == AppsOf(load) ==>
                       TotalOf(load, a) == AppSeconds(c, visits, a, hour) {
      HourLoadTotal(c, visits, hour, a);
      PresentMeansPositive(load, a);
    }
    assert forall i :: 0 <= i < |row| ==> row[i].appid in AppsOf(row);
  }

  /** However many apps were active, each slot is an active app's and shows at most its capped seconds. */
  lemma RowNeverOvercounts(c: Calendar, visits: seq<Visit>, hour: int)
    requires Regular(c)
    ensures var row := AddAll([], HourLoad(c, visits, hour));
            && OneSlotEach(row)
            && forall i :: 0 <= i < |row| ==>
                 row[i].appid in ActiveApps(c, visits, hour) &&
                 row[i].total <= Capped(AppSeconds(c, visits, row[i].appid, hour))
  {
    hide Added, HourLoad, AppSeconds, ActiveApps, AddAll, TotalOf;
    var load := HourLoad(c, visits, hour);
    var row := AddAll([], load);
    NeverOvercounts(load);
    LoadedAppsAreActive(c, visits, hour);
    forall i | 0 <= i < |row| ensures row[i].total <= Capped(AppSeconds(c, visits, row[i].appid, hour)) {
      HourLoadTotal(c, visits, hour, row[i].appid);
      PresentMeansPositive(load, row[i].appid);
    }
  }

  lemma {:induction false} SecondsWithout(c: Calendar, visits: seq<Visit>, i: nat, appid: int, hour: int)
    requires Regular(c) && i < |visits|
    ensures AppSeconds(c, visits, appid, hour) ==
            AppSeconds(c, visits[..i] + visits[i + 1..], appid, hour)
            + if visits[i].appid == appid then Duration(c, visits[i], hour) else 0
    decreases i
  {
    if i == 0 {
      assert visits[..0] + visits[1..] == visits[1..];
    } else {
      SecondsWithout(c, visits[1..], i - 1, appid, hour);
      assert (visits[..i] + visits[i + 1..])[1..] == visits[1..][..i - 1] + visits[1..][i..];
    }
  }

  /** The first of one list found and taken out of another with the same visits. */
  lemma TakeOut(v1: seq<Visit>, v2: seq<Visit>) returns (i: nat)
    requires v1 != [] && multiset(v1) == multiset(v2)
    ensures i < |v2| && v2[i] == v1[0] && multiset(v1[1..]) == multiset(v2[..i] + v2[i + 1..])
  {
    assert v1[0] in multiset(v1);
    assert v1[0] in multiset(v2);
    i :| 0 <= i < |v2| && v2[i] == v1[0];
    assert v1 == [v1[0]] + v1[1..];
    assert v2 == v2[..i] + [v2[i]] + v2[i + 1..];
    assert multiset(v1[1..]) == multiset(v1) - multiset{v1[0]};
    assert multiset(v2[..i] + v2[i + 1..]) == multiset(v2) - multiset{v2[i]};
  }

  /** The seconds do not depend on the order of the visits. */
  lemma {:induction false} SecondsIgnoreOrder(c: Calendar, v1: seq<Visit>, v2: seq<Visit>, appid: int, hour: int)
    requires Regular(c) && multiset(v1) == multiset(v2)
    ensures AppSeconds(c, v1, appid, hour) == AppSeconds(c, v2, appid, hour)
    decreases |v1|
  {
    hide Duration, Regular;
    if v1 == [] {
      NoVisits(v2);
    } else {
      var i := TakeOut(v1, v2);
      SecondsIgnoreOrder(c, v1[1..], v2[..i] + v2[i + 1..], appid, hour);
      SecondsWithout(c, v2, i, appid, hour);
    }
  }

  lemma NoVisits(v: seq<Visit>)
    requires multiset(v) == multiset([])
    ensures v == []
  {
    assert |multiset(v)| == |v|;
  }

  /** With few enough active apps an hour ends with the same slots for every order of the visits. */
  lemma SlotsIgnoreOrder(c: Calendar, v1: seq<Visit>, v2: seq<Visit>, hour: int)
    requires Regular(c) && multiset(v1) == multiset(v2)
    requires |ActiveApps(c, v1, hour)| <= MAX_APPS
    ensures multiset(AddAll([], HourLoad(c, v1, hour))) == multiset(AddAll([], HourLoad(c, v2, hour)))
  {
    hide Added, HourLoad, AppSeconds, ActiveApps, AddAll;
    var r1 := AddAll([], HourLoad(c, v1, hour));
    var r2 := AddAll([], HourLoad(c, v2, hour));
    SameActive(c, v1, v2, hour);
    AccountsIffFewApps(c, v1, hour);
    AccountsIffFewApps(c, v2, hour);
    SlotsCovered(c, v1, v2, r1, r2, hour);
    SlotsCovered(c, v2, v1, r2, r1, hour);
    forall s: Slot ensures multiset(r1)[s] == multiset(r2)[s] {
      AtMostOnce(r1, s);
      AtMostOnce(r2, s);
      assert s in multiset(r1) <==> s in r1;
      assert s in multiset(r2) <==> s in r2;
    }
  }

  lemma {:induction false} AtMostOnce(row: seq<Slot>, s: Slot)
    requires OneSlotEach(row)
    ensures multiset(row)[s] <= 1
  {
    if row != [] {
      assert row == [row[0]] + row[1..];
      AtMostOnce(row[1..], s);
      if s in row[1..] { assert s != row[0]; }
    }
  }

  lemma SameActive(c: Calendar, v1: seq<Visit>, v2: seq<Visit>, hour: int)
    requires Regular(c) && multiset(v1) == multiset(v2)
    ensures ActiveApps(c, v1, hour) == ActiveApps(c, v2, hour)
  {
    ActiveCovered(c, v1, v2, hour);
    ActiveCovered(c, v2, v1, hour);
  }

  lemma ActiveCovered(c: Calendar, v1: seq<Visit>, v2: seq<Visit>, hour: int)
    requires Regular(c) && multiset(v1) == multiset(v2)
    ensures ActiveApps(c, v1, hour) <= ActiveApps(c, v2, hour)
  {
    forall a | a in ActiveApps(c, v1, hour) ensures a in ActiveApps(c, v2, hour) {
      SecondsIgnoreOrder(c, v1, v2, a, hour);
      PositiveMeansVisited(c, v2, a, hour);
    }
  }

  lemma SlotsCovered(c: Calendar, v1: seq<Visit>, v2: seq<Visit>, r1: seq<Slot>, r2: seq<Slot>, hour: int)
    requires Regular(c) && multiset(v1) == multiset(v2) && AppsOf(r1) == AppsOf(r2)
    requires forall i :: 0 <= i < |r1| ==> r1[i].total == Capped(AppSeconds(c, v1, r1[i].appid, hour))
    requires forall i :: 0 <= i < |r2| ==> r2[i].total == Capped(AppSeconds(c, v2, r2[i].appid, hour))
    ensures forall s :: s in r1 ==> s in r2
  {
    forall s | s in r1 ensures s in r2 {
      assert s.appid in AppsOf(r1);
      var i :| 0 <= i < |r2| && r2[i].appid == s.appid;
      SecondsIgnoreOrder(c, v1, v2, s.appid, hour);
    }
  }
}
