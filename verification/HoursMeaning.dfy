/** What the hour statistics count, in seconds, and how a full row treats one more app. */
module HoursMeaning {
  import opened Hours
  import opened Text

  /** An hour lasts until the calendar's next one starts. */
  ghost predicate Whole(c: Calendar) {
    Regular(c) && forall t: nat, u: nat :: t <= u < c.next(t) ==> c.hourOf(u) == c.hourOf(t)
  }

  /** How many of the seconds from..end lie in an hour. */
  function SecondsIn(c: Calendar, from: nat, end: nat, hour: int): nat
    decreases end - from
  {
    if from >= end then 0 else (if c.hourOf(from) == hour then 1 else 0) + SecondsIn(c, from + 1, end, hour)
  }

  lemma {:induction false} SecondsSplit(c: Calendar, from: nat, mid: nat, end: nat, hour: int)
    requires from <= mid <= end
    ensures SecondsIn(c, from, end, hour) == SecondsIn(c, from, mid, hour) + SecondsIn(c, mid, end, hour)
    decreases mid - from
  {
    if from < mid { SecondsSplit(c, from + 1, mid, end, hour); }
  }

  lemma {:induction false} SecondsOfOneHour(c: Calendar, start: nat, from: nat, end: nat, hour: int)
    requires Whole(c) && start <= from <= end <= c.next(start)
    ensures SecondsIn(c, from, end, hour) == if c.hourOf(start) == hour then end - from else 0
    decreases end - from
  {
    if from < end { SecondsOfOneHour(c, start, from + 1, end, hour); }
  }

  lemma {:induction false} SegmentsCountSeconds(c: Calendar, cursor: nat, end: nat, hour: int)
    requires Whole(c) && cursor <= end
    ensures SumIn(Segments(c, cursor, end), hour) == SecondsIn(c, cursor, end, hour)
    decreases end - cursor
  {
    if cursor < end {
      var stop := Min(end, c.next(cursor));
      SecondsSplit(c, cursor, stop, end, hour);
      SecondsOfOneHour(c, cursor, cursor, stop, hour);
      SegmentsCountSeconds(c, stop, end, hour);
    }
  }

  /** A visit's duration in an hour is the number of its seconds that lie in it; a visit with no
      extent counts one second where it is. */
  lemma DurationMeaning(c: Calendar, v: Visit, hour: int)
    requires Whole(c)
    ensures Duration(c, v, hour) ==
            if v.first < v.latest then SecondsIn(c, v.first, v.latest, hour)
            else if c.hourOf(v.first) == hour then 1 else 0
  {
    if v.first < v.latest {
      SegmentsCountSeconds(c, v.first, v.latest, hour);
    } else {
      var one := VisitSegments(c, v);
      assert one[1..] == [] && SumIn([], hour) == 0;
    }
  }

  /** The slot at `i` is the first of the least. */
  ghost predicate FirstLeast(slots: seq<Slot>, i: nat) {
    && i < |slots|
    && (forall j :: 0 <= j < |slots| ==> slots[i].total <= slots[j].total)
    && (forall j :: 0 <= j < i ==> slots[i].total < slots[j].total)
  }

  ghost predicate FirstOf(slots: seq<Slot>, appid: int, i: nat) {
    i < |slots| && slots[i].appid == appid && forall j :: 0 <= j < i ==> slots[j].appid != appid
  }

  ghost predicate Absent(slots: seq<Slot>, appid: int) {
    forall i :: 0 <= i < |slots| ==> slots[i].appid != appid
  }

  /** An app with a slot adds to it, up to an hour. */
  lemma KnownAppAdds(slots: seq<Slot>, appid: int, duration: nat, i: nat)
    requires |slots| <= 8 && FirstOf(slots, appid, i)
    ensures var sum := slots[i].total + duration;
            Added(slots, appid, duration) == slots[i := Slot(appid, if sum > 3600 then 3600 else sum)]
  {
    hide Least;
    PlaceIsFirst(slots, appid, i);
  }

  /** A new app takes a free slot; without one it takes the first of the least slots if it stayed longer. */
  lemma NewAppEnters(slots: seq<Slot>, appid: int, duration: nat)
    requires |slots| <= 8 && Absent(slots, appid)
    ensures var slot, r := Slot(appid, if duration > 3600 then 3600 else duration), Added(slots, appid, duration);
            && (|slots| < 8 ==> r == slots + [slot])
            && (|slots| == 8 && (forall i :: 0 <= i < 8 ==> duration <= slots[i].total) ==> r == slots)
            && (|slots| == 8 && (exists i :: 0 <= i < 8 && duration > slots[i].total) ==>
                  exists i: nat :: FirstLeast(slots, i) && r == slots[i := slot])
  {
    hide Least;
    if |slots| == 8 {
      var i := Least(slots);
      assert FirstLeast(slots, i);
    }
  }
}
