/** The session history: two rings fed by a sampling tick, and the query over them. */
module Ring {
  import opened Text

  const MINUTE_POINTS := 1440
  const DETAIL_POINTS := 60
  const SAMPLES_PER_MINUTE := 12

  function LastOf<T>(s: seq<T>, n: nat): (r: seq<T>)
    ensures |r| <= n && |r| <= |s| && r == s[|s| - |r|..]
  {
    if |s| <= n then s else s[|s| - n..]
  }

  /** Keeping the last n after each step keeps the last n of everything. */
  lemma LastOfGrows<T>(s: seq<T>, x: T, n: nat)
    ensures LastOf(LastOf(s, n) + [x], n) == LastOf(s + [x], n)
  {
  }

  lemma LastOfLast<T>(s: seq<T>, n: nat, m: nat)
    requires m <= n
    ensures LastOf(LastOf(s, n), m) == LastOf(s, m)
  {
  }

  function Index(start: nat, i: nat, size: nat): (r: nat)
    requires start < size && i <= size
    ensures r < size && r == (if start + i < size then start + i else start + i - size)
  {
    Wraps(start + i, size);
    (start + i) % size
  }

  lemma Wraps(a: nat, size: nat)
    requires a < 2 * size
    ensures a % size == if a < size then a else a - size
  {
    if a >= size { assert a == 1 * size + (a - size); Remainder(a - size, size); }
  }

  lemma Remainder(r: nat, size: nat)
    requires r < size
    ensures (size + r) % size == r
  {
  }

  /** The values held, oldest first. */
  ghost function View(points: seq<nat>, start: nat, count: nat): (s: seq<nat>)
    requires count <= |points| && (start < |points| || count == 0)
    ensures |s| == count
  {
    seq(count, i requires 0 <= i < count => points[Index(start, i, |points|)])
  }

  lemma AppendsWithRoom(points: seq<nat>, start: nat, count: nat, value: nat)
    requires count < |points| && start < |points|
    ensures View(points[Index(start, count, |points|) := value], start, count + 1) ==
            LastOf(View(points, start, count) + [value], |points|)
  {
    hide Index;
  }

  lemma AppendsWhenFull(points: seq<nat>, start: nat, value: nat)
    requires start < |points|
    ensures View(points[start := value], Index(start, 1, |points|), |points|) ==
            LastOf(View(points, start, |points|) + [value], |points|)
  {
    hide Index;
    var next := Index(start, 1, |points|);
    var was, now := View(points, start, |points|), View(points[start := value], next, |points|);
    forall i | 0 <= i < |points| ensures now[i] == (was[1..] + [value])[i] {
      if i < |points| - 1 { assert Index(next, i, |points|) == Index(start, i + 1, |points|) != start; }
    }
  }

  lemma NothingHeld(points: seq<nat>, start: nat, count: nat, value: nat)
    requires |points| == count == 0
    ensures View(points, start, count) == LastOf(View(points, start, count) + [value], 0)
  {
  }

  class SessionRing {
    var points: array<nat>
    var start: nat
    var count: nat

    ghost predicate Valid()
      reads this
    {
      count <= points.Length && (start < points.Length || (start == 0 && points.Length == 0))
    }

    ghost function Contents(): (s: seq<nat>)
      reads this, points
      requires Valid()
    {
      View(points[..], start, count)
    }

    constructor (maxPoints: nat)
      ensures Valid() && fresh(points) && points.Length == maxPoints && Contents() == []
    {
      points := new nat[maxPoints](_ => 0);
      start, count := 0, 0;
    }

    method Append(value: nat)
      requires Valid()
      modifies this`start, this`count, points
      ensures Valid() && Contents() == LastOf(old(Contents()) + [value], points.Length)
    {
      hide View, Index, LastOf;
      if points.Length == 0 {
        NothingHeld(points[..], start, count, value);
        return;
      }
      var at;
      if count < points.Length {
        AppendsWithRoom(points[..], start, count, value);
        at := Index(start, count, points.Length);
        count := count + 1;
      } else {
        AppendsWhenFull(points[..], start, value);
        at := start;
        start := Index(start, 1, points.Length);
      }
      points[at] := value;
      assert points[..] == old(points[..])[at := value];
    }
  }

  /** One sample of each minute: the twelfth. */
  function Minutely(samples: seq<nat>): (r: seq<nat>)
    ensures |r| == |samples| / SAMPLES_PER_MINUTE
  {
    seq(|samples| / SAMPLES_PER_MINUTE, i requires 0 <= i < |samples| / SAMPLES_PER_MINUTE =>
      samples[SAMPLES_PER_MINUTE * i + SAMPLES_PER_MINUTE - 1])
  }

  lemma MinutelyGrows(samples: seq<nat>, x: nat)
    ensures Minutely(samples + [x]) ==
            Minutely(samples) + if (|samples| + 1) % SAMPLES_PER_MINUTE == 0 then [x] else []
  {
  }

  datatype Request = Request(range: Option<string>, minutes: Option<int>)

  datatype Window = Detail | Minutes(minutes: nat)

  function WindowOf(r: Request): (w: Window)
    ensures w.Minutes? ==> 1 <= w.minutes <= MINUTE_POINTS
  {
    var range := if r.range.Some? && r.range.value != "" then r.range.value else "hour";
    if range == "5min" || range == "5m" then Detail
    else if r.minutes.Some? then
      if r.minutes.value <= 0 then Minutes(60)
      else if r.minutes.value > MINUTE_POINTS then Minutes(MINUTE_POINTS) else Minutes(r.minutes.value)
    else if range == "day" then Minutes(MINUTE_POINTS)
    else Minutes(60)
  }

  /** Five minutes of detail by either name, else a number of minutes between one and a day: the one
      given, an hour for none that is positive; without a number, a day if asked for, else an hour. */
  lemma WindowMeaning(r: Request)
    ensures WindowOf(r).Detail? <==> r.range == Some("5min") || r.range == Some("5m")
    ensures WindowOf(r).Minutes? && r.minutes.Some? ==>
              var m := r.minutes.value;
              (m > 0 ==> WindowOf(r).minutes == Min(m, 1440)) && (m <= 0 ==> WindowOf(r).minutes == 60)
    ensures WindowOf(r).Minutes? && r.minutes.None? ==>
              WindowOf(r).minutes == if r.range == Some("day") then 1440 else 60
  {
  }

  function Sum(s: seq<nat>): nat {
    if s == [] then 0 else Sum(s[..|s| - 1]) + s[|s| - 1]
  }

  ghost predicate IsPeak(peak: nat, s: seq<nat>) {
    peak in s && forall i :: 0 <= i < |s| ==> s[i] <= peak
  }

  /** The average is rounded to nearest, halves up, and stays among the values. */
  ghost predicate IsAverage(avg: nat, s: seq<nat>) {
    && 2 * (|s| * avg) <= 2 * Sum(s) + |s| < 2 * (|s| * avg) + 2 * |s|
    && (exists i :: 0 <= i < |s| && s[i] <= avg)
    && (exists i :: 0 <= i < |s| && avg <= s[i])
  }

  datatype History = History(range: string, minutes: nat, current: nat, avg: nat, peak: nat, list: seq<nat>)

  class SessionStat {
    const detailRing: SessionRing
    const minuteRing: SessionRing
    var sampleCount: nat
    ghost var samples: seq<nat>

    ghost predicate Separate()
      reads this, detailRing, minuteRing
    {
      && detailRing != minuteRing && detailRing.points != minuteRing.points
      && detailRing.points.Length == DETAIL_POINTS && minuteRing.points.Length == MINUTE_POINTS
      && detailRing.Valid() && minuteRing.Valid()
    }

    /** Each ring reads as the end of the sample history. */
    ghost predicate Valid()
      reads this, detailRing, minuteRing, detailRing.points, minuteRing.points
    {
      && Separate()
      && sampleCount == |samples| % SAMPLES_PER_MINUTE
      && detailRing.Contents() == LastOf(samples, DETAIL_POINTS)
      && minuteRing.Contents() == LastOf(Minutely(samples), MINUTE_POINTS)
    }

    constructor ()
      ensures Valid() && samples == []
    {
      detailRing := new SessionRing(DETAIL_POINTS);
      minuteRing := new SessionRing(MINUTE_POINTS);
      sampleCount := 0;
      samples := [];
    }

    method Tick(current: nat)
      requires Valid()
      modifies this, detailRing, minuteRing, detailRing.points, minuteRing.points
      ensures Valid() && samples == old(samples) + [current]
    {
      MinutelyGrows(samples, current);
      LastOfGrows(samples, current, DETAIL_POINTS);
      LastOfGrows(Minutely(samples), current, MINUTE_POINTS);
      detailRing.Append(current);
      sampleCount := sampleCount + 1;
      if sampleCount >= SAMPLES_PER_MINUTE {
        minuteRing.Append(current);
        sampleCount := 0;
      }
      samples := samples + [current];
    }

    method GetHistorySession(r: Request, current: nat) returns (h: History)
      requires Valid()
      ensures var window := WindowOf(r);
              var shown := if window.Detail? then LastOf(samples, DETAIL_POINTS)
                           else LastOf(Minutely(samples), window.minutes);
              && h.current == current
              && (shown == [] ==> h.list == [current] && h.avg == current && h.peak == current)
              && (shown != [] ==> h.list == shown && IsAverage(h.avg, shown) && IsPeak(h.peak, shown + [current]))
              && h.avg <= h.peak
              && h.minutes == (if window.Detail? then 5 else window.minutes)
              && h.range == (if window.Detail? then "5min"
                             else if window.minutes == MINUTE_POINTS then "day" else "hour")
    {
      hide LastOf, Minutely, IsAverage, IsPeak, Sum, SessionRing.Contents;
      var window := WindowOf(r);
      if window.Minutes? { LastOfLast(Minutely(samples), MINUTE_POINTS, window.minutes); }
      LastOfLast(samples, DETAIL_POINTS, DETAIL_POINTS);
      var list, sum, peak;
      if window.Detail? {
        list, sum, peak := Collect(detailRing, DETAIL_POINTS);
      } else {
        list, sum, peak := Collect(minuteRing, window.minutes);
      }
      var avg;
      if list == [] {
        list, avg, peak := [current], current, current;
      } else {
        avg := Average(sum, |list|);
        AverageIsClose(list);
        AverageBelow(list, avg, peak);
        PeakWith(list, peak, current);
        if current > peak { peak := current; }
      }
      var range := if window.Detail? then "5min" else if window.minutes >= MINUTE_POINTS then "day" else "hour";
      h := History(range, if window.Detail? then 5 else window.minutes, current, avg, peak, list);
    }
  }

  /** The loop of the query over the entries it lists. */
  method Collect(ring: SessionRing, most: nat) returns (list: seq<nat>, sum: nat, peak: nat)
    requires ring.Valid()
    ensures list == LastOf(ring.Contents(), most) && sum == Sum(list)
    ensures list != [] ==> IsPeak(peak, list)
  {
    hide Index, IsPeak, Sum, View;
    ghost var all := ring.Contents();
    var offset := if ring.count > most then ring.count - most else 0;
    list, sum, peak := [], 0, 0;
    var i := offset;
    assert Sum([]) == 0 by { SumNone(); }
    while i < ring.count
      invariant offset <= i <= ring.count
      invariant list == all[offset..i] && sum == Sum(list)
      invariant list != [] ==> IsPeak(peak, list)
    {
      var value := ring.points[Index(ring.start, i, ring.points.Length)];
      ViewAt(ring.points[..], ring.start, ring.count, i);
      assert all[offset..i + 1] == all[offset..i] + [value];
      SumMore(list, value);
      if list == [] { OnlyPeak(value); } else { PeakWith(list, peak, value); }
      list, sum := list + [value], sum + value;
      if |list| == 1 || value > peak { peak := value; }
      i := i + 1;
    }
  }

  lemma ViewAt(points: seq<nat>, start: nat, count: nat, i: nat)
    requires i < count <= |points| && start < |points|
    ensures View(points, start, count)[i] == points[Index(start, i, |points|)]
  {
  }

  lemma SumNone()
    ensures Sum([]) == 0
  {
  }

  lemma SumMore(s: seq<nat>, x: nat)
    ensures Sum(s + [x]) == Sum(s) + x
  {
    assert (s + [x])[..|s|] == s;
  }

  function Average(sum: nat, n: nat): nat
    requires n > 0
  {
    (sum + n / 2) / n
  }

  lemma OnlyPeak(x: nat)
    ensures IsPeak(x, [] + [x])
  {
    assert [] + [x] == [x];
  }

  lemma PeakWith(s: seq<nat>, peak: nat, x: nat)
    requires IsPeak(peak, s)
    ensures IsPeak(if x > peak then x else peak, s + [x])
  {
    assert (s + [x])[|s|] == x;
    assert forall i :: 0 <= i < |s| ==> (s + [x])[i] == s[i];
  }

  lemma DivisionBounds(a: nat, n: nat)
    requires n > 0
    ensures n * (a / n) <= a < n * (a / n) + n
  {
  }

  lemma AverageIsClose(s: seq<nat>)
    requires s != []
    ensures IsAverage(Average(Sum(s), |s|), s)
  {
    hide Sum;
    var n, avg := |s|, Average(Sum(s), |s|);
    DivisionBounds(Sum(s) + n / 2, n);
    if forall i :: 0 <= i < n ==> s[i] > avg {
      SumAbove(s, avg + 1);
      OneMore(n, avg);
    }
    if forall i :: 0 <= i < n ==> avg > s[i] {
      SumBelow(s, avg - 1);
      OneMore(n, avg - 1);
    }
  }

  lemma OneMore(n: nat, a: nat)
    ensures n * (a + 1) == n * a + n
  {
  }

  lemma {:induction false} SumBelow(s: seq<nat>, high: nat)
    requires forall i :: 0 <= i < |s| ==> s[i] <= high
    ensures Sum(s) <= |s| * high
  {
    if s != [] {
      SumBelow(s[..|s| - 1], high);
      OneRow(|s|, high);
    }
  }

  lemma OneRow(n: nat, a: nat)
    requires n > 0
    ensures n * a == (n - 1) * a + a
  {
  }

  lemma {:induction false} SumAbove(s: seq<nat>, low: nat)
    requires forall i :: 0 <= i < |s| ==> low <= s[i]
    ensures |s| * low <= Sum(s)
  {
    if s != [] {
      SumAbove(s[..|s| - 1], low);
      OneRow(|s|, low);
    }
  }

  lemma AverageBelow(s: seq<nat>, avg: nat, peak: nat)
    requires IsAverage(avg, s) && IsPeak(peak, s)
    ensures avg <= peak
  {
  }
}
