/** Online sessions of a client: what is accumulated and which records are written. */
module Sessions {
  import opened Text

  const MAX_RECENT := 5
  const MAX_RECORDS := 4096

  // ---------- recent apps ----------

  function Without(apps: seq<int>, id: int): seq<int> {
    if apps == [] then []
    else (if apps[0] == id then [] else [apps[0]]) + Without(apps[1..], id)
  }

  function Take(apps: seq<int>, n: nat): seq<int> {
    if |apps| <= n then apps else apps[..n]
  }

  /** The app moves or enters at the front; the fifth falls off when there is no room. */
  function Pushed(apps: seq<int>, id: int): seq<int> {
    Take([id] + Without(apps, id), MAX_RECENT)
  }

  ghost predicate Distinct(apps: seq<int>) {
    forall i, j :: 0 <= i < j < |apps| ==> apps[i] != apps[j]
  }

  lemma {:induction false} WithoutAbsent(apps: seq<int>, id: int)
    requires id !in apps
    ensures Without(apps, id) == apps
  {
    if apps != [] {
      assert apps == [apps[0]] + apps[1..];
      WithoutAbsent(apps[1..], id);
    }
  }

  lemma {:induction false} WithoutAt(apps: seq<int>, i: nat)
    requires Distinct(apps) && i < |apps|
    ensures Without(apps, apps[i]) == apps[..i] + apps[i + 1..]
    decreases |apps|
  {
    var rest := apps[1..];
    if i == 0 {
      WithoutAbsent(rest, apps[0]);
    } else {
      assert rest[i - 1] == apps[i];
      WithoutAt(rest, i - 1);
      assert apps[..i] == [apps[0]] + rest[..i - 1];
    }
  }

  /** All the apps ever pushed, newest first, each once. */
  function NewestFirst(ids: seq<int>): seq<int> {
    if ids == [] then []
    else
      var last := ids[|ids| - 1];
      [last] + Without(NewestFirst(ids[..|ids| - 1]), last)
  }

  lemma {:induction false} WithoutMembers(apps: seq<int>, id: int, x: int)
    ensures x in Without(apps, id) <==> x in apps && x != id
  {
    if apps != [] {
      assert apps == [apps[0]] + apps[1..];
      WithoutMembers(apps[1..], id, x);
    }
  }

  lemma {:induction false} WithoutDistinct(apps: seq<int>, id: int)
    requires Distinct(apps)
    ensures Distinct(Without(apps, id)) && id !in Without(apps, id)
  {
    WithoutMembers(apps, id, id);
    if i :| 0 <= i < |apps| && apps[i] == id {
      WithoutAt(apps, i);
    } else {
      WithoutAbsent(apps, id);
    }
  }

  lemma {:induction false} NewestFirstDistinct(ids: seq<int>)
    ensures Distinct(NewestFirst(ids))
  {
    if ids != [] {
      var init, last := ids[..|ids| - 1], ids[|ids| - 1];
      NewestFirstDistinct(init);
      WithoutDistinct(NewestFirst(init), last);
    }
  }

  lemma PushKnownRecent(all: seq<int>, i: nat)
    requires Distinct(all) && i < |all| && i < MAX_RECENT
    ensures Pushed(Take(all, MAX_RECENT), all[i]) == Take([all[i]] + Without(all, all[i]), MAX_RECENT)
  {
    hide Without, Distinct;
    var five := Take(all, MAX_RECENT);
    assert five[i] == all[i];
    TakeDistinct(all, MAX_RECENT);
    WithoutAt(all, i);
    WithoutAt(five, i);
    if |all| > MAX_RECENT {
      var long, short := [all[i]] + (all[..i] + all[i + 1..]), [all[i]] + (five[..i] + five[i + 1..]);
      assert |short| == MAX_RECENT;
      forall k | 0 <= k < MAX_RECENT ensures short[k] == long[k] {
        if k > i { assert short[k] == five[k] && long[k] == all[k]; }
      }
      assert long[..MAX_RECENT] == short;
    }
  }

  lemma TakeDistinct(apps: seq<int>, n: nat)
    requires Distinct(apps)
    ensures Distinct(Take(apps, n))
  {
  }

  lemma FarApart(all: seq<int>, i: nat)
    requires Distinct(all) && MAX_RECENT <= i < |all|
    ensures all[i] !in all[..MAX_RECENT]
  {
  }

  lemma PushKnownOld(all: seq<int>, i: nat)
    requires Distinct(all) && MAX_RECENT <= i < |all|
    ensures Pushed(Take(all, MAX_RECENT), all[i]) == Take([all[i]] + Without(all, all[i]), MAX_RECENT)
  {
    hide Without, Distinct;
    var five, id := all[..MAX_RECENT], all[i];
    FarApart(all, i);
    WithoutAt(all, i);
    WithoutAbsent(five, id);
    var long := [id] + (all[..i] + all[i + 1..]);
    assert long[..MAX_RECENT] == [id] + all[..MAX_RECENT - 1];
    assert ([id] + five)[..MAX_RECENT] == [id] + all[..MAX_RECENT - 1];
  }

  /** Pushing onto the newest five gives the newest five. */
  lemma PushKeepsNewest(all: seq<int>, id: int)
    requires Distinct(all)
    ensures Pushed(Take(all, MAX_RECENT), id) == Take([id] + Without(all, id), MAX_RECENT)
  {
    hide Distinct, Without;
    if i :| 0 <= i < |all| && all[i] == id {
      if i < MAX_RECENT {
        PushKnownRecent(all, i);
      } else {
        PushKnownOld(all, i);
      }
    } else {
      WithoutAbsent(all, id);
      WithoutAbsent(Take(all, MAX_RECENT), id);
    }
  }

  /** What pushing the ids one after the other leaves. */
  function PushAll(ids: seq<int>): seq<int> {
    if ids == [] then [] else Pushed(PushAll(ids[..|ids| - 1]), ids[|ids| - 1])
  }

  /** The list always holds the up to five most recent distinct apps, newest first. */
  lemma {:induction false} PushAllIsNewestFive(ids: seq<int>)
    ensures PushAll(ids) == Take(NewestFirst(ids), MAX_RECENT)
  {
    if ids != [] {
      var init, last := ids[..|ids| - 1], ids[|ids| - 1];
      PushAllIsNewestFive(init);
      NewestFirstDistinct(init);
      PushKeepsNewest(NewestFirst(init), last);
    }
  }

  lemma PushedDistinct(apps: seq<int>, id: int)
    requires Distinct(apps)
    ensures Distinct(Pushed(apps, id))
  {
    WithoutDistinct(apps, id);
    assert Distinct([id] + Without(apps, id));
    TakeDistinct([id] + Without(apps, id), MAX_RECENT);
  }

  /** Shifting the entries in front of place `i` and writing its app first is a push. */
  lemma MovedToFront(a: seq<int>, b: seq<int>, n: nat, i: nat)
    requires |a| == |b| == MAX_RECENT && i < n <= MAX_RECENT && Distinct(a[..n])
    requires b[..i + 1] == [a[i]] + a[..i] && b[i + 1..] == a[i + 1..]
    ensures b[..n] == Pushed(a[..n], a[i])
  {
    assert a[..n][i] == a[i];
    WithoutAt(a[..n], i);
    assert b[..n] == b[..i + 1] + b[i + 1..][..n - i - 1];
    assert a[..n][i + 1..] == a[i + 1..][..n - i - 1];
    assert a[..n][..i] == a[..i];
  }

  // ---------- one client ----------

  datatype Session = Session(up: nat, down: nat, onlineTime: nat, activeTime: nat, recent: seq<int>)

  const EMPTY := Session(0, 0, 0, 0, [])

  datatype Record = Record(action: int, timestamp: nat, session: Session)

  datatype Client = Client(online: bool, active: bool, recorded: bool, session: Session)

  const NEW := Client(false, false, false, EMPTY)

  /** `Refresh` is one pass over the kernel's list; `wireless` overrides it for radio clients. */
  datatype Event =
    | Refresh(now: nat, seen: bool, busy: bool, wireless: Option<bool>, bypass: bool)
    | Flow(up: nat, down: nat)
    | Activity(onlineSecs: int, activeSecs: int)
    | App(id: int)

  predicate SeenOnline(e: Event)
    requires e.Refresh?
  {
    if e.wireless.Some? then e.wireless.value else e.seen
  }

  predicate SeenActive(e: Event)
    requires e.Refresh?
  {
    e.seen && e.busy && e.wireless != Some(false)
  }

  function Plus(n: nat, i: int): nat { if i > 0 then n + i else n }

  /** A session counts only while the client is online. */
  function Count(s: Session, e: Event): Session {
    match e
    case Refresh(_, _, _, _, _) => s
    case Flow(up, down) => s.(up := s.up + up, down := s.down + down)
    case Activity(online, active) =>
      s.(onlineTime := Plus(s.onlineTime, online), activeTime := Plus(s.activeTime, active))
    case App(id) => if id <= 0 then s else s.(recent := Pushed(s.recent, id))
  }

  predicate ComesOnline(c: Client, e: Event) {
    e.Refresh? && !c.online && SeenOnline(e)
  }

  predicate GoesOffline(c: Client, e: Event) {
    e.Refresh? && c.online && !SeenOnline(e)
  }

  predicate GetsRecorded(c: Client, e: Event) {
    e.Refresh? && c.online && SeenOnline(e) && !c.recorded && (e.bypass || SeenActive(e))
  }

  function After(c: Client, e: Event): Client {
    if !e.Refresh? then (if c.online then c.(session := Count(c.session, e)) else c)
    else
      Client(SeenOnline(e), SeenActive(e),
             if ComesOnline(c, e) || GoesOffline(c, e) then false else c.recorded || GetsRecorded(c, e),
             if ComesOnline(c, e) then EMPTY else c.session)
  }

  function Written(c: Client, e: Event): seq<Record> {
    if GoesOffline(c, e) && c.recorded then [Record(1, e.now, c.session)]
    else if GetsRecorded(c, e) then [Record(0, e.now, EMPTY)]
    else []
  }

  // ---------- whole runs ----------

  function RunTo(es: seq<Event>): Client {
    if es == [] then NEW else After(RunTo(es[..|es| - 1]), es[|es| - 1])
  }

  /** Every record the run wrote for the client, oldest first. */
  function History(es: seq<Event>): seq<Record> {
    if es == [] then []
    else History(es[..|es| - 1]) + Written(RunTo(es[..|es| - 1]), es[|es| - 1])
  }

  /** What happened after the client last came online. */
  function Since(es: seq<Event>): seq<Event> {
    if es == [] then []
    else
      var init, last := es[..|es| - 1], es[|es| - 1];
      if ComesOnline(RunTo(init), last) then [] else Since(init) + [last]
  }

  function TotalUp(es: seq<Event>): nat {
    if es == [] then 0 else TotalUp(es[..|es| - 1]) + if es[|es| - 1].Flow? then es[|es| - 1].up else 0
  }

  function TotalDown(es: seq<Event>): nat {
    if es == [] then 0 else TotalDown(es[..|es| - 1]) + if es[|es| - 1].Flow? then es[|es| - 1].down else 0
  }

  function Positive(i: int): nat { if i > 0 then i else 0 }

  function TotalOnline(es: seq<Event>): nat {
    if es == [] then 0
    else TotalOnline(es[..|es| - 1]) + if es[|es| - 1].Activity? then Positive(es[|es| - 1].onlineSecs) else 0
  }

  function TotalActive(es: seq<Event>): nat {
    if es == [] then 0
    else TotalActive(es[..|es| - 1]) + if es[|es| - 1].Activity? then Positive(es[|es| - 1].activeSecs) else 0
  }

  function AppIds(es: seq<Event>): seq<int> {
    if es == [] then []
    else
      var last := es[|es| - 1];
      AppIds(es[..|es| - 1]) + if last.App? && last.id > 0 then [last.id] else []
  }

  /** The totals of a stretch of events, and its up to five most recent distinct apps. */
  function Tally(es: seq<Event>): Session {
    Session(TotalUp(es), TotalDown(es), TotalOnline(es), TotalActive(es), Take(NewestFirst(AppIds(es)), MAX_RECENT))
  }

  lemma TallyOneMore(es: seq<Event>, e: Event)
    ensures Tally(es + [e]) == Count(Tally(es), e)
  {
    hide Take, NewestFirst, Pushed;
    var more := es + [e];
    assert more[..|more| - 1] == es;
    if e.App? && e.id > 0 {
      PushAllIsNewestFive(AppIds(es));
      PushAllIsNewestFive(AppIds(more));
      PushAllSnoc(AppIds(es), e.id);
    } else {
      assert AppIds(es) + [] == AppIds(es);
    }
  }

  lemma PushAllSnoc(ids: seq<int>, id: int)
    ensures PushAll(ids + [id]) == Pushed(PushAll(ids), id)
  {
    assert (ids + [id])[..|ids|] == ids;
  }

  /** While the client is online its session is the tally since it came online. */
  lemma {:induction false} SessionIsTally(es: seq<Event>)
    ensures RunTo(es).online ==> RunTo(es).session == Tally(Since(es))
  {
    hide Tally, Count;
    if es != [] {
      var init, last := es[..|es| - 1], es[|es| - 1];
      SessionIsTally(init);
      TallyOneMore(Since(init), last);
      EmptyTally();
      RefreshCountsNothing(Tally(Since(init)), last);
    }
  }

  lemma EmptyTally()
    ensures Tally([]) == EMPTY
  {
  }

  lemma RefreshCountsNothing(s: Session, e: Event)
    ensures e.Refresh? ==> Count(s, e) == s
  {
  }

  /** In every run the records strictly alternate, online first. */
  lemma {:induction false} RecordsAlternate(es: seq<Event>)
    ensures forall i :: 0 <= i < |History(es)| ==> History(es)[i].action == i % 2
    ensures RunTo(es).recorded <==> |History(es)| % 2 == 1
    ensures RunTo(es).recorded ==> RunTo(es).online
  {
    if es != [] {
      RecordsAlternate(es[..|es| - 1]);
    }
  }

  /** Going offline after an online record writes exactly what the session added up to. */
  lemma OfflineRecordIsTally(es: seq<Event>, e: Event)
    requires GoesOffline(RunTo(es), e) && RunTo(es).recorded
    ensures History(es + [e]) == History(es) + [Record(1, e.now, Tally(Since(es)))]
  {
    hide Tally, Since;
    SessionIsTally(es);
    assert (es + [e])[..|es|] == es;
  }

  // ---------- the code ----------

  /** The list of all clients' records, newest first, oldest dropped beyond 4096. */
  class RecordList {
    var records: seq<Record>
    ghost var all: seq<Record>

    ghost predicate Valid()
      reads this
    {
      && |records| == (if |all| > MAX_RECORDS then MAX_RECORDS else |all|)
      && forall i :: 0 <= i < |records| ==> records[i] == all[|all| - 1 - i]
    }

    constructor ()
      ensures Valid() && all == []
    {
      records, all := [], [];
    }

    method Add(r: Record)
      requires Valid()
      modifies this
      ensures Valid() && all == old(all) + [r]
    {
      records := [r] + records;
      all := all + [r];
      var total := |records|;
      while total > MAX_RECORDS
        invariant all == old(all) + [r] && |records| == total <= |all|
        invariant |all| <= MAX_RECORDS ==> total == |all|
        invariant |all| > MAX_RECORDS ==> MAX_RECORDS <= total <= MAX_RECORDS + 1
        invariant forall i :: 0 <= i < |records| ==> records[i] == all[|all| - 1 - i]
      {
        records := records[..|records| - 1];
        total := total - 1;
      }
    }
  }

  class ClientNode {
    var online: bool
    var active: bool
    var lastOnlineState: bool
    var sessionOnlineRecorded: bool
    var onlineTime: nat
    var offlineTime: nat
    var up: nat
    var down: nat
    var onlineDuration: nat
    var activeDuration: nat
    var recentAppCount: nat
    const recentApps: array<int>

    ghost predicate Valid()
      reads this, recentApps
    {
      Sized() && Distinct(recentApps[..recentAppCount])
    }

    ghost predicate Sized()
      reads this
    {
      recentApps.Length == MAX_RECENT && recentAppCount <= MAX_RECENT
    }

    function SessionNow(): Session
      requires Sized()
      reads this, recentApps
    {
      Session(up, down, onlineDuration, activeDuration, recentApps[..recentAppCount])
    }

    ghost function View(): Client
      requires Valid()
      reads this, recentApps
    {
      Client(online, active, sessionOnlineRecorded, SessionNow())
    }

    constructor (now: nat)
      ensures Valid() && View() == NEW && fresh(recentApps)
    {
      online, active, lastOnlineState, sessionOnlineRecorded := false, false, false, false;
      onlineTime, offlineTime := now, now;
      up, down, onlineDuration, activeDuration, recentAppCount := 0, 0, 0, 0, 0;
      recentApps := new int[MAX_RECENT](_ => 0);
    }

    /** Shifts the first `n` entries up by one and puts `id` in front. */
    method ShiftIn(n: nat, id: int)
      requires Sized() && n < MAX_RECENT
      modifies recentApps
      ensures recentApps[..n + 1] == [id] + old(recentApps[..n])
      ensures recentApps[n + 1..] == old(recentApps[n + 1..])
    {
      var j := n;
      while j > 0
        invariant 0 <= j <= n
        invariant forall k :: 0 <= k < j ==> recentApps[k] == old(recentApps[k])
        invariant forall k :: j < k <= n ==> recentApps[k] == old(recentApps[k - 1])
        invariant forall k :: n < k < MAX_RECENT ==> recentApps[k] == old(recentApps[k])
      {
        recentApps[j] := recentApps[j - 1];
        j := j - 1;
      }
      recentApps[0] := id;
    }

    /** `session_push_recent_app` */
    method PushRecentApp(id: int)
      requires Valid()
      modifies this`recentAppCount, recentApps
      ensures Valid()
      ensures recentApps[..recentAppCount] ==
              if id <= 0 then old(recentApps[..recentAppCount]) else Pushed(old(recentApps[..recentAppCount]), id)
    {
      if id <= 0 { return; }
      ghost var was := recentApps[..recentAppCount];
      PushedDistinct(was, id);
      var i := 0;
      while i < recentAppCount
        invariant 0 <= i <= recentAppCount && recentApps[..recentAppCount] == was
        invariant forall k :: 0 <= k < i ==> recentApps[k] != id
      {
        if recentApps[i] == id {
          ghost var before := recentApps[..];
          ShiftIn(i, id);
          MovedToFront(before, recentApps[..], recentAppCount, i);
          return;
        }
        i := i + 1;
      }
      WithoutAbsent(was, id);
      hide Without, Distinct;
      if recentAppCount < MAX_RECENT {
        ShiftIn(recentAppCount, id);
        recentAppCount := recentAppCount + 1;
      } else {
        ShiftIn(MAX_RECENT - 1, id);
        assert recentApps[..recentAppCount] == [id] + was[..MAX_RECENT - 1];
        assert ([id] + was)[..MAX_RECENT] == [id] + was[..MAX_RECENT - 1];
      }
    }

    method ResetSession()
      requires Sized()
      modifies this`up, this`down, this`onlineDuration, this`activeDuration, this`recentAppCount, recentApps
      ensures Valid() && SessionNow() == EMPTY
    {
      up, down, onlineDuration, activeDuration, recentAppCount := 0, 0, 0, 0, 0;
      forall k | 0 <= k < MAX_RECENT { recentApps[k] := 0; }
    }

    /** Traffic, time and app reports; all are ignored while the client is offline. */
    method Report(e: Event)
      requires Valid() && !e.Refresh?
      modifies this, recentApps
      ensures Valid() && View() == After(old(View()), e)
      ensures lastOnlineState == old(lastOnlineState)
    {
      if !online { return; }
      match e
      case Flow(upBytes, downBytes) =>
        up, down := up + upBytes, down + downBytes;
      case Activity(onlineSecs, activeSecs) =>
        if onlineSecs > 0 { onlineDuration := onlineDuration + onlineSecs; }
        if activeSecs > 0 { activeDuration := activeDuration + activeSecs; }
      case App(id) =>
        PushRecentApp(id);
    }

    method CleanOnlineStatus(now: nat)
      modifies this`lastOnlineState, this`active, this`offlineTime, this`online
      ensures lastOnlineState == old(online) && !active && !online
      ensures offlineTime == if old(online) then now else old(offlineTime)
    {
      lastOnlineState := online;
      active := false;
      if online {
        offlineTime := now;
        online := false;
      }
    }

    /** `clean_client_online_status` and `update_client_online_status`, for this client. */
    method DoRefresh(e: Event, list: RecordList)
      requires Valid() && e.Refresh? && list.Valid()
      modifies this, recentApps, list
      ensures Valid() && View() == After(old(View()), e)
      ensures list.Valid() && list.all == old(list.all) + Written(old(View()), e)
    {
      CleanOnlineStatus(e.now);
      SetFlags(e);
      Transition(e, list);
    }

    /** What the kernel's list, then the radio's, say of the client. */
    method SetFlags(e: Event)
      requires e.Refresh? && !online && !active
      modifies this`online, this`active
      ensures online == SeenOnline(e) && active == SeenActive(e)
    {
      if e.seen {
        online, active := true, e.busy;
      }
      if e.wireless.Some? {
        if e.wireless.value {
          online := true;
        } else {
          online, active := false, false;
        }
      }
    }

    method Transition(e: Event, list: RecordList)
      requires Valid() && e.Refresh? && list.Valid()
      requires online == SeenOnline(e) && active == SeenActive(e)
      modifies this, recentApps, list
      ensures Valid() && lastOnlineState == online
      ensures View() == After(Client(old(lastOnlineState), active, old(sessionOnlineRecorded), old(SessionNow())), e)
      ensures list.Valid()
      ensures var was := Client(old(lastOnlineState), active, old(sessionOnlineRecorded), old(SessionNow()));
              list.all == old(list.all) + Written(was, e)
    {
      hide SeenOnline, SeenActive;
      var wasOnline, isOnline := lastOnlineState, online;
      if !wasOnline && isOnline {
        onlineTime := e.now;
        ResetSession();
        sessionOnlineRecorded := false;
      } else if wasOnline && !isOnline {
        offlineTime := e.now;
        if sessionOnlineRecorded {
          list.Add(Record(1, e.now, SessionNow()));
        }
        sessionOnlineRecorded := false;
      } else if isOnline && !sessionOnlineRecorded && (e.bypass || active) {
        list.Add(Record(0, e.now, EMPTY));
        sessionOnlineRecorded := true;
      }
      lastOnlineState := isOnline;
    }
  }
}
