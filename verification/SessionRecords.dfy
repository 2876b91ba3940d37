/** When a session starts and which records it leaves, on the fields of the refreshes themselves. */
module SessionRecords {
  import opened Text
  import opened Sessions

  /** A radio client is where its radio says; any other is where the kernel's list says. */
  ghost predicate SawOnline(es: seq<Event>, i: nat)
    requires i < |es|
  {
    && es[i].Refresh?
    && (es[i].wireless == Some(true) || (es[i].wireless == None && es[i].seen))
  }

  /** Bypass mode records every client, the other modes only one that is active. */
  ghost predicate SawRecordable(es: seq<Event>, i: nat)
    requires i < |es|
  {
    SawOnline(es, i) && (es[i].bypass || (es[i].seen && es[i].busy))
  }

  /** From `a` on every refresh saw the client online, the one at `a` to begin with. */
  ghost predicate OnlineFrom(es: seq<Event>, a: nat)
    requires a < |es|
  {
    SawOnline(es, a) && forall j :: a < j < |es| && es[j].Refresh? ==> SawOnline(es, j)
  }

  ghost predicate IsOnline(es: seq<Event>) {
    exists a :: 0 <= a < |es| && OnlineFrom(es, a)
  }

  /** The refresh at `a` is where the client came online and stayed. */
  ghost predicate CameOnline(es: seq<Event>, a: nat) {
    a < |es| && OnlineFrom(es, a) && forall j :: 0 <= j < a ==> !OnlineFrom(es, j)
  }

  /** A later refresh of the same session, at `k`, saw something to record. */
  ghost predicate Recordable(es: seq<Event>, a: nat, k: nat) {
    a < k < |es| && OnlineFrom(es, a) && SawRecordable(es, k)
  }

  ghost predicate IsRecorded(es: seq<Event>) {
    exists a: nat, k: nat :: Recordable(es, a, k)
  }

  /** The first refresh of the session that saw something to record. */
  ghost predicate FirstRecordable(es: seq<Event>, a: nat, k: nat) {
    Recordable(es, a, k) && forall b: nat, j: nat :: Recordable(es, b, j) ==> k <= j
  }

  lemma SawStays(es: seq<Event>, e: Event, i: nat)
    requires i < |es|
    ensures (es + [e])[i] == es[i]
    ensures SawOnline(es + [e], i) == SawOnline(es, i) && SawRecordable(es + [e], i) == SawRecordable(es, i)
  {
  }

  lemma OnlineStays(es: seq<Event>, e: Event, a: nat)
    requires a < |es|
    ensures OnlineFrom(es + [e], a) <==> OnlineFrom(es, a) && (e.Refresh? ==> SawOnline(es + [e], |es|))
  {
    var more := es + [e];
    assert more[|es|] == e;
    forall j | 0 <= j < |es| ensures more[j] == es[j] && SawOnline(more, j) == SawOnline(es, j) { SawStays(es, e, j); }
    if OnlineFrom(more, a) {
      forall j | a < j < |es| && es[j].Refresh? ensures SawOnline(es, j) { assert more[j].Refresh?; }
    }
  }

  /** The client is online exactly when some refresh saw it and none since has missed it. */
  lemma {:induction false} OnlineMeaning(es: seq<Event>)
    ensures RunTo(es).online <==> IsOnline(es)
    decreases |es|
  {
    if es != [] {
      var init, e := es[..|es| - 1], es[|es| - 1];
      assert es == init + [e];
      OnlineMeaning(init);
      forall a | 0 <= a < |init|
        ensures OnlineFrom(es, a) <==> OnlineFrom(init, a) && (e.Refresh? ==> SawOnline(es, |init|))
      {
        OnlineStays(init, e, a);
      }
      if e.Refresh? {
        assert OnlineFrom(es, |init|) <==> SawOnline(es, |init|);
      }
    }
  }

  /** One more refresh: what was recordable stays so while the client is online. */
  lemma RecordableStays(es: seq<Event>, e: Event, a: nat, k: nat)
    requires a < k < |es|
    ensures Recordable(es + [e], a, k) <==> Recordable(es, a, k) && (e.Refresh? ==> SawOnline(es + [e], |es|))
  {
    hide OnlineFrom, SawRecordable;
    OnlineStays(es, e, a);
    SawStays(es, e, k);
  }

  lemma RecordableNow(es: seq<Event>, e: Event, a: nat)
    requires a < |es|
    ensures Recordable(es + [e], a, |es|) <==> OnlineFrom(es, a) && SawRecordable(es + [e], |es|)
  {
    hide OnlineFrom;
    OnlineStays(es, e, a);
  }

  lemma RecordedGrows(es: seq<Event>, e: Event)
    ensures IsRecorded(es + [e]) <==>
            || (IsRecorded(es) && (e.Refresh? ==> SawOnline(es + [e], |es|)))
            || (IsOnline(es) && SawRecordable(es + [e], |es|))
  {
    hide OnlineFrom, SawRecordable, SawOnline, Recordable;
    var more := es + [e];
    forall a, k | 0 <= a < k < |es|
      ensures Recordable(more, a, k) <==> Recordable(es, a, k) && (e.Refresh? ==> SawOnline(more, |es|))
    {
      RecordableStays(es, e, a, k);
    }
    forall a | 0 <= a < |es| ensures Recordable(more, a, |es|) <==> OnlineFrom(es, a) && SawRecordable(more, |es|) {
      RecordableNow(es, e, a);
    }
    forall a: nat, k: nat ensures Recordable(es, a, k) ==> a < k < |es| { Bounded(es, a, k); }
    forall a: nat, k: nat ensures Recordable(more, a, k) ==> a < k < |more| { Bounded(more, a, k); }
  }

  lemma Bounded(es: seq<Event>, a: nat, k: nat)
    ensures Recordable(es, a, k) ==> a < k < |es|
  {
  }

  /** In every run the client stands recorded exactly when a refresh of the present session, after the
      one that brought it online, saw it in bypass mode or active. */
  lemma {:induction false} RecordedMeaning(es: seq<Event>)
    ensures RunTo(es).recorded <==> IsRecorded(es)
    decreases |es|
  {
    if es != [] {
      hide Recordable, OnlineFrom, IsRecorded, IsOnline;
      var init, e := es[..|es| - 1], es[|es| - 1];
      assert es == init + [e] && es[|init|] == e;
      RecordedMeaning(init);
      OnlineMeaning(init);
      RecordsAlternate(init);
      RecordedGrows(init, e);
    }
  }

  /** What one more event writes: an offline record with the session's tally when a recorded client
      is missed, an online record when an unrecorded one is seen as recordable, otherwise nothing. */
  lemma RecordsWritten(es: seq<Event>, e: Event)
    ensures var more := es + [e];
            History(more) == History(es) +
            if e.Refresh? && !SawOnline(more, |es|) && IsRecorded(es) then [Record(1, e.now, Tally(Since(es)))]
            else if IsOnline(es) && !IsRecorded(es) && SawRecordable(more, |es|) then [Record(0, e.now, EMPTY)]
            else []
  {
    hide Tally, Since, IsRecorded, IsOnline;
    var more := es + [e];
    assert more[..|es|] == es && more[|es|] == e;
    RecordedMeaning(es);
    OnlineMeaning(es);
    RecordsAlternate(es);
    SessionIsTally(es);
  }

  /** The online record of the session carries the time of the first refresh that saw something to record. */
  lemma {:induction false} OnlineRecordTime(es: seq<Event>) returns (a: nat, k: nat)
    requires IsRecorded(es)
    ensures FirstRecordable(es, a, k)
    ensures History(es) != [] && History(es)[|History(es)| - 1] == Record(0, es[k].now, EMPTY)
    decreases |es|
  {
    hide Tally, Since, OnlineFrom, SawOnline;
    var init, e := es[..|es| - 1], es[|es| - 1];
    assert es == init + [e] && es[|init|] == e;
    RecordedGrows(init, e);
    RecordsWritten(init, e);
    if IsRecorded(init) {
      a, k := OnlineRecordTime(init);
      RecordableStays(init, e, a, k);
      forall b: nat, j: nat | Recordable(es, b, j) ensures k <= j {
        if j < |init| { RecordableStays(init, e, b, j); }
      }
    } else {
      a :| 0 <= a < |init| && OnlineFrom(init, a);
      k := |init|;
      RecordableNow(init, e, a);
      forall b: nat, j: nat | Recordable(es, b, j) ensures k <= j {
        if j < |init| { RecordableStays(init, e, b, j); }
      }
    }
  }

  lemma CameStays(es: seq<Event>, e: Event, a: nat)
    requires a < |es|
    ensures CameOnline(es + [e], a) <==> CameOnline(es, a) && (e.Refresh? ==> SawOnline(es + [e], |es|))
  {
    hide OnlineFrom;
    forall j | 0 <= j < |es|
      ensures OnlineFrom(es + [e], j) <==> OnlineFrom(es, j) && (e.Refresh? ==> SawOnline(es + [e], |es|))
    {
      OnlineStays(es, e, j);
    }
  }

  /** What a session counts is everything after the refresh that brought the client online. */
  lemma {:induction false} SinceMeaning(es: seq<Event>) returns (a: nat)
    requires IsOnline(es)
    ensures CameOnline(es, a) && Since(es) == es[a + 1..]
    decreases |es|
  {
    hide OnlineFrom;
    var init, e := es[..|es| - 1], es[|es| - 1];
    assert es == init + [e] && es[|init|] == e;
    OnlineMeaning(init);
    OnlineMeaning(es);
    if IsOnline(init) {
      a := SinceMeaning(init);
      CameStays(init, e, a);
      assert es[a + 1..] == init[a + 1..] + [e];
    } else {
      a := |init|;
      forall j | 0 <= j < |init| ensures !OnlineFrom(es, j) { OnlineStays(init, e, j); }
    }
  }

  ghost predicate LastRefresh(es: seq<Event>, i: nat) {
    i < |es| && es[i].Refresh? && forall j :: i < j < |es| ==> !es[j].Refresh?
  }

  /** The client is active exactly when the last refresh found it busy on the kernel's list and no
      radio missed it. */
  lemma {:induction false} ActiveMeaning(es: seq<Event>)
    ensures RunTo(es).active <==>
            exists i: nat :: LastRefresh(es, i) && es[i].seen && es[i].busy && es[i].wireless != Some(false)
    decreases |es|
  {
    if es != [] {
      var init, e := es[..|es| - 1], es[|es| - 1];
      ActiveMeaning(init);
      if e.Refresh? {
        assert LastRefresh(es, |init|);
      } else {
        forall i: nat ensures LastRefresh(es, i) == LastRefresh(init, i) {
          assert i < |init| ==> es[i] == init[i];
          assert forall j :: 0 <= j < |init| ==> es[j] == init[j];
        }
      }
    }
  }
}
