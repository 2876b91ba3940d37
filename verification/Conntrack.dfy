/** The bypass-mode connection table: hashed buckets, refreshed per packet, swept a few at a time. */
module Conntrack {
  import opened Text

  datatype Key = Key(src: nat, dst: nat, sport: nat, dport: nat, protocol: nat)

  datatype Phase = New | Established | DpiFinished

  datatype Conn =
    Conn(key: Key, totalPkts: nat, appId: nat, clientHello: bool, drop: bool, phase: Phase, last: nat)

  /** What a connection starts with. */
  function FreshConn(key: Key, now: nat): Conn {
    Conn(key, 0, 0, false, false, New, now)
  }

  const SIZE := 256
  /** A sweep visits one bucket more than this. */
  const CHECK_COUNT := 5
  const CALLS_PER_ROUND := 51

  // ---------- the wrapping clock ----------

  /** One more than the largest tick count an `unsigned long` holds on a 32-bit router. */
  const WRAP := 0x1_0000_0000
  const TIMEOUT := 30 * 100

  function Tick(time: nat): nat { time % WRAP }

  /** `time_after(a, b)`: the signed difference b - a is negative. */
  predicate TimeAfter(a: nat, b: nat) {
    (b - a) % WRAP >= WRAP / 2
  }

  predicate Expired(now: nat, last: nat) {
    TimeAfter(now, last + TIMEOUT)
  }

  /** On the real time line: idle up to the timeout is live; idle longer is expired, until
      half the clock's range has gone by. */
  lemma ExpiryIsRealTime(time: nat, lastTime: nat)
    requires lastTime <= time
    ensures time - lastTime <= TIMEOUT ==> !Expired(Tick(time), Tick(lastTime))
    ensures TIMEOUT < time - lastTime <= TIMEOUT + WRAP / 2 ==> Expired(Tick(time), Tick(lastTime))
  {
    var d := Tick(lastTime) + TIMEOUT - Tick(time);
    var e := lastTime + TIMEOUT - time;
    var k := time / WRAP - lastTime / WRAP;
    assert d == e + k * WRAP;
    ModShift(e, k);
    if e >= 0 {
      ModIs(e, 0);
    } else if e >= -(WRAP / 2) {
      ModIs(e, -1);
    }
  }

  lemma ModIs(e: int, q: int)
    requires q * WRAP <= e < (q + 1) * WRAP
    ensures e % WRAP == e - q * WRAP
  {
  }

  lemma ModShift(e: int, k: int)
    ensures (e + k * WRAP) % WRAP == e % WRAP
  {
  }

  // ---------- what the table means ----------

  type Table = map<Key, Conn>

  /** The last bucket one call visits. */
  function LastVisited(cursor: nat): nat {
    if cursor + CHECK_COUNT < SIZE then cursor + CHECK_COUNT else SIZE - 1
  }

  /** Where the next call starts: at the last bucket again, or at the front after the end. */
  function NextCursor(cursor: nat): nat {
    if LastVisited(cursor) == SIZE - 1 then 0 else LastVisited(cursor)
  }

  predicate Visited(cursor: nat, bucket: nat) {
    cursor <= bucket < LastVisited(cursor) + 1
  }

  /** A packet finds its connection or gets a fresh one, and refreshes it. */
  function Touched(t: Table, key: Key, now: nat): Table {
    var c := if key in t then t[key] else FreshConn(key, now);
    t[key := c.(totalPkts := c.totalPkts + 1, last := now)]
  }

  /** A sweep removes exactly the expired connections of the buckets it visits. */
  function Swept(t: Table, hash: Key -> nat, cursor: nat, now: nat): Table {
    SweptRange(t, hash, cursor, LastVisited(cursor) + 1, now)
  }

  function SweptRange(t: Table, hash: Key -> nat, lo: nat, hi: nat, now: nat): Table {
    map k | k in t && !(lo <= hash(k) < hi && Expired(now, t[k].last)) :: t[k]
  }

  // ---------- the buckets ----------

  /** A bucket without its expired connections. */
  function Live(bucket: seq<Conn>, now: nat): seq<Conn> {
    if bucket == [] then []
    else
      var last := bucket[|bucket| - 1];
      Live(bucket[..|bucket| - 1], now) + if Expired(now, last.last) then [] else [last]
  }

  ghost predicate InBucket(bucket: seq<Conn>, b: nat, hash: Key -> nat, t: Table) {
    && (forall i :: 0 <= i < |bucket| ==>
          hash(bucket[i].key) == b && bucket[i].key in t && t[bucket[i].key] == bucket[i])
    && (forall i, j :: 0 <= i < j < |bucket| ==> bucket[i].key != bucket[j].key)
    && (forall k :: k in t && hash(k) == b ==> exists i :: 0 <= i < |bucket| && bucket[i].key == k)
  }

  class ConnTable {
    var buckets: seq<seq<Conn>>
    var cursor: nat
    const hash: Key -> nat
    ghost var table: Table

    /** One node per key, always in its hash bucket. */
    ghost predicate Valid()
      reads this
    {
      && |buckets| == SIZE && OnRound(cursor)
      && (forall k :: hash(k) < SIZE)
      && (forall k :: k in table ==> table[k].key == k)
      && (forall b :: 0 <= b < SIZE ==> InBucket(buckets[b], b, hash, table))
    }

    constructor (hash: Key -> nat)
      requires forall k :: hash(k) < SIZE
      ensures Valid() && table == map[] && cursor == 0 && this.hash == hash
    {
      this.hash := hash;
      buckets := seq(SIZE, _ => []);
      cursor := 0;
      table := map[];
    }

    method Find(key: Key) returns (r: Option<Conn>)
      requires Valid()
      ensures r == if key in table then Some(table[key]) else None
    {
      var b := hash(key);
      var i := 0;
      assert InBucket(buckets[b], b, hash, table);
      while i < |buckets[b]|
        invariant 0 <= i <= |buckets[b]|
        invariant forall j :: 0 <= j < i ==> buckets[b][j].key != key
      {
        if buckets[b][i].key == key { return Some(buckets[b][i]); }
        i := i + 1;
      }
      return None;
    }

    /** The hook's use of the table: find or add, then stamp the packet. */
    method Touch(key: Key, now: nat)
      requires Valid()
      modifies this
      ensures Valid() && cursor == old(cursor)
      ensures table == Touched(old(table), key, now)
    {
      var b := hash(key);
      var bucket := buckets[b];
      assert InBucket(bucket, b, hash, table);
      var i := 0;
      while i < |bucket| && bucket[i].key != key
        invariant 0 <= i <= |bucket|
        invariant forall j :: 0 <= j < i ==> bucket[j].key != key
      {
        i := i + 1;
      }
      if i == |bucket| {
        bucket, i := [FreshConn(key, now)] + bucket, 0;
      }
      ghost var was := buckets;
      buckets := buckets[b := bucket[i := bucket[i].(totalPkts := bucket[i].totalPkts + 1, last := now)]];
      table := Touched(table, key, now);
      TouchKeepsBuckets(was, old(table), hash, key, now, i, buckets);
    }

    /** Visits up to six buckets from the cursor and drops their expired connections. */
    method CleanTimeout(now: nat)
      requires Valid()
      modifies this
      ensures Valid()
      ensures table == Swept(old(table), hash, old(cursor), now)
      ensures cursor == NextCursor(old(cursor))
    {
      hide InBucket;
      var count := 0;
      var i := cursor;
      ghost var from, t := cursor, table;
      assert SweptRange(t, hash, from, from, now) == t;
      while i < SIZE
        invariant from <= i <= from + CHECK_COUNT && i <= SIZE && count == i - from
        invariant i > from ==> cursor == i - 1
        invariant i == from ==> cursor == from
        invariant |buckets| == SIZE && table == SweptRange(t, hash, from, i, now)
        invariant forall b :: 0 <= b < SIZE ==> InBucket(buckets[b], b, hash, table)
        decreases SIZE - i
      {
        ghost var was, before := buckets, table;
        var kept := DropExpired(buckets[i], now);
        buckets := buckets[i := kept];
        SweepOneBucket(was, before, hash, i, now, buckets);
        table := SweptRange(before, hash, i, i + 1, now);
        assert table == SweptRange(t, hash, from, i + 1, now);
        cursor := i;
        count := count + 1;
        i := i + 1;
        if count > CHECK_COUNT { break; }
      }
      assert i == LastVisited(from) + 1 && cursor == LastVisited(from);
      if cursor == SIZE - 1 {
        cursor := 0;
      }
    }

    method DropExpired(bucket: seq<Conn>, now: nat) returns (r: seq<Conn>)
      ensures r == Live(bucket, now)
    {
      r := [];
      var i := 0;
      while i < |bucket|
        invariant 0 <= i <= |bucket| && r == Live(bucket[..i], now)
      {
        assert bucket[..i + 1][..i] == bucket[..i];
        if !TimeAfter(now, bucket[i].last + TIMEOUT) {
          r := r + [bucket[i]];
        }
        i := i + 1;
      }
      assert bucket[..i] == bucket;
    }
  }

  lemma TouchKeepsBuckets(was: seq<seq<Conn>>, t: Table, hash: Key -> nat, key: Key, now: nat, i: nat,
                          buckets: seq<seq<Conn>>)
    requires |was| == SIZE && hash(key) < SIZE
    requires forall b :: 0 <= b < SIZE ==> InBucket(was[b], b, hash, t)
    requires var found := was[hash(key)];
             var grown := if key in t then found else [FreshConn(key, now)] + found;
             i < |grown| && grown[i].key == key &&
             buckets == was[hash(key) := grown[i := grown[i].(totalPkts := grown[i].totalPkts + 1, last := now)]]
    ensures forall b :: 0 <= b < SIZE ==> InBucket(buckets[b], b, hash, Touched(t, key, now))
  {
    var b0 := hash(key);
    var t' := Touched(t, key, now);
    assert InBucket(was[b0], b0, hash, t);
    forall b | 0 <= b < SIZE ensures InBucket(buckets[b], b, hash, t') {
      assert InBucket(was[b], b, hash, t);
      if b == b0 {
        OneBucketTouched(was[b], b, hash, t, key, now, i, buckets[b]);
      }
    }
  }

  lemma OneBucketTouched(was: seq<Conn>, b: nat, hash: Key -> nat, t: Table, key: Key, now: nat, i: nat,
                         bucket: seq<Conn>)
    requires InBucket(was, b, hash, t) && hash(key) == b
    requires var grown := if key in t then was else [FreshConn(key, now)] + was;
             i < |grown| && grown[i].key == key &&
             bucket == grown[i := grown[i].(totalPkts := grown[i].totalPkts + 1, last := now)]
    ensures InBucket(bucket, b, hash, Touched(t, key, now))
  {
    var t' := Touched(t, key, now);
    var grown := if key in t then was else [FreshConn(key, now)] + was;
    forall k | k in t' && hash(k) == b ensures exists j :: 0 <= j < |bucket| && bucket[j].key == k {
      if k == key {
        assert bucket[i].key == k;
      } else {
        var j :| 0 <= j < |was| && was[j].key == k;
        assert bucket[if key in t then j else j + 1].key == k;
      }
    }
  }

  lemma {:induction false} LiveMeaning(bucket: seq<Conn>, now: nat, c: Conn)
    ensures c in Live(bucket, now) <==> c in bucket && !Expired(now, c.last)
  {
    if bucket != [] {
      var init, last := bucket[..|bucket| - 1], bucket[|bucket| - 1];
      assert bucket == init + [last];
      LiveMeaning(init, now, c);
    }
  }

  lemma {:induction false} LiveDistinct(bucket: seq<Conn>, now: nat)
    requires forall i, j :: 0 <= i < j < |bucket| ==> bucket[i].key != bucket[j].key
    ensures forall i, j :: 0 <= i < j < |Live(bucket, now)| ==> Live(bucket, now)[i].key != Live(bucket, now)[j].key
  {
    if bucket != [] {
      var init, last := bucket[..|bucket| - 1], bucket[|bucket| - 1];
      LiveDistinct(init, now);
      forall i | 0 <= i < |Live(init, now)| ensures Live(init, now)[i].key != last.key {
        LiveMeaning(init, now, Live(init, now)[i]);
      }
    }
  }

  lemma SweepOneBucket(was: seq<seq<Conn>>, t: Table, hash: Key -> nat, i: nat, now: nat, buckets: seq<seq<Conn>>)
    requires |was| == SIZE && i < SIZE && buckets == was[i := Live(was[i], now)]
    requires forall b :: 0 <= b < SIZE ==> InBucket(was[b], b, hash, t)
    ensures forall b :: 0 <= b < SIZE ==> InBucket(buckets[b], b, hash, SweptRange(t, hash, i, i + 1, now))
  {
    var t' := SweptRange(t, hash, i, i + 1, now);
    forall b | 0 <= b < SIZE ensures InBucket(buckets[b], b, hash, t') {
      assert InBucket(was[b], b, hash, t);
      if b == i { LiveKeepsBucket(was[i], i, hash, t, now); }
    }
  }

  lemma LiveKeepsBucket(bucket: seq<Conn>, i: nat, hash: Key -> nat, t: Table, now: nat)
    requires InBucket(bucket, i, hash, t)
    ensures InBucket(Live(bucket, now), i, hash, SweptRange(t, hash, i, i + 1, now))
  {
    var live, t' := Live(bucket, now), SweptRange(t, hash, i, i + 1, now);
    LiveDistinct(bucket, now);
    forall j | 0 <= j < |live| ensures hash(live[j].key) == i && live[j].key in t' && t'[live[j].key] == live[j] {
      LiveMeaning(bucket, now, live[j]);
    }
    forall k | k in t' && hash(k) == i ensures exists j :: 0 <= j < |live| && live[j].key == k {
      var j :| 0 <= j < |bucket| && bucket[j].key == k;
      LiveMeaning(bucket, now, bucket[j]);
    }
  }

  // ---------- runs ----------

  datatype Event = Packet(key: Key, now: nat) | Sweep(now: nat)

  datatype State = State(table: Table, cursor: nat)

  function After(s: State, hash: Key -> nat, e: Event): State {
    match e
    case Packet(key, now) => State(Touched(s.table, key, now), s.cursor)
    case Sweep(now) => State(Swept(s.table, hash, s.cursor, now), NextCursor(s.cursor))
  }

  function RunTable(s: State, hash: Key -> nat, es: seq<Event>): State
    decreases |es|
  {
    if es == [] then s else RunTable(After(s, hash, es[0]), hash, es[1..])
  }

  function Sweeps(es: seq<Event>): nat {
    if es == [] then 0 else (if es[0].Sweep? then 1 else 0) + Sweeps(es[1..])
  }

  ghost predicate Untouched(es: seq<Event>, k: Key) {
    forall i :: 0 <= i < |es| && es[i].Packet? ==> es[i].key != k
  }

  ghost predicate OnRound(cursor: nat) {
    cursor % CHECK_COUNT == 0 && cursor < SIZE - 1
  }

  /** Calls still to come before the one that visits `bucket`. */
  function CallsBefore(cursor: nat, bucket: nat): int {
    if Visited(cursor, bucket) then 0
    else if bucket < cursor then
      (SIZE - 1 - cursor) / CHECK_COUNT + (if bucket <= CHECK_COUNT then 0 else (bucket - 1) / CHECK_COUNT)
    else (bucket - cursor - 1) / CHECK_COUNT
  }

  lemma CallsBeforeBound(cursor: nat, bucket: nat)
    requires OnRound(cursor) && bucket < SIZE
    ensures OnRound(NextCursor(cursor))
    ensures 0 <= CallsBefore(cursor, bucket) < CALLS_PER_ROUND
    ensures !Visited(cursor, bucket) ==> CallsBefore(NextCursor(cursor), bucket) == CallsBefore(cursor, bucket) - 1
  {
  }

  /** A live connection survives any sweep unchanged. */
  lemma SweepSparesLive(s: State, hash: Key -> nat, now: nat, k: Key)
    requires k in s.table && !Expired(now, s.table[k].last)
    ensures var t := After(s, hash, Sweep(now)).table;
            k in t && t[k] == s.table[k]
  {
  }

  lemma {:induction false} GoneStaysGone(s: State, hash: Key -> nat, es: seq<Event>, k: Key)
    requires k !in s.table && Untouched(es, k)
    ensures k !in RunTable(s, hash, es).table
    decreases |es|
  {
    if es != [] {
      GoneStaysGone(After(s, hash, es[0]), hash, es[1..], k);
    }
  }

  lemma {:induction false} IdleIsSwept(s: State, hash: Key -> nat, es: seq<Event>, k: Key)
    requires OnRound(s.cursor) && hash(k) < SIZE && Untouched(es, k)
    requires k in s.table ==> forall i :: 0 <= i < |es| && es[i].Sweep? ==> Expired(es[i].now, s.table[k].last)
    requires CallsBefore(s.cursor, hash(k)) < Sweeps(es)
    ensures k !in RunTable(s, hash, es).table
    decreases |es|
  {
    if k !in s.table {
      GoneStaysGone(s, hash, es, k);
    } else {
      var s' := After(s, hash, es[0]);
      CallsBeforeBound(s.cursor, hash(k));
      if es[0].Sweep? && Visited(s.cursor, hash(k)) {
        GoneStaysGone(s', hash, es[1..], k);
      } else {
        IdleIsSwept(s', hash, es[1..], k);
      }
    }
  }

  /** An idle connection is gone after any 51 sweeps that find it expired, whatever
      packets of other connections come between them. */
  lemma IdleGoneInOneRound(s: State, hash: Key -> nat, es: seq<Event>, k: Key)
    requires OnRound(s.cursor) && hash(k) < SIZE && Untouched(es, k)
    requires k in s.table ==> forall i :: 0 <= i < |es| && es[i].Sweep? ==> Expired(es[i].now, s.table[k].last)
    requires Sweeps(es) >= CALLS_PER_ROUND
    ensures k !in RunTable(s, hash, es).table
  {
    CallsBeforeBound(s.cursor, hash(k));
    IdleIsSwept(s, hash, es, k);
  }

  // ---------- connections in use ----------

  /** A packet counts itself and stamps its connection, made new if there is none; nothing else changes. */
  lemma TouchMeaning(t: Table, key: Key, now: nat)
    ensures var n := Touched(t, key, now);
            && n.Keys == t.Keys + {key} && (forall k :: k in t && k != key ==> n[k] == t[k])
            && n[key].last == now && n[key].totalPkts == (if key in t then t[key].totalPkts else 0) + 1
            && (key in t ==> n[key] == t[key].(totalPkts := t[key].totalPkts + 1, last := now))
            && (key !in t ==> n[key] == Conn(key, 1, 0, false, false, New, now))
  {
  }

  function PacketsOf(es: seq<Event>, k: Key): nat {
    if es == [] then 0 else (if es[0].Packet? && es[0].key == k then 1 else 0) + PacketsOf(es[1..], k)
  }

  /** No sweep of the run finds the connection expired that was last stamped at `last`. */
  ghost predicate NeverExpires(es: seq<Event>, k: Key, last: nat)
    decreases |es|
  {
    es == [] ||
    match es[0]
    case Packet(key, now) => NeverExpires(es[1..], k, if key == k then now else last)
    case Sweep(now) => !Expired(now, last) && NeverExpires(es[1..], k, last)
  }

  /** When the connection was last stamped by the end of the run. */
  function LastStamp(es: seq<Event>, k: Key, last: nat): nat
    decreases |es|
  {
    if es == [] then last
    else LastStamp(es[1..], k, if es[0].Packet? && es[0].key == k then es[0].now else last)
  }

  /** A connection no sweep finds expired stays through any run, counts every one of its packets and
      carries the time of the last. */
  lemma {:induction false} BusyStays(s: State, hash: Key -> nat, es: seq<Event>, k: Key)
    requires k in s.table && NeverExpires(es, k, s.table[k].last)
    ensures var t := RunTable(s, hash, es).table;
            k in t && t[k].totalPkts == s.table[k].totalPkts + PacketsOf(es, k) &&
            t[k].last == LastStamp(es, k, s.table[k].last)
    decreases |es|
  {
    if es != [] { BusyStays(After(s, hash, es[0]), hash, es[1..], k); }
  }
}
