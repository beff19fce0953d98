/** Scheduled ticks (cron.rs): one row per tick across daemons, and the zoned ticker. */
module CronTicks {
  import opened Wrappers
  import opened Decimal
  import opened Text

  // ---- idempotency keys ------------------------------------------------------------------------

  /** `schedule:<id>:<epoch second>` */
  function TickKey(schedule: int, second: int): string {
    "schedule:" + SignedDec(schedule) + ":" + SignedDec(second)
  }

  lemma NoColon(n: int)
    ensures ':' !in SignedDec(n)
  {
    var digits := if n < 0 then Dec(-n) else Dec(n);
    assert forall i :: 0 <= i < |digits| ==> IsDigit(digits[i]);
  }

  /** A key can be taken apart again. */
  lemma KeyParts(s: int, t: int)
    ensures AfterLast(TickKey(s, t), ':') == SignedDec(t)
    ensures TickKey(s, t)[..|TickKey(s, t)| - |SignedDec(t)| - 1] == "schedule:" + SignedDec(s)
  {
    NoColon(t);
    AfterLastOfJoin("schedule:" + SignedDec(s), ':', SignedDec(t));
    BeforeLast("schedule:" + SignedDec(s), ':', SignedDec(t));
  }

  lemma BeforeLast(a: string, c: char, b: string)
    ensures (a + [c] + b)[..|a + [c] + b| - |b| - 1] == a
  {
  }

  /** A key is read off by splitting it at the colons. */
  lemma TickKeyIsRead(s: int, t: int)
    ensures Split(TickKey(s, t), ':') == ["schedule", SignedDec(s), SignedDec(t)]
    ensures IsSigned(SignedDec(s)) && SignedValue(SignedDec(s)) == s && IsSigned(SignedDec(t)) && SignedValue(SignedDec(t)) == t
  {
    NoColon(s);
    NoColon(t);
    SplitThree("schedule", ':', SignedDec(s), SignedDec(t));
    KeyIsJoined(SignedDec(s), SignedDec(t));
    SignedValueOfDec(s);
    SignedValueOfDec(t);
  }

  lemma KeyIsJoined(a: string, b: string)
    ensures "schedule:" + a + ":" + b == "schedule" + [':'] + a + [':'] + b
  {
  }

  /** A key names one tick of one schedule. */
  lemma TickKeyInjective(s: int, t: int, s': int, t': int)
    requires TickKey(s, t) == TickKey(s', t')
    ensures s == s' && t == t'
  {
    KeyParts(s, t);
    KeyParts(s', t');
    SignedDecInjective(t, t');
    PrefixCancels("schedule:", SignedDec(s), SignedDec(s'));
    SignedDecInjective(s, s');
  }

  lemma PrefixCancels(p: string, a: string, b: string)
    requires p + a == p + b
    ensures a == b
  {
    assert a == (p + a)[|p|..] && b == (p + b)[|p|..];
  }

  // ---- the runs table, as far as ticks go -----------------------------------------------------------

  datatype Origin = Tick(schedule: int, second: int) | Elsewhere

  /** A row of `runs`: its idempotency key, whether it was refused by a quota, and where it came from. */
  datatype Row = Row(key: Option<string>, refused: bool, origin: Origin)

  type Rows = map<int, Row>

  predicate KeyTaken(rows: Rows, key: Option<string>) {
    key.Some? && exists id :: id in rows && rows[id].key == key
  }

  /** INSERT ... ON CONFLICT (idempotency_key) WHERE idempotency_key IS NOT NULL DO NOTHING */
  function Inserted(rows: Rows, id: int, row: Row): Rows {
    if KeyTaken(rows, row.key) then rows else rows[id := row]
  }

  ghost predicate UniqueKeys(rows: Rows) {
    forall a, b :: a in rows && b in rows && a != b && rows[a].key.Some? ==> rows[a].key != rows[b].key
  }

  /** What `enqueue_tick` inserts: the tick's key with idempotency on, no key without. Rows from elsewhere may
      carry any key. */
  ghost predicate Proper(row: Row, idempotent: set<int>) {
    row.origin.Tick? ==>
      row.key == if row.origin.schedule in idempotent then Some(TickKey(row.origin.schedule, row.origin.second)) else None
  }

  ghost predicate TicksKeyed(rows: Rows, idempotent: set<int>) {
    forall id :: id in rows ==> Proper(rows[id], idempotent)
  }

  class RunStore {
    var rows: Rows
    var nextId: int

    ghost predicate Valid()
      reads this
    {
      UniqueKeys(rows) && forall id :: id in rows ==> id < nextId
    }

    constructor ()
      ensures Valid() && rows == map[]
    {
      rows, nextId := map[], 0;
    }

    /** `insert_run_idempotent`: a new row, or the row that has the key already. */
    method InsertRunIdempotent(key: string, origin: Origin) returns (id: int, created: bool)
      requires Valid()
      modifies this
      ensures Valid() && id in rows && rows[id].key == Some(key)
      ensures created <==> !KeyTaken(old(rows), Some(key))
      ensures rows == Inserted(old(rows), id, Row(Some(key), false, origin)) && (created ==> id !in old(rows))
    {
      if exists k :: k in rows && rows[k].key == Some(key) {
        id :| id in rows && rows[id].key == Some(key);
        return id, false;
      }
      id, created := nextId, true;
      rows, nextId := rows[nextId := Row(Some(key), false, origin)], nextId + 1;
    }

    /** `insert_refused_run`: a refused tick is recorded, once if it has a key. */
    method InsertRefusedRun(key: Option<string>, origin: Origin) returns (id: Option<int>)
      requires Valid()
      modifies this
      ensures Valid()
      ensures id.None? <==> KeyTaken(old(rows), key)
      ensures id.None? ==> rows == old(rows)
      ensures id.Some? ==> id.value !in old(rows) && rows == Inserted(old(rows), id.value, Row(key, true, origin))
    {
      if key.Some? && exists k :: k in rows && rows[k].key == key { return None; }
      id := Some(nextId);
      rows, nextId := rows[nextId := Row(key, true, origin)], nextId + 1;
    }

    /** `insert_run_with_blobs`: no key. */
    method InsertRun(origin: Origin) returns (id: int)
      requires Valid()
      modifies this
      ensures Valid() && id !in old(rows) && rows == Inserted(old(rows), id, Row(None, false, origin))
    {
      id := nextId;
      rows, nextId := rows[nextId := Row(None, false, origin)], nextId + 1;
    }

    /** `enqueue_tick`, after the quota check: `None` means the check itself failed. */
    method EnqueueTick(schedule: int, idempotent: bool, second: int, refused: Option<bool>) returns (run: Option<int>)
      requires Valid()
      modifies this
      ensures Valid()
      ensures var key := if idempotent then Some(TickKey(schedule, second)) else None;
              && (refused.None? ==> rows == old(rows))
              && (refused.Some? ==>
                    exists id :: id !in old(rows) && rows == Inserted(old(rows), id, Row(key, refused.value, Tick(schedule, second))))
              && (run.Some? <==> refused == Some(false) && !KeyTaken(old(rows), key))
              && (run.Some? ==> run.value !in old(rows) && run.value in rows)
    {
      var key := if idempotent then Some(TickKey(schedule, second)) else None;
      ghost var unused := nextId;
      assert unused !in rows;
      match refused {
        case None => return None;
        case Some(true) =>
          var id := InsertRefusedRun(key, Tick(schedule, second));
          assert rows == Inserted(old(rows), id.GetOr(unused), Row(key, true, Tick(schedule, second)));
          return None;
        case Some(false) =>
          if idempotent {
            var id, created := InsertRunIdempotent(key.value, Tick(schedule, second));
            assert rows == Inserted(old(rows), if created then id else unused, Row(key, false, Tick(schedule, second)));
            return if created then Some(id) else None;
          }
          var id := InsertRun(Tick(schedule, second));
          return Some(id);
      }
    }
  }

  /** The inserts of any number of daemons, in any order, among inserts of any other kind. */
  ghost predicate Inserting(trace: seq<Rows>, idempotent: set<int>) {
    |trace| > 0 && trace[0] == map[]
    && forall i {:trigger trace[i]} :: 0 <= i < |trace| - 1 ==> OneInsert(trace[i], trace[i + 1], idempotent)
  }

  ghost predicate OneInsert(rows: Rows, rows': Rows, idempotent: set<int>) {
    exists id, row :: id !in rows && Proper(row, idempotent) && rows' == Inserted(rows, id, row)
  }

  lemma {:induction false} InsertsKeepKeys(trace: seq<Rows>, idempotent: set<int>)
    requires Inserting(trace, idempotent)
    ensures UniqueKeys(trace[|trace| - 1]) && TicksKeyed(trace[|trace| - 1], idempotent)
  {
    if |trace| > 1 {
      var k := |trace| - 2;
      var before := trace[..k + 1];
      assert forall i {:trigger before[i]} :: 0 <= i < |before| ==> before[i] == trace[i];
      assert forall i {:trigger before[i]} :: 0 <= i < k ==> OneInsert(trace[i], trace[i + 1], idempotent) && before[i + 1] == trace[i + 1];
      InsertsKeepKeys(before, idempotent);
      OneInsertKeepsKeys(trace[k], trace[k + 1], idempotent);
    }
  }

  lemma OneInsertKeepsKeys(rows: Rows, rows': Rows, idempotent: set<int>)
    requires OneInsert(rows, rows', idempotent) && UniqueKeys(rows) && TicksKeyed(rows, idempotent)
    ensures UniqueKeys(rows') && TicksKeyed(rows', idempotent)
  {
    var id, row :| id !in rows && Proper(row, idempotent) && rows' == Inserted(rows, id, row);
  }

  /** One row per tick: no two rows, enqueued or refused, are of the same schedule and the same second. */
  lemma OneRowPerTick(trace: seq<Rows>, idempotent: set<int>, a: int, b: int)
    requires Inserting(trace, idempotent)
    requires var rows := trace[|trace| - 1];
             a in rows && b in rows && rows[a].origin.Tick? && rows[a].origin == rows[b].origin
             && rows[a].origin.schedule in idempotent
    ensures a == b
  {
    InsertsKeepKeys(trace, idempotent);
    assert Proper(trace[|trace| - 1][a], idempotent) && Proper(trace[|trace| - 1][b], idempotent);
  }

  ghost predicate HasTick(rows: Rows, s: int, t: int) {
    exists id :: id in rows && rows[id].origin == Tick(s, t)
  }

  /** A run that is no tick was inserted under the tick's key: clients choose their keys freely. */
  ghost predicate ForeignHolds(rows: Rows, s: int, t: int) {
    exists id :: id in rows && rows[id].origin.Elsewhere? && rows[id].key == Some(TickKey(s, t))
  }

  /** A tick's key is taken by that very tick or by a foreign run with that very key, and by nothing else. */
  lemma TickKeyTakenIff(rows: Rows, idempotent: set<int>, s: int, t: int)
    requires TicksKeyed(rows, idempotent) && s in idempotent
    ensures KeyTaken(rows, Some(TickKey(s, t))) <==> HasTick(rows, s, t) || ForeignHolds(rows, s, t)
  {
    forall id | id in rows && rows[id].key == Some(TickKey(s, t)) && rows[id].origin.Tick?
      ensures rows[id].origin == Tick(s, t)
    {
      assert Proper(rows[id], idempotent);
      TickKeyInjective(s, t, rows[id].origin.schedule, rows[id].origin.second);
    }
    if id :| id in rows && rows[id].origin == Tick(s, t) {
      assert Proper(rows[id], idempotent);
      assert rows[id].key == Some(TickKey(s, t));
    }
  }

  /** Enqueueing a tick, or recording its refusal, leaves it on record unless a foreign run holds its key. */
  lemma TickIsRecordedIff(rows: Rows, idempotent: set<int>, id: int, s: int, t: int, refused: bool)
    requires TicksKeyed(rows, idempotent) && s in idempotent && id !in rows
    ensures var rows' := Inserted(rows, id, Row(Some(TickKey(s, t)), refused, Tick(s, t)));
            HasTick(rows', s, t) <==> HasTick(rows, s, t) || !ForeignHolds(rows, s, t)
  {
    TickKeyTakenIff(rows, idempotent, s, t);
    var rows' := Inserted(rows, id, Row(Some(TickKey(s, t)), refused, Tick(s, t)));
    if !KeyTaken(rows, Some(TickKey(s, t))) { assert rows'[id].origin == Tick(s, t); }
  }

  /** It happens: a client that was first to use a tick's key keeps that tick from ever being recorded. */
  lemma ForeignRunSwallowsTick(idempotent: set<int>, s: int, t: int, id: int, refused: bool) returns (trace: seq<Rows>)
    requires s in idempotent && id != 0
    ensures Inserting(trace, idempotent)
    ensures var rows := trace[|trace| - 1];
            && rows == map[0 := Row(Some(TickKey(s, t)), false, Elsewhere)]
            && Inserted(rows, id, Row(Some(TickKey(s, t)), refused, Tick(s, t))) == rows && !HasTick(rows, s, t)
  {
    var foreign := Row(Some(TickKey(s, t)), false, Elsewhere);
    trace := [map[], map[0 := foreign]];
    assert Proper(foreign, idempotent) && Inserted(map[], 0, foreign) == map[0 := foreign];
    assert OneInsert(trace[0], trace[1], idempotent);
    assert trace[1][0].key == Some(TickKey(s, t));
  }

  /** The keys derived for webhook deliveries are never those of a tick. */
  lemma WebhookKeyIsNoTickKey(key: string, s: int, t: int)
    requires "wh:" <= key
    ensures key != TickKey(s, t)
  {
    assert key[0] == 'w' && TickKey(s, t)[0] == 's';
  }

  // ---- the zoned ticker ---------------------------------------------------------------------------

  const SECOND: int := 1_000_000_000 // in nanoseconds, as clock readings are

  function Floor(nanos: int): int {
    nanos / SECOND
  }

  /** croner's contract: the least occurrence, in whole seconds, strictly after a given second. */
  ghost predicate Schedules(next: int -> Option<int>, occurs: int -> bool) {
    forall t :: match next(t)
                case Some(n) => n > t && occurs(n) && forall o :: t < o < n ==> !occurs(o)
                case None => forall o :: t < o ==> !occurs(o)
  }

  /** `next_fire`: the sub-second part of `after` is dropped first. */
  function NextFire(next: int -> Option<int>, after: int): Option<int> {
    next(Floor(after))
  }

  /** A tick: the second it is for, the clock reading that released it, and the one taken after it. */
  datatype Fired = Fired(second: int, released: int, resumed: int)

  /** No tick comes early. */
  ghost predicate NeverEarly(occurs: int -> bool, ticks: seq<Fired>) {
    forall i :: 0 <= i < |ticks| ==> occurs(ticks[i].second) && ticks[i].released >= ticks[i].second * 1_000_000_000
  }

  ghost predicate StrictlyLater(ticks: seq<Fired>) {
    forall i, j :: 0 <= i < j < |ticks| ==> ticks[i].second < ticks[j].second
  }

  /** An occurrence that gets no tick lay between two ticks and had passed when the first was done. */
  ghost predicate OnlyElapsedAreDropped(occurs: int -> bool, started: int, ticks: seq<Fired>) {
    && (ticks != [] ==> forall o :: started < o * 1_000_000_000 && o < ticks[0].second ==> !occurs(o))
    && (forall i, o :: 0 <= i < |ticks| - 1 && occurs(o) && ticks[i].second < o < ticks[i + 1].second ==>
          o * 1_000_000_000 <= ticks[i].resumed)
  }

  /** The first reading at or after the due second. */
  function Release(clock: seq<int>, due: int): (i: Option<nat>)
    ensures i.Some? ==> i.value < |clock| && clock[i.value] >= due * SECOND
    ensures forall k :: 0 <= k < (if i.Some? then i.value else |clock|) ==> clock[k] < due * SECOND
  {
    if clock == [] then None
    else if clock[0] >= due * SECOND then Some(0)
    else match Release(clock[1..], due) case None => None case Some(i) => Some(i + 1)
  }

  /** Where a ticker goes on from after a tick: the clock, but never before the tick. */
  function Resume(t: Fired): int {
    if t.resumed < t.second * SECOND then t.second * SECOND else t.resumed
  }

  /** The ticks of a ticker that resumes after `after` and sees `clock`: each next occurrence, as soon as a
      reading reaches it. */
  function TicksOf(next: int -> Option<int>, clock: seq<int>, after: int): seq<Fired>
    decreases |clock|
  {
    match NextFire(next, after)
    case None => []
    case Some(due) =>
      match Release(clock, due)
      case None => []
      case Some(i) =>
        if i + 1 == |clock| then []
        else [Fired(due, clock[i], clock[i + 1])] + TicksOf(next, clock[i + 2..], Resume(Fired(due, clock[i], clock[i + 1])))
  }

  /** Each tick is for the next occurrence after the ticker resumed. */
  ghost predicate Chained(next: int -> Option<int>, after: int, ticks: seq<Fired>)
    decreases |ticks|
  {
    ticks != [] ==>
      && NextFire(next, after) == Some(ticks[0].second) && ticks[0].released >= ticks[0].second * SECOND
      && Chained(next, Resume(ticks[0]), ticks[1..])
  }

  lemma {:induction false} TicksAreChained(next: int -> Option<int>, clock: seq<int>, after: int)
    ensures Chained(next, after, TicksOf(next, clock, after))
    decreases |clock|
  {
    var ticks := TicksOf(next, clock, after);
    if ticks != [] {
      var i := Release(clock, NextFire(next, after).value).value;
      TicksAreChained(next, clock[i + 2..], Resume(ticks[0]));
      assert ticks[1..] == TicksOf(next, clock[i + 2..], Resume(ticks[0]));
    }
  }

  lemma {:induction false} ChainedIsRight(next: int -> Option<int>, occurs: int -> bool, after: int, ticks: seq<Fired>)
    requires Schedules(next, occurs) && Chained(next, after, ticks)
    ensures StrictlyLater(ticks) && NeverEarly(occurs, ticks) && OnlyElapsedAreDropped(occurs, after, ticks)
    ensures ticks != [] ==> ticks[0].second > Floor(after)
    decreases |ticks|
  {
    if ticks != [] {
      ChainedIsRight(next, occurs, Resume(ticks[0]), ticks[1..]);
      NextFireIsNext(next, occurs, after, ticks[0].second);
      PrependTick(occurs, after, ticks[0], ticks[1..]);
      assert ticks == [ticks[0]] + ticks[1..];
    }
  }

  /** The ticks of a zoned ticker: later and later, never early, and nothing dropped that had not passed. */
  lemma TicksAreRight(next: int -> Option<int>, occurs: int -> bool, clock: seq<int>, after: int)
    requires Schedules(next, occurs)
    ensures var ticks := TicksOf(next, clock, after);
            StrictlyLater(ticks) && NeverEarly(occurs, ticks) && OnlyElapsedAreDropped(occurs, after, ticks)
  {
    TicksAreChained(next, clock, after);
    ChainedIsRight(next, occurs, after, TicksOf(next, clock, after));
  }

  /** A tick is for a real occurrence after `after`, with none in between. */
  ghost predicate NextOccurrence(occurs: int -> bool, after: int, second: int) {
    second > Floor(after) && occurs(second) && forall o :: occurs(o) ==> o <= Floor(after) || o >= second
  }

  lemma NextFireIsNext(next: int -> Option<int>, occurs: int -> bool, after: int, second: int)
    requires Schedules(next, occurs) && NextFire(next, after) == Some(second)
    ensures NextOccurrence(occurs, after, second)
  {
    assert next(Floor(after)) == Some(second);
  }

  lemma AfterResuming(t: Fired, o: int)
    ensures o > Floor(Resume(t)) ==> o > t.second
    ensures t.second < o <= Floor(Resume(t)) ==> o * SECOND <= t.resumed
  {
    FloorOfSecond(t.second, Resume(t));
    FloorOfSecond(o, Resume(t));
  }

  lemma PrependTick(occurs: int -> bool, after: int, t: Fired, rest: seq<Fired>)
    requires NextOccurrence(occurs, after, t.second) && t.released >= t.second * SECOND
    requires StrictlyLater(rest) && NeverEarly(occurs, rest) && OnlyElapsedAreDropped(occurs, Resume(t), rest)
    requires rest != [] ==> rest[0].second > Floor(Resume(t))
    ensures var ticks := [t] + rest;
            StrictlyLater(ticks) && NeverEarly(occurs, ticks) && OnlyElapsedAreDropped(occurs, after, ticks)
  {
    PrependLater(t, rest);
    PrependDropped(occurs, after, t, rest);
  }

  lemma PrependLater(t: Fired, rest: seq<Fired>)
    requires StrictlyLater(rest) && (rest != [] ==> rest[0].second > Floor(Resume(t)))
    ensures StrictlyLater([t] + rest)
  {
    if rest != [] { AfterResuming(t, rest[0].second); }
  }

  lemma PrependDropped(occurs: int -> bool, after: int, t: Fired, rest: seq<Fired>)
    requires NextOccurrence(occurs, after, t.second) && OnlyElapsedAreDropped(occurs, Resume(t), rest)
    ensures OnlyElapsedAreDropped(occurs, after, [t] + rest)
  {
    var ticks := [t] + rest;
    forall i, o | 0 <= i < |ticks| - 1 && occurs(o) && ticks[i].second < o < ticks[i + 1].second
      ensures o * SECOND <= ticks[i].resumed
    {
      if i == 0 { AfterResuming(t, o); }
    }
  }

  lemma FloorOfSecond(s: int, nanos: int)
    ensures s <= Floor(nanos) <==> s * SECOND <= nanos
  {
  }

  /** `zoned_ticker`, for as long as there are clock readings: the wall clock may stand still, jump or go back. */
  method ZonedTicker(next: int -> Option<int>, clock: seq<int>) returns (ticks: seq<Fired>)
    requires clock != []
    ensures ticks == TicksOf(next, clock[1..], clock[0])
  {
    ticks := [];
    var after, rest := clock[0], clock[1..];
    ghost var all := TicksOf(next, rest, after);
    while true
      invariant all == ticks + TicksOf(next, rest, after)
      decreases |rest|
    {
      var tick, left := AwaitTick(next, rest, after);
      if tick.None? { return; }
      after := Resume(tick.value);
      Regroup(ticks, tick.value, TicksOf(next, left, after));
      ticks, rest := ticks + [tick.value], left;
    }
  }

  lemma Regroup(ticks: seq<Fired>, t: Fired, more: seq<Fired>)
    ensures ticks + ([t] + more) == (ticks + [t]) + more
  {
  }

  /** One round of the ticker: find the next occurrence, sleep until it, fire, and read the clock again. */
  method AwaitTick(next: int -> Option<int>, clock: seq<int>, after: int) returns (tick: Option<Fired>, left: seq<int>)
    ensures tick.None? ==> TicksOf(next, clock, after) == []
    ensures tick.Some? ==>
              && TicksOf(next, clock, after)
                 == [tick.value] + TicksOf(next, left, Resume(tick.value))
              && |left| < |clock|
  {
    left := [];
    var fire := NextFire(next, after);
    if fire.None? { return None, left; }
    var i := Sleep(clock, fire.value);
    if i.None? || i.value + 1 == |clock| { return None, left; }
    tick := Some(Fired(fire.value, clock[i.value], clock[i.value + 1]));
    left := clock[i.value + 2..];
    TicksBegin(next, clock, after, i.value, tick.value);
  }

  lemma TicksBegin(next: int -> Option<int>, clock: seq<int>, after: int, i: nat, t: Fired)
    requires NextFire(next, after) == Some(t.second) && Release(clock, t.second) == Some(i) && i + 1 < |clock|
    requires t == Fired(t.second, clock[i], clock[i + 1])
    ensures TicksOf(next, clock, after) == [t] + TicksOf(next, clock[i + 2..], Resume(t))
  {
  }

  /** Sleep in slices, reading the clock again after each, until `due`. */
  method Sleep(clock: seq<int>, due: int) returns (i: Option<nat>)
    ensures i == Release(clock, due)
  {
    for k := 0 to |clock|
      invariant forall j :: 0 <= j < k ==> clock[j] < due * SECOND
    {
      if clock[k] >= due * SECOND {
        assert forall j :: 0 <= j < k ==> clock[j] < due * SECOND;
        return Some(k);
      }
    }
    return None;
  }
}
