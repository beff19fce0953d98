/** The fixed-window rate limiter (`FixedWindowLimiter::check_at` in http.rs). */
module RateLimiter {

  /** A key's window: when it started and how many hits it has admitted. */
  datatype Window = Window(start: nat, count: nat)

  type Table = map<string, Window>

  const PRUNE_ABOVE := 4096

  /** `now.saturating_sub(start)` */
  function Age(now: nat, start: nat): nat {
    if now < start then 0 else now - start
  }

  /** The window a hit falls into: a new one for an unknown key or after `width` seconds. */
  function Current(t: Table, key: string, now: nat, width: nat): Window {
    if key in t && Age(now, t[key].start) < width then t[key] else Window(now, 0)
  }

  /** One hit, without pruning. */
  function Hit(t: Table, key: string, now: nat, width: nat, max: nat): (Table, bool) {
    var w := Current(t, key, now, width);
    if w.count >= max then (t[key := w], false) else (t[key := w.(count := w.count + 1)], true)
  }

  function Pruned(t: Table, now: nat, width: nat): Table {
    map k | k in t && Age(now, t[k].start) < width :: t[k]
  }

  function Check(t: Table, key: string, now: nat, width: nat, max: nat): (Table, bool) {
    Hit(if |t| > PRUNE_ABOVE then Pruned(t, now, width) else t, key, now, width, max)
  }

  class FixedWindowLimiter {
    const width: nat
    const max: nat
    var inner: Table

    constructor (width: nat, max: nat)
      ensures this.width == width && this.max == max && inner == map[]
    {
      this.width, this.max, inner := width, max, map[];
    }

    method CheckAt(key: string, now: nat) returns (admitted: bool)
      modifies this
      ensures (inner, admitted) == Check(old(inner), key, now, width, max)
    {
      if |inner| > PRUNE_ABOVE {
        inner := map k | k in inner && Age(now, inner[k].start) < width :: inner[k];
      }
      ghost var t := inner;
      var e := if key in inner then inner[key] else Window(now, 0);
      if Age(now, e.start) >= width {
        e := Window(now, 0);
      }
      inner := inner[key := e];
      if e.count >= max { return false; }
      inner := inner[key := e.(count := e.count + 1)];
      assert inner == t[key := e.(count := e.count + 1)];
      return true;
    }
  }

  // ---- traces -----------------------------------------------------------------------------------

  datatype Request = Request(key: string, now: nat)

  ghost predicate ClockForward(rs: seq<Request>) {
    forall i, j :: 0 <= i < j < |rs| ==> rs[i].now <= rs[j].now
  }

  /** The table after a trace, and the answers given, with pruning as the source does it or never. */
  function Run(rs: seq<Request>, width: nat, max: nat, prune: bool): (Table, seq<bool>) {
    if rs == [] then (map[], [])
    else
      var (t, answers) := Run(rs[..|rs| - 1], width, max, prune);
      var r := rs[|rs| - 1];
      var (t', ok) := if prune then Check(t, r.key, r.now, width, max) else Hit(t, r.key, r.now, width, max);
      (t', answers + [ok])
  }

  /** The pruned table is the full one without some windows that are over. */
  ghost predicate OnlyOverMissing(pruned: Table, full: Table, now: nat, width: nat) {
    && (forall k :: k in pruned ==> k in full && full[k] == pruned[k])
    && (forall k :: k in full && k !in pruned ==> Age(now, full[k].start) >= width)
  }

  lemma OneHitAgrees(pruned: Table, full: Table, key: string, now: nat, width: nat, max: nat)
    requires OnlyOverMissing(pruned, full, now, width)
    ensures var (p, ok) := Check(pruned, key, now, width, max);
            var (f, ok') := Hit(full, key, now, width, max);
            ok == ok' && OnlyOverMissing(p, f, now, width)
  {
    var t := if |pruned| > PRUNE_ABOVE then Pruned(pruned, now, width) else pruned;
    assert OnlyOverMissing(t, full, now, width);
    assert Current(t, key, now, width) == Current(full, key, now, width);
  }

  /** Pruning is never seen: with a clock that does not go back, the answers are those of a limiter that
      keeps every window for ever. */
  lemma {:induction false} PruningIsInvisible(rs: seq<Request>, width: nat, max: nat, now: nat)
    requires ClockForward(rs) && (rs != [] ==> rs[|rs| - 1].now <= now)
    ensures Run(rs, width, max, true).1 == Run(rs, width, max, false).1
    ensures OnlyOverMissing(Run(rs, width, max, true).0, Run(rs, width, max, false).0, now, width)
  {
    if rs != [] {
      var r := rs[|rs| - 1];
      var before := rs[..|rs| - 1];
      PruningIsInvisible(before, width, max, r.now);
      OneHitAgrees(Run(before, width, max, true).0, Run(before, width, max, false).0, r.key, r.now, width, max);
    }
  }

  // ---- how many hits get through -----------------------------------------------------------------

  /** Hits of `key` admitted in the seconds `from`, ..., `to - 1`. */
  function Admitted(rs: seq<Request>, answers: seq<bool>, key: string, from: nat, to: nat): nat
    requires |answers| == |rs|
  {
    if rs == [] then 0
    else
      var n := |rs| - 1;
      Admitted(rs[..n], answers[..n], key, from, to)
      + (if answers[n] && rs[n].key == key && from <= rs[n].now < to then 1 else 0)
  }

  lemma {:induction false} OneAnswerEach(rs: seq<Request>, width: nat, max: nat, prune: bool)
    ensures |Run(rs, width, max, prune).1| == |rs|
  {
    if rs != [] { OneAnswerEach(rs[..|rs| - 1], width, max, prune); }
  }

  /** What is known of a key after a trace that ended at `last`, with `c` hits admitted in the `width`
      seconds from `from` on: the window that was open when they began let in at most `max - 1` of them. */
  ghost predicate Bounded(t: Table, key: string, last: nat, c: nat, from: nat, width: nat, max: nat) {
    && (c > 0 ==> last >= from)
    && (key !in t ==> c == 0)
    && (key in t ==>
          var w := t[key];
          && w.start <= last && 1 <= w.count <= max
          && (w.start < from ==> c <= w.count - 1)
          && (from <= w.start < from + width ==> c <= max - 1 + w.count)
          && c <= 2 * max - 1)
  }

  lemma HitStaysBounded(t: Table, key: string, last: nat, c: nat, from: nat, width: nat, max: nat, r: Request)
    requires Bounded(t, key, last, c, from, width, max) && last <= r.now && width >= 1 && max >= 1
    ensures var (t', ok) := Hit(t, r.key, r.now, width, max);
            Bounded(t', key, r.now, c + (if ok && r.key == key && from <= r.now < from + width then 1 else 0), from, width, max)
  {
  }

  lemma {:induction false} TraceStaysBounded(rs: seq<Request>, width: nat, max: nat, key: string, from: nat)
    requires ClockForward(rs) && width >= 1 && max >= 1
    ensures |Run(rs, width, max, false).1| == |rs|
    ensures var (t, answers) := Run(rs, width, max, false);
            Bounded(t, key, if rs == [] then 0 else rs[|rs| - 1].now, Admitted(rs, answers, key, from, from + width), from, width, max)
  {
    OneAnswerEach(rs, width, max, false);
    if rs != [] {
      var n := |rs| - 1;
      TraceStaysBounded(rs[..n], width, max, key, from);
      var (t, answers) := Run(rs[..n], width, max, false);
      var c := Admitted(rs[..n], answers, key, from, from + width);
      HitStaysBounded(t, key, if n == 0 then 0 else rs[n - 1].now, c, from, width, max, rs[n]);
      assert Run(rs, width, max, false).1[..n] == answers;
    }
  }

  /** Any `width` consecutive seconds admit at most 2 * max - 1 hits of a key. */
  lemma AtMostTwiceLessOne(rs: seq<Request>, width: nat, max: nat, key: string, from: nat)
    requires ClockForward(rs) && width >= 1 && max >= 1
    ensures |Run(rs, width, max, true).1| == |rs|
    ensures Admitted(rs, Run(rs, width, max, true).1, key, from, from + width) <= 2 * max - 1
  {
    PruningIsInvisible(rs, width, max, if rs == [] then 0 else rs[|rs| - 1].now);
    TraceStaysBounded(rs, width, max, key, from);
  }

  /** With windows of one second, a second admits no more than `max`: the window it falls into starts in it. */
  ghost predicate BoundedBySecond(t: Table, key: string, last: nat, c: nat, from: nat, max: nat) {
    && c <= max && (c > 0 ==> last >= from && key in t)
    && (key in t ==>
          && t[key].start <= last && t[key].count <= max
          && (t[key].start < from ==> c == 0) && (t[key].start == from ==> c <= t[key].count))
  }

  lemma HitStaysBoundedBySecond(t: Table, key: string, last: nat, c: nat, from: nat, max: nat, r: Request)
    requires BoundedBySecond(t, key, last, c, from, max) && last <= r.now && max >= 1
    ensures var (t', ok) := Hit(t, r.key, r.now, 1, max);
            BoundedBySecond(t', key, r.now, c + (if ok && r.key == key && from <= r.now < from + 1 then 1 else 0), from, max)
  {
  }

  lemma {:induction false} TraceStaysBoundedBySecond(rs: seq<Request>, max: nat, key: string, from: nat)
    requires ClockForward(rs) && max >= 1
    ensures |Run(rs, 1, max, false).1| == |rs|
    ensures var (t, answers) := Run(rs, 1, max, false);
            BoundedBySecond(t, key, if rs == [] then 0 else rs[|rs| - 1].now, Admitted(rs, answers, key, from, from + 1), from, max)
  {
    OneAnswerEach(rs, 1, max, false);
    if rs != [] {
      var n := |rs| - 1;
      TraceStaysBoundedBySecond(rs[..n], max, key, from);
      var (t, answers) := Run(rs[..n], 1, max, false);
      var c := Admitted(rs[..n], answers, key, from, from + 1);
      HitStaysBoundedBySecond(t, key, if n == 0 then 0 else rs[n - 1].now, c, from, max, rs[n]);
      assert Run(rs, 1, max, false).1[..n] == answers;
    }
  }

  /** The most hits of a key that `width` consecutive seconds can admit. */
  function MostAdmitted(width: nat, max: nat): int {
    if width == 1 then max else 2 * max - 1
  }

  lemma AtMostMostAdmitted(rs: seq<Request>, width: nat, max: nat, key: string, from: nat)
    requires ClockForward(rs) && width >= 1 && max >= 1
    ensures |Run(rs, width, max, true).1| == |rs|
    ensures Admitted(rs, Run(rs, width, max, true).1, key, from, from + width) <= MostAdmitted(width, max)
  {
    AtMostTwiceLessOne(rs, width, max, key, from);
    if width == 1 {
      PruningIsInvisible(rs, 1, max, if rs == [] then 0 else rs[|rs| - 1].now);
      TraceStaysBoundedBySecond(rs, max, key, from);
    }
  }

  // ---- and that many do get through -----------------------------------------------------------------

  /** A trace of requests for one key, all admitted so far as counted: its window, its answers, and the hits
      admitted in the `width` seconds from second 1 on. */
  ghost predicate Story(rs: seq<Request>, key: string, w: Window, answers: seq<bool>, c: nat, width: nat, max: nat) {
    && rs != [] && ClockForward(rs) && Run(rs, width, max, true) == (map[key := w], answers)
    && |answers| == |rs| && Admitted(rs, answers, key, 1, 1 + width) == c
  }

  function InRange(now: nat, width: nat): nat {
    if 1 <= now < 1 + width then 1 else 0
  }

  lemma OneMore(rs: seq<Request>, key: string, w: Window, answers: seq<bool>, c: nat, width: nat, max: nat, now: nat)
    returns (rs': seq<Request>, w': Window, answers': seq<bool>)
    requires Story(rs, key, w, answers, c, width, max) && rs[|rs| - 1].now <= now
    requires Current(map[key := w], key, now, width).count < max
    ensures var e := Current(map[key := w], key, now, width); w' == e.(count := e.count + 1)
    ensures Story(rs', key, w', answers', c + InRange(now, width), width, max) && rs'[|rs'| - 1].now == now
  {
    var t := map[key := w];
    var e := Current(t, key, now, width);
    w' := e.(count := e.count + 1);
    rs', answers' := rs + [Request(key, now)], answers + [true];
    assert rs'[..|rs|] == rs && answers'[..|rs|] == answers;
    assert t[key := w'] == map[key := w'];
  }

  /** `n` more hits in one second, into the window that is open or the one they open. */
  lemma {:induction false} Burst(rs: seq<Request>, key: string, w: Window, answers: seq<bool>, c: nat, width: nat, max: nat,
                                 now: nat, n: nat)
    returns (rs': seq<Request>, w': Window, answers': seq<bool>)
    requires width >= 1 && Story(rs, key, w, answers, c, width, max) && rs[|rs| - 1].now <= now
    requires Current(map[key := w], key, now, width).count + n <= max
    ensures Story(rs', key, w', answers', c + n * InRange(now, width), width, max) && rs'[|rs'| - 1].now <= now
    ensures n > 0 ==> var e := Current(map[key := w], key, now, width); w' == e.(count := e.count + n)
    ensures n == 0 ==> w' == w
  {
    rs', w', answers' := rs, w, answers;
    if n > 0 {
      var e, k := Current(map[key := w], key, now, width), InRange(now, width);
      rs', w', answers' := Burst(rs, key, w, answers, c, width, max, now, n - 1);
      StillOpen(key, w, now, width, n - 1, w');
      rs', w', answers' := OneMore(rs', key, w', answers', c + (n - 1) * k, width, max, now);
      TimesNext(n, k);
    }
  }

  lemma TimesNext(n: nat, k: nat)
    requires n > 0
    ensures (n - 1) * k + k == n * k
  {
  }

  /** A window that has just taken hits is still the current one. */
  lemma StillOpen(key: string, w: Window, now: nat, width: nat, n: nat, w': Window)
    requires width >= 1
    requires var e := Current(map[key := w], key, now, width); if n > 0 then w' == e.(count := e.count + n) else w' == w
    ensures var e := Current(map[key := w], key, now, width);
            Current(map[key := w'], key, now, width) == e.(count := e.count + n)
  {
  }

  lemma FirstHit(key: string, width: nat, max: nat) returns (rs: seq<Request>, answers: seq<bool>)
    requires width >= 1 && max >= 1
    ensures Story(rs, key, Window(0, 1), answers, 0, width, max) && rs[|rs| - 1].now == 0
  {
    rs, answers := [Request(key, 0)], [true];
    var w := Window(0, 1);
    var empty: Table := map[];
    var none: seq<bool> := [];
    assert rs[..|rs| - 1] == [] && Run([], width, max, true) == (empty, none);
    assert Check(empty, key, 0, width, max) == (empty[key := w], true) && empty[key := w] == map[key := w];
    assert Run(rs, width, max, true) == (empty[key := w], none + [true]) && none + [true] == answers;
    assert answers[..|rs| - 1] == none;
  }

  /** For every width, limit and key the bound is met: one hit early in a window, the rest of it late, and the
      whole of the next. */
  lemma TheBoundIsMet(width: nat, max: nat, key: string) returns (rs: seq<Request>, answers: seq<bool>)
    requires width >= 1 && max >= 1
    ensures ClockForward(rs) && |answers| == |rs| && answers == Run(rs, width, max, true).1
    ensures Admitted(rs, answers, key, 1, 1 + width) == MostAdmitted(width, max)
  {
    rs, answers := FirstHit(key, width, max);
    var w := Window(0, 1);
    if width == 1 {
      rs, w, answers := Burst(rs, key, w, answers, 0, width, max, 1, max);
    } else {
      rs, w, answers := Burst(rs, key, w, answers, 0, width, max, 1, max - 1);
      rs, w, answers := Burst(rs, key, w, answers, max - 1, width, max, width, max);
    }
  }
}
