/** What the rate limiter answers, key by key: the first so many hits of each window are admitted, and the hits of
    other keys make no difference. */
module RateWindows {
  import opened RateLimiter

  /** When `key` was asked for. */
  function TimesOf(rs: seq<Request>, key: string): seq<nat> {
    if rs == [] then []
    else
      var n := |rs| - 1;
      TimesOf(rs[..n], key) + (if rs[n].key == key then [rs[n].now] else [])
  }

  /** Which of the hits opened the window that hit `i` falls into: the hit itself if the window before is over. */
  function Opening(times: seq<nat>, width: nat, i: nat): (o: nat)
    requires i < |times|
    ensures o <= i
  {
    if i == 0 then 0
    else
      var before := Opening(times, width, i - 1);
      if times[i] < times[before] + width then before else i
  }

  /** Hit `i` is one of the first `max` of its window. */
  predicate EarlyInWindow(times: seq<nat>, width: nat, max: nat, i: nat)
    requires i < |times|
  {
    i - Opening(times, width, i) < max
  }

  lemma {:induction false} OpeningOfPrefix(times: seq<nat>, more: seq<nat>, width: nat, i: nat)
    requires i < |times|
    ensures Opening(times + more, width, i) == Opening(times, width, i)
  {
    if i > 0 { OpeningOfPrefix(times, more, width, i - 1); }
  }

  /** The table holds the window of the key's last hit, and how many hits it has admitted. */
  ghost predicate Tells(t: Table, key: string, times: seq<nat>, width: nat, max: nat) {
    if times == [] then key !in t
    else
      var i := |times| - 1;
      var o := Opening(times, width, i);
      key in t && t[key] == Window(times[o], if i + 1 - o < max then i + 1 - o else max)
  }

  ghost predicate NotBefore(times: seq<nat>, now: nat) {
    forall i :: 0 <= i < |times| ==> times[i] <= now
  }

  lemma OneHit(t: Table, key: string, times: seq<nat>, now: nat, width: nat, max: nat)
    requires Tells(t, key, times, width, max) && NotBefore(times, now)
    ensures var (t', ok) := Hit(t, key, now, width, max);
            Tells(t', key, times + [now], width, max) && (ok <==> EarlyInWindow(times + [now], width, max, |times|))
  {
    if times != [] { OpeningOfPrefix(times, [now], width, |times| - 1); }
  }

  lemma OtherHit(t: Table, key: string, times: seq<nat>, other: string, now: nat, width: nat, max: nat)
    requires Tells(t, key, times, width, max) && other != key
    ensures Tells(Hit(t, other, now, width, max).0, key, times, width, max)
  {
  }

  lemma {:induction false} TimesAreForward(rs: seq<Request>, key: string, now: nat)
    requires ClockForward(rs) && (rs != [] ==> rs[|rs| - 1].now <= now)
    ensures NotBefore(TimesOf(rs, key), now)
  {
    if rs != [] { TimesAreForward(rs[..|rs| - 1], key, now); }
  }

  lemma {:induction false} TableTells(rs: seq<Request>, key: string, width: nat, max: nat)
    requires ClockForward(rs)
    ensures Tells(Run(rs, width, max, false).0, key, TimesOf(rs, key), width, max)
  {
    if rs != [] {
      var n := |rs| - 1;
      var t := Run(rs[..n], width, max, false).0;
      TableTells(rs[..n], key, width, max);
      if rs[n].key == key {
        TimesAreForward(rs[..n], key, rs[n].now);
        OneHit(t, key, TimesOf(rs[..n], key), rs[n].now, width, max);
      } else {
        assert TimesOf(rs, key) == TimesOf(rs[..n], key);
        OtherHit(t, key, TimesOf(rs[..n], key), rs[n].key, rs[n].now, width, max);
      }
    }
  }

  /** The last answer of a trace. */
  lemma LastAnswer(rs: seq<Request>, width: nat, max: nat)
    requires rs != [] && ClockForward(rs)
    ensures var n := |rs| - 1; var times := TimesOf(rs, rs[n].key);
            && |Run(rs, width, max, false).1| == |rs| && times != []
            && (Run(rs, width, max, false).1[n] <==> EarlyInWindow(times, width, max, |times| - 1))
  {
    var n := |rs| - 1;
    OneAnswerEach(rs[..n], width, max, false);
    TableTells(rs[..n], rs[n].key, width, max);
    TimesAreForward(rs[..n], rs[n].key, rs[n].now);
    OneHit(Run(rs[..n], width, max, false).0, rs[n].key, TimesOf(rs[..n], rs[n].key), rs[n].now, width, max);
  }

  lemma {:induction false} AnswersOfPrefix(rs: seq<Request>, width: nat, max: nat, i: nat)
    requires i < |rs|
    ensures |Run(rs, width, max, false).1| == |rs| && |Run(rs[..i + 1], width, max, false).1| == i + 1
    ensures Run(rs, width, max, false).1[i] == Run(rs[..i + 1], width, max, false).1[i]
  {
    var n := |rs| - 1;
    OneAnswerEach(rs, width, max, false);
    OneAnswerEach(rs[..i + 1], width, max, false);
    if i < n {
      OneAnswerEach(rs[..n], width, max, false);
      assert rs[..n][..i + 1] == rs[..i + 1];
      AnswersOfPrefix(rs[..n], width, max, i);
    } else {
      assert rs[..i + 1] == rs;
    }
  }

  /** With a clock that does not go back, a hit is admitted if and only if it is one of the first `max` of its window;
      the windows of a key are those of its own hits alone. */
  lemma AnswersByKey(rs: seq<Request>, width: nat, max: nat, i: nat)
    requires ClockForward(rs) && i < |rs|
    ensures var times := TimesOf(rs[..i + 1], rs[i].key);
            && |Run(rs, width, max, true).1| == |rs| && times != []
            && (Run(rs, width, max, true).1[i] <==> EarlyInWindow(times, width, max, |times| - 1))
  {
    PruningIsInvisible(rs, width, max, rs[|rs| - 1].now);
    AnswersOfPrefix(rs, width, max, i);
    LastAnswer(rs[..i + 1], width, max);
  }
}
