/** The resizable concurrency limiter and the autoscaler's control law (scale.rs). Floating point is taken as
    exact real arithmetic. */
module Autoscale {
  import opened Wrappers

  /** `x` itself within the bounds, the bound it is beyond otherwise. */
  ghost predicate Bounded(x: int, lo: int, hi: int, r: int) {
    if lo <= x <= hi then r == x else if x < lo then r == lo else r == hi
  }

  function Clamp(x: int, lo: int, hi: int): (r: int)
    ensures lo <= hi ==> Bounded(x, lo, hi, r)
  {
    if x < lo then lo else if x > hi then hi else x
  }

  /** `Concurrency`: a semaphore whose number of permits can be changed while some are held. */
  class Concurrency {
    const max: nat
    var available: nat       // permits in the semaphore
    var current: nat
    var held: nat            // permits handed out and not dropped yet

    /** Every permit is either in the semaphore or held, and there is at least one, at most `max`. */
    ghost predicate Valid()
      reads this
    {
      held + available == current && 1 <= current <= max
    }

    constructor (initial: nat, max: nat)
      ensures Valid() && held == 0
      ensures this.max == (if max < 1 then 1 else max) && current == Clamp(initial, 1, this.max)
    {
      var top := if max < 1 then 1 else max;
      this.max := top;
      available, current, held := Clamp(initial, 1, top), Clamp(initial, 1, top), 0;
    }

    /** `acquire`, at a moment when it does not have to wait (true) or does (false). */
    method Acquire() returns (got: bool)
      requires Valid()
      modifies `available, `held
      ensures Valid() && (got <==> old(available) > 0)
      ensures held == old(held) + (if got then 1 else 0)
    {
      got := available > 0;
      if got { available, held := available - 1, held + 1; }
    }

    /** A permit is dropped. */
    method Release()
      requires Valid() && held > 0
      modifies `available, `held
      ensures Valid() && held == old(held) - 1 && available == old(available) + 1
    {
      available, held := available + 1, held - 1;
    }

    /** `set`: no held permit is revoked, so shrinking stops at what is held. */
    method Set(target: int) returns (size: nat)
      requires Valid()
      modifies `available, `current
      ensures Valid() && size == current
      ensures var t := Clamp(target, 1, max);
              current == if t >= old(current) then t else if t > held then t else held
    {
      var t := Clamp(target, 1, max);
      if t > current {
        available := available + (t - current);
        current := t;
      } else if t < current {
        var removed := if current - t < available then current - t else available;
        available := available - removed;
        current := current - removed;
      }
      size := current;
    }
  }

  // ---- the control law ----------------------------------------------------------------------------

  const WINDOW_SECS := 10.0
  const ALPHA := 0.4
  const NOMINAL_W := 0.4
  const MIN_W := 0.05
  const MAX_W := 600.0

  function ClampReal(x: real, lo: real, hi: real): real {
    if x < lo then lo else if x > hi then hi else x
  }

  function Ceil(x: real): (n: int)
    ensures (n - 1) as real < x <= n as real
  {
    if x.Floor as real == x then x.Floor else x.Floor + 1
  }

  /** The smoothed arrival rate after a tick that counted `arrivals`. */
  function Smoothed(rate: real, arrivals: nat): real {
    ALPHA * (arrivals as real / WINDOW_SECS) + (1.0 - ALPHA) * rate
  }

  function ServiceTime(mean: Option<real>): (w: real)
    ensures MIN_W <= w <= MAX_W
  {
    ClampReal(mean.GetOr(NOMINAL_W), MIN_W, MAX_W)
  }

  /** Little's law, with headroom. */
  function Target(rate: real, w: real, headroom: real): int {
    Ceil(rate * w * headroom)
  }

  datatype Config = Config(floor: nat, max: nat, headroom: real)

  /** `clamp` panics on an empty range. */
  ghost predicate Sane(cfg: Config) {
    1 <= cfg.floor <= cfg.max && cfg.headroom >= 0.0
  }

  ghost predicate LeastNotBelow(n: int, x: real) {
    x <= n as real < x + 1.0
  }

  /** The service time reckoned with: as measured, but no less than 0.05 and no more than 600 seconds, and 0.4 when
      nothing was measured. */
  ghost predicate Reckoned(mean: Option<real>, w: real) {
    match mean
    case None => w == 0.4
    case Some(m) => if m < 0.05 then w == 0.05 else if m > 600.0 then w == 600.0 else w == m
  }

  ghost predicate Load(rate: real, w: real, headroom: real, load: real) {
    load == rate * w * headroom
  }

  /** `size` is the least whole number not below the load, within floor and maximum, then within what the limiter can
      be; but not less than what is held. */
  ghost predicate ScaledTo(cfg: Config, limit: int, held: int, load: real, n: int, target: int, within: int, size: int) {
    && LeastNotBelow(n, load) && Bounded(n, cfg.floor, cfg.max, target) && Bounded(target, 1, limit, within)
    && size == if within < held then held else within
  }

  ghost predicate ScalesRight(cfg: Config, limit: int, held: int, rate: real, mean: Option<real>, size: int) {
    exists w, load, n, target, within ::
      Reckoned(mean, w) && Load(rate, w, cfg.headroom, load) && ScaledTo(cfg, limit, held, load, n, target, within, size)
  }

  lemma SizeIsRight(cfg: Config, limit: int, held: int, rate: real, mean: Option<real>, size: int)
    requires Sane(cfg) && 1 <= limit
    requires var within := Clamp(Clamp(Target(rate, ServiceTime(mean), cfg.headroom), cfg.floor, cfg.max), 1, limit);
             size == if within < held then held else within
    ensures ScalesRight(cfg, limit, held, rate, mean, size)
  {
    var w := ServiceTime(mean);
    ServiceIsReckoned(mean);
    var load := LoadIs(rate, w, cfg.headroom);
    ScaledBy(cfg, limit, held, load, Target(rate, w, cfg.headroom), size);
  }

  lemma LoadIs(rate: real, w: real, headroom: real) returns (load: real)
    ensures Load(rate, w, headroom, load) && LeastNotBelow(Target(rate, w, headroom), load)
  {
    load := rate * w * headroom;
    CeilIsLeast(load);
  }

  lemma ScaledBy(cfg: Config, limit: int, held: int, load: real, n: int, size: int)
    requires Sane(cfg) && 1 <= limit && LeastNotBelow(n, load)
    requires var within := Clamp(Clamp(n, cfg.floor, cfg.max), 1, limit); size == if within < held then held else within
    ensures exists target, within :: ScaledTo(cfg, limit, held, load, n, target, within, size)
  {
    var target := Clamp(n, cfg.floor, cfg.max);
    assert ScaledTo(cfg, limit, held, load, n, target, Clamp(target, 1, limit), size);
  }

  lemma ServiceIsReckoned(mean: Option<real>)
    ensures Reckoned(mean, ServiceTime(mean))
  {
  }

  lemma CeilIsLeast(x: real)
    ensures LeastNotBelow(Ceil(x), x)
  {
  }

  class Autoscaler {
    const cfg: Config
    const conc: Concurrency
    var rate: real

    /** The smoothed rate starts at zero and stays above. */
    ghost predicate Valid()
      reads this, conc
    {
      conc.Valid() && rate >= 0.0
    }

    constructor (cfg: Config, conc: Concurrency)
      requires conc.Valid()
      ensures this.cfg == cfg && this.conc == conc && rate == 0.0 && Valid()
    {
      this.cfg, this.conc, rate := cfg, conc, 0.0;
    }

    /** One pass of the control loop. */
    method Tick(arrivals: nat, mean: Option<real>) returns (size: nat)
      requires Valid() && Sane(cfg)
      modifies `rate, conc`available, conc`current
      ensures Valid() && rate == Smoothed(old(rate), arrivals) && size == conc.current
      ensures var t := Clamp(Clamp(Target(rate, ServiceTime(mean), cfg.headroom), cfg.floor, cfg.max), 1, conc.max);
              conc.current == if t >= old(conc.current) || t > conc.held then t else conc.held
      ensures rate == 0.4 * (arrivals as real / 10.0) + 0.6 * old(rate)
      ensures ScalesRight(cfg, conc.max, conc.held, rate, mean, size)
    {
      rate := ALPHA * (arrivals as real / WINDOW_SECS) + (1.0 - ALPHA) * rate;
      var w := ServiceTime(mean);
      var target := Target(rate, w, cfg.headroom);
      size := conc.Set(Clamp(target, cfg.floor, cfg.max));
      SizeIsRight(cfg, conc.max, conc.held, rate, mean, size);
    }
  }

  /** Under a steady load the rate approaches the arrivals per second: each tick takes away two fifths of the distance. */
  lemma RateApproaches(rate: real, arrivals: nat)
    ensures Smoothed(rate, arrivals) - arrivals as real / 10.0 == 0.6 * (rate - arrivals as real / 10.0)
  {
  }

  // ---- scaling down ---------------------------------------------------------------------------------

  /** The rate after each tick of a run. */
  function RateAfter(rate: real, arrivals: seq<nat>): real {
    if arrivals == [] then rate else Smoothed(RateAfter(rate, arrivals[..|arrivals| - 1]), arrivals[|arrivals| - 1])
  }

  /** Without arrivals the rate falls at least as fast as 1 / (1 + 2n/3). */
  lemma {:induction false} IdleRateDecays(rate: real, idle: seq<nat>)
    requires rate >= 0.0 && forall i :: 0 <= i < |idle| ==> idle[i] == 0
    ensures 0.0 <= RateAfter(rate, idle) && RateAfter(rate, idle) * (3.0 + 2.0 * |idle| as real) <= 3.0 * rate
  {
    if idle != [] {
      var before := idle[..|idle| - 1];
      IdleRateDecays(rate, before);
      var r, n := RateAfter(rate, before), |before| as real;
      assert RateAfter(rate, idle) == 0.6 * r;
      OneStepDecays(r, n, rate);
    }
  }

  lemma OneStepDecays(r: real, n: real, rate: real)
    requires r >= 0.0 && n >= 0.0 && r * (3.0 + 2.0 * n) <= 3.0 * rate
    ensures (0.6 * r) * (3.0 + 2.0 * (n + 1.0)) <= 3.0 * rate
  {
    var p := r * n;
    assert p >= 0.0;
    assert r * (3.0 + 2.0 * n) == 3.0 * r + 2.0 * p;
    assert (0.6 * r) * (3.0 + 2.0 * (n + 1.0)) == 3.0 * r + 1.2 * p;
  }

  /** How many idle ticks are enough. */
  function EnoughTicks(rate: real, headroom: real): int {
    Ceil(1.5 * rate * MAX_W * headroom)
  }

  lemma SmallEnough(r: real, n: real, rate: real, w: real, headroom: real)
    requires r >= 0.0 && rate >= 0.0 && headroom >= 0.0 && MIN_W <= w <= MAX_W
    requires n >= 0.0 && r * (3.0 + 2.0 * n) <= 3.0 * rate && 1.5 * rate * MAX_W * headroom <= n
    ensures 0.0 <= (w * r) * headroom <= 1.0
  {
    var k := MAX_W * headroom;
    LittleTimes(rate, headroom, k);
    RateTimes(r, 3.0 + 2.0 * n, 3.0 * rate, k);
    MulMonotone(w, MAX_W, r);
    MulMonotone(w * r, MAX_W * r, headroom);
    Swap(r, MAX_W, headroom);
    Between((w * r) * headroom, (MAX_W * r) * headroom, r * k);
  }

  lemma Between(a: real, b: real, c: real)
    requires 0.0 <= a <= b && b == c && c <= 1.0
    ensures 0.0 <= a <= 1.0
  {
  }

  /** If r * m is at most l, and l * k less than m, then r * k is at most 1. */
  lemma RateTimes(r: real, m: real, l: real, k: real)
    requires r >= 0.0 && m > 0.0 && k >= 0.0 && r * m <= l && l * k <= m
    ensures r * k <= 1.0
  {
    var x, y := r * m, r * k;
    NotNegative(r, m);
    MulMonotone(x, l, k);
    Regroup(r, m, k, x, y);
    assert x * k <= l * k;
    assert x * k <= m;
    assert y * m <= m;
    AtMostOne(y, m);
  }

  lemma Regroup(r: real, m: real, k: real, x: real, y: real)
    requires x == r * m && y == r * k
    ensures x * k == y * m
  {
  }

  lemma NotNegative(a: real, b: real)
    requires a >= 0.0 && b >= 0.0
    ensures a * b >= 0.0
  {
  }

  lemma Swap(a: real, b: real, c: real)
    ensures (a * b) * c == (a * c) * b && (b * a) * c == a * (b * c)
  {
  }

  lemma LittleTimes(rate: real, headroom: real, k: real)
    requires k == MAX_W * headroom
    ensures (3.0 * rate) * k == 2.0 * (1.5 * rate * MAX_W * headroom)
  {
  }

  lemma MulMonotone(a: real, b: real, c: real)
    requires 0.0 <= a <= b && c >= 0.0
    ensures 0.0 <= a * c <= b * c
  {
  }

  lemma AtMostOne(q: real, m: real)
    requires m > 0.0 && q * m <= m
    ensures q <= 1.0
  {
    assert (q - 1.0) * m <= 0.0;
  }

  /** With no arrivals the target is at the floor after finitely many ticks, and stays there, whatever the
      service times measured. */
  lemma IdleReachesFloor(cfg: Config, rate: real, idle: seq<nat>, mean: Option<real>)
    requires Sane(cfg) && rate >= 0.0 && forall i :: 0 <= i < |idle| ==> idle[i] == 0
    requires |idle| >= EnoughTicks(rate, cfg.headroom)
    ensures Clamp(Target(RateAfter(rate, idle), ServiceTime(mean), cfg.headroom), cfg.floor, cfg.max) == cfg.floor
  {
    EnoughIsEnough(rate, cfg.headroom, |idle|);
    IdleTarget(rate, cfg.headroom, idle, |idle| as real, ServiceTime(mean));
    ClampsToFloor(Target(RateAfter(rate, idle), ServiceTime(mean), cfg.headroom), cfg.floor, cfg.max);
  }

  lemma IdleTarget(rate: real, headroom: real, idle: seq<nat>, n: real, w: real)
    requires rate >= 0.0 && headroom >= 0.0 && forall i :: 0 <= i < |idle| ==> idle[i] == 0
    requires n == |idle| as real && 1.5 * rate * MAX_W * headroom <= n && MIN_W <= w <= MAX_W
    ensures Target(RateAfter(rate, idle), w, headroom) <= 1
  {
    IdleRateDecays(rate, idle);
    SmallTarget(RateAfter(rate, idle), n, rate, w, headroom);
  }

  lemma ClampsToFloor(t: int, lo: int, hi: int)
    requires t <= 1 <= lo <= hi
    ensures Clamp(t, lo, hi) == lo
  {
  }

  lemma SmallTarget(r: real, n: real, rate: real, w: real, headroom: real)
    requires r >= 0.0 && rate >= 0.0 && headroom >= 0.0 && MIN_W <= w <= MAX_W
    requires n >= 0.0 && r * (3.0 + 2.0 * n) <= 3.0 * rate && 1.5 * rate * MAX_W * headroom <= n
    ensures 0 <= Target(r, w, headroom) <= 1
  {
    SmallEnough(r, n, rate, w, headroom);
    Commute(r, w);
  }

  lemma Commute(a: real, b: real)
    ensures a * b == b * a
  {
  }

  lemma EnoughIsEnough(rate: real, headroom: real, n: int)
    requires n >= EnoughTicks(rate, headroom)
    ensures 1.5 * rate * MAX_W * headroom <= n as real
  {
  }

  /** What happens to a limiter while nothing arrives: permits are taken and dropped, and the control loop passes. */
  datatype Event = Take | Drop | IdleTick(mean: Option<real>)

  function IdleTicks(events: seq<Event>): nat {
    if events == [] then 0
    else IdleTicks(events[..|events| - 1]) + (if events[|events| - 1].IdleTick? then 1 else 0)
  }

  /** Scaling down: whatever permits are taken and dropped meanwhile, the last of enough ticks without arrivals leaves
      the limiter at the floor, or at what is still held if that is more. */
  method IdleDown(scaler: Autoscaler, events: seq<Event>) returns (size: nat)
    requires scaler.Valid() && Sane(scaler.cfg)
    requires events != [] && events[|events| - 1].IdleTick?
    requires IdleTicks(events) >= EnoughTicks(scaler.rate, scaler.cfg.headroom)
    modifies scaler`rate, scaler.conc`available, scaler.conc`current, scaler.conc`held
    ensures scaler.Valid() && size == scaler.conc.current
    ensures AtFloor(scaler.cfg, scaler.conc.max, scaler.conc.held, size)
  {
    size := scaler.conc.current;
    ghost var rate0 := scaler.rate;
    ghost var idle: seq<nat> := [];
    for i := 0 to |events|
      invariant scaler.Valid() && |idle| == IdleTicks(events[..i]) && (forall j :: 0 <= j < |idle| ==> idle[j] == 0)
      invariant scaler.rate == RateAfter(rate0, idle)
      invariant i == |events| ==> size == scaler.conc.current && AtFloor(scaler.cfg, scaler.conc.max, scaler.conc.held, size)
    {
      assert events[..i + 1][..i] == events[..i];
      match events[i] {
        case Take =>
          var got := scaler.conc.Acquire();
        case Drop =>
          if scaler.conc.held > 0 { scaler.conc.Release(); }
        case IdleTick(mean) =>
          size := scaler.Tick(0, mean);
          assert (idle + [0])[..|idle|] == idle;
          idle := idle + [0];
          if i + 1 == |events| {
            assert events[..i + 1] == events;
            IdleReachesFloor(scaler.cfg, rate0, idle, mean);
          }
      }
    }
  }

  predicate AtFloor(cfg: Config, max: nat, held: nat, size: nat) {
    var floor := Clamp(cfg.floor, 1, max);
    size == if held > floor then held else floor
  }
}
