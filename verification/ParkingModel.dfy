// The decisions of the CPU parking controller, on values: which CPUs are online,
// which ones the controller parked, and what one sample says about the load.
module ParkingModel {
  import opened Options

  const MAX_CPUS := 16
  const WIDTH := 0x1_0000_0000_0000_0000
  const NO_SAMPLE: u64 := 0xFFFF_FFFF_FFFF_FFFF

  type u64 = x: nat | x < WIDTH

  // ----- Utilization of one CPU -----

  /** Unsigned 64-bit subtraction, which wraps. */
  function Minus(a: u64, b: u64): u64 {
    if b <= a then a - b else a + WIDTH - b
  }

  function Wrap(x: nat): u64 {
    x % WIDTH
  }

  /** Unsigned division. */
  function Quotient(a: nat, d: nat): (q: nat)
    requires 0 < d
    ensures d * q <= a < d * (q + 1)
  {
    a / d
  }

  /** The percentage one CPU adds to the total, with the product wrapping at 64 bits. */
  function Util(dIdle: u64, dWall: u64): nat {
    if dWall > 0 && dIdle <= dWall then Quotient(Wrap((dWall - dIdle) * 100), dWall) else 0
  }

  lemma Cancel(d: nat, x: int, y: int)
    requires d * x < d * y
    ensures x < y
  {
  }

  lemma QuotientBelow(a: nat, d: nat, bound: nat)
    requires 0 < d && a <= bound * d
    ensures Quotient(a, d) <= bound
  {
    Cancel(d, Quotient(a, d), bound + 1);
  }

  lemma QuotientGap(a: nat, b: nat, d: nat)
    requires 0 < d && a + d <= b
    ensures Quotient(a, d) < Quotient(b, d)
  {
    assert d * (Quotient(a, d) + 1) == d * Quotient(a, d) + d;
    Cancel(d, Quotient(a, d) + 1, Quotient(b, d) + 1);
  }

  /** No pair of samples contributes more than 100, whatever wraps. */
  lemma UtilBound(dIdle: u64, dWall: u64)
    ensures Util(dIdle, dWall) <= 100
  {
    if dWall > 0 && dIdle <= dWall {
      WrapBelow((dWall - dIdle) * 100);
      QuotientBelow(Wrap((dWall - dIdle) * 100), dWall, 100);
    }
  }

  lemma WrapBelow(x: nat)
    ensures Wrap(x) <= x
    ensures x < WIDTH ==> Wrap(x) == x
    ensures x >= WIDTH ==> Wrap(x) + WIDTH <= x
  {
  }

  /** A usable pair of samples gives the true percentage exactly when the product fits in 64 bits. */
  lemma UtilExact(dIdle: u64, dWall: u64)
    requires dIdle <= dWall && 0 < dWall
    ensures Util(dIdle, dWall) == Quotient((dWall - dIdle) * 100, dWall) <==> (dWall - dIdle) * 100 < WIDTH
  {
    var product := (dWall - dIdle) * 100;
    WrapBelow(product);
    if product >= WIDTH { QuotientGap(Wrap(product), product, dWall); }
  }

  /** A CPU that was busy for 2^63 microseconds contributes nothing: the product wraps to zero. */
  lemma UtilCanWrap()
    ensures Util(0, 0x8000_0000_0000_0000) == 0 && Quotient(0x8000_0000_0000_0000 * 100, 0x8000_0000_0000_0000) == 100
  {
    assert Wrap(0x8000_0000_0000_0000 * 100) == 0;
  }

  // ----- Sampling -----

  predicate Samples(online: set<nat>, idle: nat -> u64, c: nat) {
    c < MAX_CPUS && c in online && idle(c) != NO_SAMPLE
  }

  /** The CPUs below `n` that one tick samples. */
  function Sampled(online: set<nat>, idle: nat -> u64, n: nat): set<nat> {
    if n == 0 then {}
    else if Samples(online, idle, n - 1) then Sampled(online, idle, n - 1) + {n - 1}
    else Sampled(online, idle, n - 1)
  }

  lemma {:induction false} SampledIs(online: set<nat>, idle: nat -> u64, n: nat)
    ensures forall c :: c in Sampled(online, idle, n) <==> 0 <= c < n && Samples(online, idle, c)
    ensures |Sampled(online, idle, n)| <= n && (n > MAX_CPUS ==> |Sampled(online, idle, n)| <= MAX_CPUS)
  {
    if n > 0 { SampledIs(online, idle, n - 1); }
  }

  lemma SampledStep(online: set<nat>, idle: nat -> u64, n: nat, mask: set<nat>)
    requires Samples(online, idle, n)
    ensures var a, b := Sampled(online, idle, n + 1), Sampled(online, idle, n);
      |a| == |b| + 1 && |a * mask| == |b * mask| + if n in mask then 1 else 0
  {
    SampledIs(online, idle, n);
    var a, b := Sampled(online, idle, n + 1), Sampled(online, idle, n);
    assert a * mask == b * mask + if n in mask then {n} else {};
  }

  /** How many sampled CPUs below `n` are in `mask`, as the sampling loop counts them. */
  function CountIn(online: set<nat>, idle: nat -> u64, mask: set<nat>, n: nat): nat {
    if n == 0 then 0
    else CountIn(online, idle, mask, n - 1) + if Samples(online, idle, n - 1) && n - 1 in mask then 1 else 0
  }

  lemma {:induction false} CountIs(online: set<nat>, idle: nat -> u64, mask: set<nat>, n: nat)
    ensures CountIn(online, idle, mask, n) == |Sampled(online, idle, n) * mask|
  {
    if n > 0 {
      CountIs(online, idle, mask, n - 1);
      if Samples(online, idle, n - 1) { SampledStep(online, idle, n - 1, mask); }
    }
  }

  lemma {:induction false} CountAll(online: set<nat>, idle: nat -> u64, n: nat)
    ensures CountIn(online, idle, online, n) == |Sampled(online, idle, n)|
  {
    CountIs(online, idle, online, n);
    SampledIs(online, idle, n);
    assert Sampled(online, idle, n) * online == Sampled(online, idle, n);
  }

  /** The sum of the contributions of the sampled CPUs below `n`. */
  function TotalUtil(online: set<nat>, pi: seq<u64>, pw: seq<u64>, idle: nat -> u64, wall: nat -> u64, n: nat): nat
    requires |pi| == |pw| == MAX_CPUS
  {
    if n == 0 then 0
    else
      TotalUtil(online, pi, pw, idle, wall, n - 1)
      + if Samples(online, idle, n - 1) then Util(Minus(idle(n - 1), pi[n - 1]), Minus(wall(n - 1), pw[n - 1])) else 0
  }

  /** Previous samples after a tick: the sampled CPUs below `n` move forward to `value`. */
  function Moved(prev: seq<u64>, online: set<nat>, idle: nat -> u64, value: nat -> u64, n: nat): (r: seq<u64>)
    requires |prev| == MAX_CPUS
    ensures |r| == MAX_CPUS
  {
    if n == 0 then prev
    else
      var r := Moved(prev, online, idle, value, n - 1);
      if Samples(online, idle, n - 1) then r[n - 1 := value(n - 1)] else r
  }

  lemma {:induction false} MovedAt(prev: seq<u64>, online: set<nat>, idle: nat -> u64, value: nat -> u64, n: nat, c: nat)
    requires |prev| == MAX_CPUS && c < MAX_CPUS
    ensures Moved(prev, online, idle, value, n)[c] == if c < n && Samples(online, idle, c) then value(c) else prev[c]
  {
    if n > 0 { MovedAt(prev, online, idle, value, n - 1, c); }
  }

  /** The total stays far below 32 bits. */
  lemma {:induction false} TotalBound(online: set<nat>, pi: seq<u64>, pw: seq<u64>, idle: nat -> u64, wall: nat -> u64, n: nat)
    requires |pi| == |pw| == MAX_CPUS
    ensures TotalUtil(online, pi, pw, idle, wall, n) <= 100 * |Sampled(online, idle, n)| <= 1600
  {
    SampledIs(online, idle, n);
    if n > 0 {
      TotalBound(online, pi, pw, idle, wall, n - 1);
      if Samples(online, idle, n - 1) {
        SampledStep(online, idle, n - 1, {});
        UtilBound(Minus(idle(n - 1), pi[n - 1]), Minus(wall(n - 1), pw[n - 1]));
      }
    }
  }

  lemma {:induction false} AverageBound(online: set<nat>, pi: seq<u64>, pw: seq<u64>, idle: nat -> u64, wall: nat -> u64, n: nat)
    requires |pi| == |pw| == MAX_CPUS && Sampled(online, idle, n) != {}
    ensures Quotient(TotalUtil(online, pi, pw, idle, wall, n), |Sampled(online, idle, n)|) <= 100
  {
    TotalBound(online, pi, pw, idle, wall, n);
    QuotientBelow(TotalUtil(online, pi, pw, idle, wall, n), |Sampled(online, idle, n)|, 100);
  }

  // ----- Parking and waking -----

  /** A 32-bit CPU mask is the set of its bits. */
  datatype State = State(online: set<nat>, parked: set<nat>)

  function Park(s: State, cpu: nat, fails: bool): State {
    if cpu in s.online && !fails then State(s.online - {cpu}, s.parked + {cpu}) else s
  }

  function Unpark(s: State, cpu: nat, fails: bool): State {
    if cpu !in s.online && !fails then State(s.online + {cpu}, s.parked - {cpu}) else s
  }

  /** Wake the parked CPUs from `from` up to the last one, in order. */
  function UnparkFrom(s: State, from: nat, count: nat, fails: nat -> bool): State
    requires from <= count
    decreases count - from
  {
    if from == count then s
    else UnparkFrom(if from in s.parked then Unpark(s, from, fails(from)) else s, from + 1, count, fails)
  }

  /** The lowest member of `s` from `k` up, below MAX_CPUS. */
  function Lowest(s: set<nat>, k: nat): Option<nat>
    decreases MAX_CPUS - k
  {
    if k >= MAX_CPUS then None else if k in s then Some(k) else Lowest(s, k + 1)
  }

  /** The highest member of `s` below `k`. */
  function Highest(s: set<nat>, k: nat): Option<nat> {
    if k == 0 then None else if k - 1 in s then Some(k - 1) else Highest(s, k - 1)
  }

  lemma {:induction false} LowestIs(s: set<nat>, k: nat)
    ensures Lowest(s, k).None? ==> forall c :: k <= c < MAX_CPUS ==> c !in s
    ensures Lowest(s, k).Some? ==> k <= Lowest(s, k).value < MAX_CPUS && Lowest(s, k).value in s
    ensures Lowest(s, k).Some? ==> forall c :: k <= c < Lowest(s, k).value ==> c !in s
    decreases MAX_CPUS - k
  {
    if k < MAX_CPUS && k !in s { LowestIs(s, k + 1); }
  }

  lemma {:induction false} HighestIs(s: set<nat>, k: nat)
    ensures Highest(s, k).None? ==> forall c :: 0 <= c < k ==> c !in s
    ensures Highest(s, k).Some? ==> Highest(s, k).value < k && Highest(s, k).value in s
    ensures Highest(s, k).Some? ==> forall c :: Highest(s, k).value < c < k ==> c !in s
  {
    if k > 0 && k - 1 !in s { HighestIs(s, k - 1); }
  }

  datatype Config = Config(busyUp: nat, busyDown: nat, minOnline: nat, parkable: set<nat>)

  /** What one sample makes the controller do. */
  datatype Decision = Stay | Wake(cpu: nat) | Sleep(cpu: nat)

  function Decide(s: State, cfg: Config, average: nat, onlineParkable: nat): Decision {
    if average > cfg.busyUp && s.parked * cfg.parkable != {} then
      match Lowest(s.parked * cfg.parkable, 0) case None => Stay case Some(c) => Wake(c)
    else if average < cfg.busyDown && onlineParkable > cfg.minOnline then
      match Highest(cfg.parkable * s.online - s.parked, MAX_CPUS) case None => Stay case Some(c) => Sleep(c)
    else Stay
  }

  function Apply(s: State, d: Decision, fails: nat -> bool): State {
    match d
    case Stay => s
    case Wake(c) => Unpark(s, c, fails(c))
    case Sleep(c) => Park(s, c, fails(c))
  }
}
