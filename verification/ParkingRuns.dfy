// What the controller keeps over whole runs of ticks and wake-ups, including failing hotplug calls.
module ParkingRuns {
  import opened ParkingModel

  datatype Event =
    | Tick(cfg: Config, average: nat, onlineParkable: nat, fails: nat -> bool)
    | WakeAll(fails: nat -> bool)

  function Next(s: State, e: Event, count: nat): State {
    match e
    case Tick(cfg, average, onlineParkable, fails) => Apply(s, Decide(s, cfg, average, onlineParkable), fails)
    case WakeAll(fails) => UnparkFrom(s, 0, count, fails)
  }

  function Run(s: State, events: seq<Event>, count: nat): State {
    if events == [] then s else Next(Run(s, events[..|events| - 1], count), events[|events| - 1], count)
  }

  /** Every CPU that was online at the start is either online or parked, never both. */
  ghost predicate Partition(s: State, initial: set<nat>) {
    s.online !! s.parked && s.online + s.parked == initial && forall c :: c in s.parked ==> c < MAX_CPUS
  }

  lemma DecideIs(s: State, cfg: Config, average: nat, onlineParkable: nat)
    ensures match Decide(s, cfg, average, onlineParkable)
      case Stay => true
      case Wake(c) =>
        && average > cfg.busyUp && c in s.parked * cfg.parkable && c < MAX_CPUS
        && forall d :: d in s.parked && d in cfg.parkable ==> c <= d
      case Sleep(c) =>
        && average < cfg.busyDown && onlineParkable > cfg.minOnline && c < MAX_CPUS
        && c in s.online && c in cfg.parkable && c !in s.parked
        && forall d :: c < d < MAX_CPUS && d in cfg.parkable && d in s.online ==> d in s.parked
  {
    LowestIs(s.parked * cfg.parkable, 0);
    forall d | d in s.parked && d in cfg.parkable
      ensures d in s.parked * cfg.parkable
    {
    }
    var idle := cfg.parkable * s.online - s.parked;
    HighestIs(idle, MAX_CPUS);
    forall d | d < MAX_CPUS && d in cfg.parkable && d in s.online && d !in s.parked
      ensures d in idle
    {
    }
  }

  lemma {:induction false} UnparkFromPartition(s: State, from: nat, count: nat, fails: nat -> bool, initial: set<nat>)
    requires Partition(s, initial) && from <= count
    ensures Partition(UnparkFrom(s, from, count, fails), initial)
    decreases count - from
  {
    if from < count {
      var next := if from in s.parked then Unpark(s, from, fails(from)) else s;
      assert next.online + next.parked == initial;
      UnparkFromPartition(next, from + 1, count, fails, initial);
    }
  }

  lemma NextPartition(s: State, e: Event, count: nat, initial: set<nat>)
    requires Partition(s, initial)
    ensures Partition(Next(s, e, count), initial)
  {
    match e
    case Tick(cfg, average, onlineParkable, fails) =>
      DecideIs(s, cfg, average, onlineParkable);
      assert Next(s, e, count).online + Next(s, e, count).parked == initial;
    case WakeAll(fails) => UnparkFromPartition(s, 0, count, fails, initial);
  }

  /** Over any run, whatever hotplug calls fail, no CPU is lost or counted twice. */
  lemma {:induction false} RunPartition(initial: set<nat>, events: seq<Event>, count: nat)
    ensures Partition(Run(State(initial, {}), events, count), initial)
  {
    if events != [] {
      RunPartition(initial, events[..|events| - 1], count);
      NextPartition(Run(State(initial, {}), events[..|events| - 1], count), events[|events| - 1], count, initial);
    }
  }

  // ----- The parked set is always the top of the parkable CPUs -----

  /** The CPUs the controller may park. */
  function Candidates(initial: set<nat>, parkable: set<nat>): set<nat> {
    set c | c in initial && c in parkable && c < MAX_CPUS
  }

  ghost predicate UpperSegment(parked: set<nat>, candidates: set<nat>) {
    parked <= candidates && forall c, d :: c in parked && d in candidates && c < d ==> d in parked
  }

  /** After waking the CPUs below `from`, no parked CPU is below it; the rest is still the top. */
  lemma {:induction false} UnparkFromAll(s: State, from: nat, count: nat, fails: nat -> bool, initial: set<nat>)
    requires Partition(s, initial) && from <= count && (forall c :: c in s.parked ==> from <= c < count)
    requires forall c :: !fails(c)
    ensures UnparkFrom(s, from, count, fails) == State(initial, {})
    decreases count - from
  {
    if from == count {
      assert s.parked == {};
    } else {
      var next := if from in s.parked then Unpark(s, from, fails(from)) else s;
      assert next.online + next.parked == initial;
      UnparkFromAll(next, from + 1, count, fails, initial);
    }
  }

  /** Waking the lowest parked CPU, or parking the highest online one, keeps the parked set at the top. */
  lemma TickUpper(s: State, d: Decision, fails: nat -> bool, initial: set<nat>, parkable: set<nat>)
    requires Partition(s, initial) && UpperSegment(s.parked, Candidates(initial, parkable))
    requires d.Wake? ==> d.cpu in s.parked && forall c :: c in s.parked && c in parkable ==> d.cpu <= c
    requires d.Sleep? ==> d.cpu < MAX_CPUS && d.cpu in s.online && d.cpu in parkable
    requires d.Sleep? ==> forall c :: d.cpu < c < MAX_CPUS && c in parkable && c in s.online ==> c in s.parked
    ensures UpperSegment(Apply(s, d, fails).parked, Candidates(initial, parkable))
  {
    var top, t := Candidates(initial, parkable), Apply(s, d, fails);
    forall a, b | a in t.parked && b in top && a < b
      ensures b in t.parked
    {
      assert b in s.online || b in s.parked;
      if d.Sleep? && a == d.cpu { assert b in s.online ==> b in s.parked; }
    }
  }

  /** Waking everything leaves parked exactly the CPUs whose wake-up failed. */
  lemma {:induction false} UnparkFromFails(s: State, from: nat, count: nat, fails: nat -> bool, initial: set<nat>)
    requires Partition(s, initial) && from <= count
    ensures forall c :: c in UnparkFrom(s, from, count, fails).parked <==> c in s.parked && (c < from || c >= count || fails(c))
    decreases count - from
  {
    if from < count {
      var next := if from in s.parked then Unpark(s, from, fails(from)) else s;
      assert next.online + next.parked == initial;
      UnparkFromFails(next, from + 1, count, fails, initial);
    }
  }

  /** Failures go upward: when a parked CPU cannot be woken, no parked CPU above it can. */
  ghost predicate FailsUpward(parked: set<nat>, fails: nat -> bool) {
    forall c, d :: c in parked && d in parked && c < d && fails(c) ==> fails(d)
  }

  /** Waking everything keeps the parked set at the top exactly when failures go upward. */
  lemma {:induction false} WakeAllUpper(s: State, count: nat, fails: nat -> bool, initial: set<nat>, parkable: set<nat>)
    requires Partition(s, initial) && UpperSegment(s.parked, Candidates(initial, parkable)) && forall c :: c in s.parked ==> c < count
    ensures UpperSegment(UnparkFrom(s, 0, count, fails).parked, Candidates(initial, parkable)) <==> FailsUpward(s.parked, fails)
  {
    UnparkFromFails(s, 0, count, fails, initial);
    var after, top := UnparkFrom(s, 0, count, fails).parked, Candidates(initial, parkable);
    assert after <= top;
    if UpperSegment(after, top) {
      forall c, d | c in s.parked && d in s.parked && c < d && fails(c)
        ensures fails(d)
      {
        assert c in after && d in top;
      }
    }
    if FailsUpward(s.parked, fails) {
      forall c, d | c in after && d in top && c < d
        ensures d in after
      {
        assert c in s.parked && d in s.parked;
      }
    }
  }

  /** Ticks use one parkable mask, and wake-ups that fail do so from some CPU upward. */
  ghost predicate Steady(s: State, e: Event, parkable: set<nat>) {
    match e
    case Tick(cfg, _, _, _) => cfg.parkable == parkable
    case WakeAll(fails) => FailsUpward(s.parked, fails)
  }

  ghost predicate SteadyRun(s: State, events: seq<Event>, count: nat, parkable: set<nat>) {
    events == [] || (
      && SteadyRun(s, events[..|events| - 1], count, parkable)
      && Steady(Run(s, events[..|events| - 1], count), events[|events| - 1], parkable))
  }

  lemma {:induction false} NextUpper(s: State, e: Event, count: nat, initial: set<nat>, parkable: set<nat>)
    requires Partition(s, initial) && Steady(s, e, parkable) && (forall c :: c in initial ==> c < count)
    requires UpperSegment(s.parked, Candidates(initial, parkable))
    ensures UpperSegment(Next(s, e, count).parked, Candidates(initial, parkable))
  {
    match e
    case Tick(cfg, average, onlineParkable, fails) =>
      DecideIs(s, cfg, average, onlineParkable);
      TickUpper(s, Decide(s, cfg, average, onlineParkable), fails, initial, parkable);
    case WakeAll(fails) =>
      assert forall c :: c in s.parked ==> c in initial;
      WakeAllUpper(s, count, fails, initial, parkable);
  }

  lemma {:induction false} RunUpper(initial: set<nat>, events: seq<Event>, count: nat, parkable: set<nat>)
    requires SteadyRun(State(initial, {}), events, count, parkable) && forall c :: c in initial ==> c < count
    ensures UpperSegment(Run(State(initial, {}), events, count).parked, Candidates(initial, parkable))
  {
    if events != [] {
      var before, last := events[..|events| - 1], events[|events| - 1];
      RunUpper(initial, before, count, parkable);
      RunPartition(initial, before, count);
      NextUpper(Run(State(initial, {}), before, count), last, count, initial, parkable);
    }
  }

  // ----- A run that leaves a gap -----

  const LOW := Config(75, 30, 0, {5, 6})

  /** Two idle ticks park CPUs 6 and 5; then everything is woken, but CPU 5 does not come back. */
  function GapRun(): seq<Event> {
    [Tick(LOW, 0, 2, c => false), Tick(LOW, 0, 1, c => false), WakeAll((c: nat) => c == 5)]
  }

  lemma IdleTickParks(s: State, onlineParkable: nat, cpu: nat, fails: nat -> bool)
    requires onlineParkable > 0 && !fails(cpu) && cpu in {5, 6} && cpu in s.online && cpu !in s.parked
    requires cpu == 5 ==> 6 in s.parked
    ensures Next(s, Tick(LOW, 0, onlineParkable, fails), 7) == State(s.online - {cpu}, s.parked + {cpu})
  {
    DecideIs(s, LOW, 0, onlineParkable);
    HighestIs({5, 6} * s.online - s.parked, MAX_CPUS);
    assert cpu in {5, 6} * s.online - s.parked;
  }

  /** CPU 5 stays parked under the online CPU 6, in a run that starts with CPUs 0, 5 and 6 online. */
  lemma FailedWakeLeavesGap()
    ensures var s := Run(State({0, 5, 6}, {}), GapRun(), 7);
      s == State({0, 6}, {5}) && !UpperSegment(s.parked, Candidates({0, 5, 6}, {5, 6}))
  {
    var events, never, only := GapRun(), (c: nat) => false, (c: nat) => c == 5;
    assert events[..2] == [Tick(LOW, 0, 2, c => false), Tick(LOW, 0, 1, c => false)] && events[..2][..1] == [Tick(LOW, 0, 2, c => false)];
    var s0 := State({0, 5, 6}, {});
    IdleTickParks(s0, 2, 6, events[0].fails);
    var s1 := State({0, 5}, {6});
    assert Next(s0, events[0], 7) == s1;
    IdleTickParks(s1, 1, 5, events[1].fails);
    var s2 := State({0}, {5, 6});
    assert Next(s1, events[1], 7) == s2;
    GapWake(s2, events[2].fails);
    assert Run(s0, events[..2][..1], 7) == s1 && Run(s0, events[..2], 7) == s2;
    assert 5 in {5} && 6 in Candidates({0, 5, 6}, {5, 6}) && 6 !in {5};
  }

  lemma {:induction false} GapWake(s: State, fails: nat -> bool)
    requires s == State({0}, {5, 6}) && forall c :: fails(c) <==> c == 5
    ensures UnparkFrom(s, 0, 7, fails) == State({0, 6}, {5})
  {
    var initial := {0, 5, 6};
    UnparkFromFails(s, 0, 7, fails, initial);
    UnparkFromPartition(s, 0, 7, fails, initial);
    var after := UnparkFrom(s, 0, 7, fails);
    assert after.parked == {5};
    assert after.online == initial - after.parked;
  }

  // ----- One tick -----

  /** A tick changes at most one CPU. */
  lemma TickChangesOne(s: State, cfg: Config, average: nat, onlineParkable: nat, fails: nat -> bool)
    ensures var t := Apply(s, Decide(s, cfg, average, onlineParkable), fails);
      exists c :: s.online - {c} == t.online - {c} && s.parked - {c} == t.parked - {c}
  {
    var d := Decide(s, cfg, average, onlineParkable);
    var c := match d case Stay => 0 case Wake(c) => c case Sleep(c) => c;
    var t := Apply(s, d, fails);
    assert s.online - {c} == t.online - {c} && s.parked - {c} == t.parked - {c};
  }

  lemma SubsetCount(a: set<nat>, b: set<nat>)
    requires a <= b
    ensures |a| <= |b|
  {
    assert b == a + (b - a);
  }

  /** A tick that parks leaves at least `minOnline` parkable CPUs online. */
  lemma {:induction false} TickKeepsMinimum(s: State, cfg: Config, average: nat, idle: nat -> u64, count: nat, fails: nat -> bool)
    requires var n := |Sampled(s.online, idle, count) * cfg.parkable|; Decide(s, cfg, average, n).Sleep?
    ensures var n := |Sampled(s.online, idle, count) * cfg.parkable|;
      |Apply(s, Decide(s, cfg, average, n), fails).online * cfg.parkable| >= cfg.minOnline
  {
    var n := |Sampled(s.online, idle, count) * cfg.parkable|;
    DecideIs(s, cfg, average, n);
    SampledIs(s.online, idle, count);
    var c := Decide(s, cfg, average, n).cpu;
    var after := Apply(s, Decide(s, cfg, average, n), fails);
    SubsetCount(Sampled(s.online, idle, count) * cfg.parkable, s.online * cfg.parkable);
    SubsetCount(s.online * cfg.parkable - {c}, after.online * cfg.parkable);
  }

  // ----- Sustained load -----

  /** A tick that sees load above `busyUp`, with working hotplug. */
  ghost predicate BusyTick(e: Event, parkable: set<nat>) {
    e.Tick? && e.cfg.parkable == parkable && e.average > e.cfg.busyUp && forall c :: !e.fails(c)
  }

  predicate NotLow(e: Event) {
    e.Tick? && e.average >= e.cfg.busyDown
  }

  lemma BusyTickWakes(s: State, e: Event, count: nat, initial: set<nat>, parkable: set<nat>)
    requires Partition(s, initial) && BusyTick(e, parkable)
    ensures s.parked * parkable == {} && NotLow(e) ==> Next(s, e, count) == s
    ensures s.parked * parkable != {} ==> |Next(s, e, count).parked * parkable| == |s.parked * parkable| - 1
  {
    LowestIs(s.parked * parkable, 0);
    var d := Decide(s, e.cfg, e.average, e.onlineParkable);
    if s.parked * parkable != {} {
      var c :| c in s.parked * parkable;
      assert c < MAX_CPUS;
      assert Next(s, e, count).parked * parkable == s.parked * parkable - {d.cpu};
    }
  }

  /** Under sustained load the number of parked parkable CPUs falls by one per tick, down to zero; there it
      stays while the load is not below `busyDown` either. */
  lemma {:induction false} SustainedLoad(s: State, events: seq<Event>, count: nat, initial: set<nat>, parkable: set<nat>)
    requires Partition(s, initial) && forall e :: e in events ==> BusyTick(e, parkable)
    requires forall i :: |s.parked * parkable| <= i < |events| ==> NotLow(events[i])
    ensures Partition(Run(s, events, count), initial)
    ensures |Run(s, events, count).parked * parkable|
            == if |events| <= |s.parked * parkable| then |s.parked * parkable| - |events| else 0
  {
    if events != [] {
      var before, last := events[..|events| - 1], events[|events| - 1];
      assert last in events && forall e :: e in before ==> e in events;
      SustainedLoad(s, before, count, initial, parkable);
      BusyTickWakes(Run(s, before, count), last, count, initial, parkable);
      NextPartition(Run(s, before, count), last, count, initial);
    }
  }

  /** Above `busyUp` a tick still parks exactly when nothing parkable is parked, the load is below `busyDown`,
      enough parkable CPUs were sampled, and one of them can be parked. */
  lemma ParksUnderLoad(s: State, cfg: Config, average: nat, onlineParkable: nat)
    requires average > cfg.busyUp
    ensures Decide(s, cfg, average, onlineParkable).Sleep? <==>
              && s.parked * cfg.parkable == {} && average < cfg.busyDown && onlineParkable > cfg.minOnline
              && exists c :: c < MAX_CPUS && c in cfg.parkable && c in s.online && c !in s.parked
  {
    LowestIs(s.parked * cfg.parkable, 0);
    var idle := cfg.parkable * s.online - s.parked;
    HighestIs(idle, MAX_CPUS);
    if c :| c < MAX_CPUS && c in cfg.parkable && c in s.online && c !in s.parked {
      assert c in idle;
    }
  }

  /** With `busyDown` above `busyUp`, a tick parks CPU 4 although the load is above `busyUp`. */
  lemma CrossedThresholdsPark()
    ensures var s, cfg := State({0, 4}, {}), Config(30, 75, 0, {4});
      50 > cfg.busyUp && Decide(s, cfg, 50, 1) == Sleep(4) && Next(s, Tick(cfg, 50, 1, c => false), 5) == State({0}, {4})
  {
    var s, cfg := State({0, 4}, {}), Config(30, 75, 0, {4});
    assert s.parked * cfg.parkable == {};
    assert 4 in cfg.parkable && 4 in s.online;
    ParksUnderLoad(s, cfg, 50, 1);
    DecideIs(s, cfg, 50, 1);
  }
}
