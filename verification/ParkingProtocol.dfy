// The work item and the `enabled` parameter run concurrently. Here both are cut into
// their atomic steps, and every interleaving is considered.
module ParkingProtocol {
  import opened ParkingModel
  import opened ParkingRuns

  /** Where the running work item is, if it runs. */
  datatype Work =
    | Idle
    | Entered                    // running, `enabled` not read yet
    | Waking(next: nat)          // read false: waking parked CPUs from `next` up
    | Sampling                   // read true
    | Rescheduling               // adjusted, about to schedule itself
    | Leaving                    // scheduled, about to return

  /** Where the writer of `enabled` is; writers exclude each other. */
  datatype Toggle =
    | Quiet
    | Read(was: bool)            // remembered the old value
    | Written(was: bool)         // stored the new value
    | Enabling                   // off to on: snapshot, then schedule

  datatype World = World(enabled: bool, pending: bool, work: Work, toggle: Toggle, cpus: State)

  datatype Step =
    | Begin | ReadEnabled | WakeOne(fails: bool) | WakeDone
    | Adjust(cfg: Config, average: nat, onlineParkable: nat, failing: nat -> bool) | Reschedule | Leave
    | StartToggle | BadValue | Write(value: bool) | CheckEdge | Schedule

  /** Whether a step can happen; a queued item only begins when no execution is running. */
  predicate Enabled(w: World, s: Step, count: nat) {
    match s
    case Begin => w.pending && w.work == Idle
    case ReadEnabled => w.work == Entered
    case WakeOne(_) => w.work.Waking? && w.work.next < count
    case WakeDone => w.work.Waking? && w.work.next == count
    case Adjust(_, _, _, _) => w.work == Sampling
    case Reschedule => w.work == Rescheduling
    case Leave => w.work == Leaving
    case StartToggle => w.toggle == Quiet
    case BadValue => w.toggle.Read?
    case Write(_) => w.toggle.Read?
    case CheckEdge => w.toggle.Written?
    case Schedule => w.toggle == Enabling
  }

  /** The effect of a step. Waking and parking a CPU may fail. */
  function After(w: World, s: Step): World {
    match s
    case Begin => w.(pending := false, work := Entered)
    case ReadEnabled => w.(work := if w.enabled then Sampling else Waking(0))
    case WakeOne(fails) =>
      if !w.work.Waking? then w
      else
        var cpu := w.work.next;
        w.(cpus := if cpu in w.cpus.parked then Unpark(w.cpus, cpu, fails) else w.cpus, work := Waking(cpu + 1))
    case WakeDone => w.(work := Idle)
    case Adjust(cfg, average, onlineParkable, fails) =>
      w.(cpus := Apply(w.cpus, Decide(w.cpus, cfg, average, onlineParkable), fails), work := Rescheduling)
    case Reschedule => w.(pending := true, work := Leaving)
    case Leave => w.(work := Idle)
    case StartToggle => w.(toggle := Read(w.enabled))
    case BadValue => w.(toggle := Quiet)
    case Write(value) => if w.toggle.Read? then w.(enabled := value, toggle := Written(w.toggle.was)) else w
    case CheckEdge =>
      if w.toggle.Written? && !w.toggle.was && w.enabled then w.(toggle := Enabling) else w.(toggle := Quiet)
    case Schedule => w.(pending := true, toggle := Quiet)
  }

  /** The module as loaded: enabled and scheduled, nothing parked. */
  function Loaded(initial: set<nat>): World {
    World(true, true, Idle, Quiet, State(initial, {}))
  }

  ghost predicate Trace(w: World, steps: seq<Step>, count: nat)
    decreases |steps|
  {
    steps == [] || (Enabled(w, steps[0], count) && Trace(After(w, steps[0]), steps[1..], count))
  }

  function End(w: World, steps: seq<Step>): World
    decreases |steps|
  {
    if steps == [] then w else End(After(w, steps[0]), steps[1..])
  }

  /** The writer stored an off-to-on change and has not scheduled the work yet. */
  predicate Rising(t: Toggle) {
    t == Written(false) || t == Enabling
  }

  /** Whatever fails: no CPU is lost, and an enabled controller has work pending or running. */
  ghost predicate Invariant(w: World, initial: set<nat>, count: nat) {
    && Partition(w.cpus, initial)
    && (w.toggle.Read? ==> w.toggle.was == w.enabled)
    && (w.toggle == Enabling ==> w.enabled)
    && (w.work == Leaving ==> w.pending)
    && (w.work.Waking? ==> w.work.next <= count)
    && (w.enabled && !Rising(w.toggle) ==> w.pending || w.work in {Entered, Sampling, Rescheduling})
  }

  /** The parked CPUs that nothing is going to wake: those a disabled controller has passed, or all when idle. */
  function Stuck(w: World): set<nat> {
    if w.work.Waking? then set c | c in w.cpus.parked && c < w.work.next
    else if w.work == Idle && !w.pending then w.cpus.parked
    else {}
  }

  /** The CPU whose wake-up fails in this step, if one does. */
  function Failed(w: World, s: Step): set<nat> {
    if s.WakeOne? && s.fails && w.work.Waking? then {w.work.next} else {}
  }

  lemma StepKeepsInvariant(w: World, s: Step, initial: set<nat>, count: nat)
    requires Invariant(w, initial, count) && Enabled(w, s, count)
    ensures Invariant(After(w, s), initial, count)
  {
    var v := After(w, s);
    match s
    case WakeOne(_) =>
      assert v.cpus.online + v.cpus.parked == initial;
    case Adjust(cfg, average, onlineParkable, failing) =>
      NextPartition(w.cpus, Event.Tick(cfg, average, onlineParkable, failing), count, initial);
    case _ =>
  }

  /** A step leaves a CPU stuck only if its wake-up fails. */
  lemma StepStuck(w: World, s: Step, initial: set<nat>, count: nat)
    requires Invariant(w, initial, count) && Enabled(w, s, count) && forall c :: c in initial ==> c < count
    ensures Stuck(After(w, s)) <= Stuck(w) + Failed(w, s)
  {
    assert forall c :: c in w.cpus.parked ==> c in initial;
  }

  /** The CPUs whose wake-up failed at some step. */
  function AllFailed(w: World, steps: seq<Step>): set<nat>
    decreases |steps|
  {
    if steps == [] then {} else Failed(w, steps[0]) + AllFailed(After(w, steps[0]), steps[1..])
  }

  lemma {:induction false} TraceKeepsInvariant(w: World, steps: seq<Step>, initial: set<nat>, count: nat)
    requires Invariant(w, initial, count) && Trace(w, steps, count)
    ensures Invariant(End(w, steps), initial, count)
    decreases |steps|
  {
    if steps != [] {
      StepKeepsInvariant(w, steps[0], initial, count);
      TraceKeepsInvariant(After(w, steps[0]), steps[1..], initial, count);
    }
  }

  lemma {:induction false} TraceStuck(w: World, steps: seq<Step>, initial: set<nat>, count: nat)
    requires Invariant(w, initial, count) && Trace(w, steps, count) && forall c :: c in initial ==> c < count
    ensures Stuck(End(w, steps)) <= Stuck(w) + AllFailed(w, steps)
    decreases |steps|
  {
    if steps != [] {
      StepKeepsInvariant(w, steps[0], initial, count);
      StepStuck(w, steps[0], initial, count);
      TraceStuck(After(w, steps[0]), steps[1..], initial, count);
    }
  }

  /** In every interleaving, with any hotplug failures: outside a write of `enabled`, an enabled controller has
      work pending or running, and no CPU is lost. */
  lemma {:induction false} NeverStuck(initial: set<nat>, steps: seq<Step>, count: nat)
    requires Trace(Loaded(initial), steps, count)
    ensures var w := End(Loaded(initial), steps);
      && (w.enabled && w.toggle == Quiet ==> w.pending || w.work != Idle)
      && w.cpus.online !! w.cpus.parked && w.cpus.online + w.cpus.parked == initial
  {
    TraceKeepsInvariant(Loaded(initial), steps, initial, count);
  }

  /** When nothing is pending or running, a CPU is parked only if a wake-up of it failed. */
  lemma {:induction false} OnlyFailuresStayParked(initial: set<nat>, steps: seq<Step>, count: nat)
    requires Trace(Loaded(initial), steps, count) && forall c :: c in initial ==> c < count
    ensures var w := End(Loaded(initial), steps);
      !w.pending && w.work == Idle ==>
        w.cpus.parked <= AllFailed(Loaded(initial), steps)
        && (AllFailed(Loaded(initial), steps) == {} ==> w.cpus == State(initial, {}))
  {
    var w := End(Loaded(initial), steps);
    TraceKeepsInvariant(Loaded(initial), steps, initial, count);
    TraceStuck(Loaded(initial), steps, initial, count);
    if !w.pending && w.work == Idle && AllFailed(Loaded(initial), steps) == {} {
      assert w.cpus.parked == {};
      assert w.cpus.online == initial;
    }
  }

  /** Unloading after any interleaving, when its own wake-ups succeed, brings back every CPU online at load. */
  lemma {:induction false} UnloadRestores(initial: set<nat>, steps: seq<Step>, count: nat)
    requires Trace(Loaded(initial), steps, count) && forall c :: c in initial ==> c < count
    ensures UnparkFrom(End(Loaded(initial), steps).cpus, 0, count, c => false) == State(initial, {})
  {
    TraceKeepsInvariant(Loaded(initial), steps, initial, count);
    assert forall c :: c in End(Loaded(initial), steps).cpus.parked ==> c in initial;
    UnparkFromAll(End(Loaded(initial), steps).cpus, 0, count, c => false, initial);
  }
}
