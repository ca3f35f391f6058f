// The controller's globals and callbacks. Clock readings, hotplug outcomes and the
// writable parameters of one call are arguments.
module ParkingController {
  import opened ParkingModel

  class Controller {
    const count: nat
    var online: set<nat>
    var parked: set<nat>
    var enabled: bool
    var lastAverage: nat
    const prevIdle: array<u64>
    const prevWall: array<u64>

    ghost predicate Valid()
      reads this
    {
      && prevIdle.Length == prevWall.Length == MAX_CPUS && prevIdle != prevWall
      && forall c :: c in online || c in parked ==> c < count
    }

    /** The previous samples are `pi` and `pw`, except that CPUs that came online since `before` are sampled anew. */
    ghost predicate Resampled(before: set<nat>, pi: seq<u64>, pw: seq<u64>, idle: nat -> u64, wall: nat -> u64)
      reads this, prevIdle, prevWall
      requires Valid() && |pi| == |pw| == MAX_CPUS
    {
      forall c: nat :: c < MAX_CPUS ==>
        && prevIdle[c] == (if c in online && c !in before then idle(c) else pi[c])
        && prevWall[c] == (if c in online && c !in before then wall(c) else pw[c])
    }

    function Cpus(): State
      reads this
    {
      State(online, parked)
    }

    /** The controller as loaded: enabled, nothing parked, and a first sample of every online CPU. */
    constructor (count: nat, online: set<nat>, idle: nat -> u64, wall: nat -> u64)
      requires forall c :: c in online ==> c < count
      ensures Valid() && Cpus() == State(online, {}) && enabled
      ensures fresh(prevIdle) && fresh(prevWall)
      ensures forall c :: c in online && c < MAX_CPUS ==> prevIdle[c] == idle(c) && prevWall[c] == wall(c)
    {
      this.count, this.online, parked, enabled, lastAverage := count, online, {}, true, 0;
      prevIdle, prevWall := new u64[MAX_CPUS](_ => 0), new u64[MAX_CPUS](_ => 0);
      new;
      SnapshotAllOnline(idle, wall);
    }

    method SnapshotCpu(cpu: nat, idle: u64, wall: u64)
      requires Valid()
      modifies prevIdle, prevWall
      ensures cpu >= MAX_CPUS ==> prevIdle[..] == old(prevIdle[..]) && prevWall[..] == old(prevWall[..])
      ensures cpu < MAX_CPUS ==> prevIdle[..] == old(prevIdle[..])[cpu := idle] && prevWall[..] == old(prevWall[..])[cpu := wall]
    {
      if cpu >= MAX_CPUS { return; }
      prevIdle[cpu] := idle;
      prevWall[cpu] := wall;
    }

    method SnapshotAllOnline(idle: nat -> u64, wall: nat -> u64)
      requires Valid()
      modifies prevIdle, prevWall
      ensures forall c: nat :: c < MAX_CPUS ==>
                && prevIdle[c] == (if c in online then idle(c) else old(prevIdle[c]))
                && prevWall[c] == (if c in online then wall(c) else old(prevWall[c]))
    {
      for cpu := 0 to count
        invariant forall c: nat :: c < MAX_CPUS ==>
                    && prevIdle[c] == (if c in online && c < cpu then idle(c) else old(prevIdle[c]))
                    && prevWall[c] == (if c in online && c < cpu then wall(c) else old(prevWall[c]))
      {
        if cpu in online { SnapshotCpu(cpu, idle(cpu), wall(cpu)); }
      }
    }

    method ParkCpu(cpu: nat, fails: bool)
      requires Valid()
      modifies this`online, this`parked
      ensures Valid() && Cpus() == Park(old(Cpus()), cpu, fails)
    {
      if cpu !in online { return; }
      if fails { return; }
      online, parked := online - {cpu}, parked + {cpu};
    }

    method UnparkCpu(cpu: nat, fails: bool, idle: u64, wall: u64)
      requires Valid() && cpu < count
      modifies this`online, this`parked, prevIdle, prevWall
      ensures Valid() && Cpus() == Unpark(old(Cpus()), cpu, fails)
      ensures prevIdle[..] == if cpu < MAX_CPUS && Cpus() != old(Cpus()) then old(prevIdle[..])[cpu := idle] else old(prevIdle[..])
      ensures prevWall[..] == if cpu < MAX_CPUS && Cpus() != old(Cpus()) then old(prevWall[..])[cpu := wall] else old(prevWall[..])
    {
      if cpu in online { return; }
      if fails { return; }
      online, parked := online + {cpu}, parked - {cpu};
      assert cpu in online && cpu !in old(online);
      SnapshotCpu(cpu, idle, wall);
    }

    method UnparkAll(fails: nat -> bool, idle: nat -> u64, wall: nat -> u64)
      requires Valid()
      modifies this`online, this`parked, prevIdle, prevWall
      ensures Valid() && Cpus() == UnparkFrom(old(Cpus()), 0, count, fails)
      ensures Resampled(old(online), old(prevIdle[..]), old(prevWall[..]), idle, wall)
    {
      for cpu := 0 to count
        invariant Valid() && old(online) <= online
        invariant Resampled(old(online), old(prevIdle[..]), old(prevWall[..]), idle, wall)
        invariant UnparkFrom(Cpus(), cpu, count, fails) == UnparkFrom(old(Cpus()), 0, count, fails)
      {
        if cpu in parked { UnparkCpu(cpu, fails(cpu), idle(cpu), wall(cpu)); }
      }
    }

    /** The contribution of one CPU; its previous sample moves forward. */
    method SampleCpu(cpu: nat, idle: u64, wall: u64) returns (util: nat)
      requires Valid() && cpu < MAX_CPUS
      modifies prevIdle, prevWall
      ensures prevIdle[..] == old(prevIdle[..])[cpu := idle] && prevWall[..] == old(prevWall[..])[cpu := wall]
      ensures util == Util(Minus(idle, old(prevIdle[cpu])), Minus(wall, old(prevWall[cpu])))
    {
      var dIdle, dWall := Minus(idle, prevIdle[cpu]), Minus(wall, prevWall[cpu]);
      prevIdle[cpu] := idle;
      prevWall[cpu] := wall;
      util := 0;
      if dWall > 0 && dIdle <= dWall {
        var busy: nat := dWall as int - dIdle as int;
        util := Quotient(Wrap(busy * 100), dWall);
      }
    }

    /** Sample every online CPU below MAX_CPUS and move its previous sample forward. */
    method Sample(parkable: set<nat>, idle: nat -> u64, wall: nat -> u64)
      returns (nrSampled: nat, totalUtil: nat, onlineParkable: nat)
      requires Valid()
      modifies prevIdle, prevWall
      ensures nrSampled == |Sampled(online, idle, count)|
      ensures onlineParkable == |Sampled(online, idle, count) * parkable|
      ensures totalUtil == TotalUtil(online, old(prevIdle[..]), old(prevWall[..]), idle, wall, count) <= 1600
      ensures prevIdle[..] == Moved(old(prevIdle[..]), online, idle, idle, count)
      ensures prevWall[..] == Moved(old(prevWall[..]), online, idle, wall, count)
    {
      ghost var pi, pw := prevIdle[..], prevWall[..];
      nrSampled, totalUtil, onlineParkable := 0, 0, 0;
      for cpu := 0 to count
        invariant nrSampled == CountIn(online, idle, online, cpu)
        invariant onlineParkable == CountIn(online, idle, parkable, cpu)
        invariant totalUtil == TotalUtil(online, pi, pw, idle, wall, cpu)
        invariant prevIdle[..] == Moved(pi, online, idle, idle, cpu)
        invariant prevWall[..] == Moved(pw, online, idle, wall, cpu)
      {
        if cpu in online && cpu < MAX_CPUS && idle(cpu) != NO_SAMPLE {
          MovedAt(pi, online, idle, idle, cpu, cpu);
          MovedAt(pw, online, idle, wall, cpu, cpu);
          var util := SampleCpu(cpu, idle(cpu), wall(cpu));
          totalUtil, nrSampled := totalUtil + util, nrSampled + 1;
          onlineParkable := onlineParkable + if cpu in parkable then 1 else 0;
        }
      }
      CountIs(online, idle, parkable, count);
      CountAll(online, idle, count);
      TotalBound(online, pi, pw, idle, wall, count);
    }

    /** Act on one average: wake the lowest parked CPU or park the highest online one. */
    method Adjust(cfg: Config, average: nat, onlineParkable: nat, fails: nat -> bool, idle: nat -> u64, wall: nat -> u64)
      requires Valid()
      modifies this`online, this`parked, prevIdle, prevWall
      ensures Valid() && Cpus() == Apply(old(Cpus()), Decide(old(Cpus()), cfg, average, onlineParkable), fails)
      ensures Resampled(old(online), old(prevIdle[..]), old(prevWall[..]), idle, wall)
    {
      if average > cfg.busyUp && parked * cfg.parkable != {} {
        var cpu := 0;
        while cpu < MAX_CPUS
          invariant 0 <= cpu <= MAX_CPUS && Valid() && Cpus() == old(Cpus())
          invariant prevIdle[..] == old(prevIdle[..]) && prevWall[..] == old(prevWall[..])
          invariant Lowest(parked * cfg.parkable, 0) == Lowest(parked * cfg.parkable, cpu)
        {
          if cpu in parked && cpu in cfg.parkable {
            UnparkCpu(cpu, fails(cpu), idle(cpu), wall(cpu));
            break;
          }
          cpu := cpu + 1;
        }
      } else if average < cfg.busyDown && onlineParkable > cfg.minOnline {
        var target := MAX_CPUS - 1;
        while target >= 0
          invariant -1 <= target < MAX_CPUS && Valid() && Cpus() == old(Cpus())
          invariant Highest(cfg.parkable * online - parked, MAX_CPUS) == Highest(cfg.parkable * online - parked, target + 1)
        {
          if target in cfg.parkable && target in online && target !in parked {
            ParkCpu(target, fails(target));
            break;
          }
          target := target - 1;
        }
      }
    }

    /** One execution of the work item; `again` says whether it rescheduled itself. */
    method ParkingWork(cfg: Config, idle: nat -> u64, wall: nat -> u64,
                       fails: nat -> bool, later: nat -> u64, laterWall: nat -> u64)
      returns (again: bool)
      requires Valid()
      modifies this`online, this`parked, this`lastAverage, prevIdle, prevWall
      ensures Valid() && again == enabled
      ensures !enabled ==> Cpus() == UnparkFrom(old(Cpus()), 0, count, fails) && lastAverage == old(lastAverage)
      ensures enabled && Sampled(old(online), idle, count) == {} ==> Cpus() == old(Cpus()) && lastAverage == old(lastAverage)
      ensures enabled && Sampled(old(online), idle, count) != {} ==>
                var sampled := Sampled(old(online), idle, count);
                && lastAverage == Quotient(TotalUtil(old(online), old(prevIdle[..]), old(prevWall[..]), idle, wall, count), |sampled|) <= 100
                && Cpus() == Apply(old(Cpus()), Decide(old(Cpus()), cfg, lastAverage, |sampled * cfg.parkable|), fails)
      ensures if !enabled then Resampled(old(online), old(prevIdle[..]), old(prevWall[..]), later, laterWall)
              else Resampled(old(online), Moved(old(prevIdle[..]), old(online), idle, idle, count),
                             Moved(old(prevWall[..]), old(online), idle, wall, count), later, laterWall)
    {
      if !enabled {
        UnparkAll(fails, later, laterWall);
        return false;
      }
      var nrSampled, totalUtil, onlineParkable := Sample(cfg.parkable, idle, wall);
      if nrSampled == 0 { return true; }
      AverageBound(online, old(prevIdle[..]), old(prevWall[..]), idle, wall, count);
      lastAverage := Quotient(totalUtil, nrSampled);
      Adjust(cfg, lastAverage, onlineParkable, fails, later, laterWall);
      return true;
    }
  }
}
