/**
 * The hosted service `PeriodicCleanup`: `StartAsync` installs the timer,
 * and each tick runs `Cleanup` over the store. The timer's scheduling and
 * disposal are not modelled; `Cleanup` takes its two clock readings and
 * the local offset from UTC as parameters.
 */
module PeriodicCleanupService {
  import opened Wrappers
  import opened Ticks
  import opened Store
  import opened Retention

  /** The counting loop over one owner's snapshots (only counted snapshots increment a counter). */
  method CountSnapshots(snaps: seq<Snapshot>, maxAge: int, now: int, zone: int -> int) returns (partialSs: nat, fullSs: nat)
    ensures partialSs == CountLive(snaps, Partial, now, zone, maxAge)
    ensures fullSs == CountLive(snaps, Full, now, zone, maxAge)
  {
    partialSs, fullSs := 0, 0;
    for j := 0 to |snaps|
      invariant partialSs == CountLive(snaps[..j], Partial, now, zone, maxAge)
      invariant fullSs == CountLive(snaps[..j], Full, now, zone, maxAge)
    {
      var snapshot := snaps[j];
      if GetAge(now, LocalTicks(snapshot.timestamp, zone)) > maxAge {
        // `toRemove.Append(snapshot)` builds a new sequence that is discarded
      } else {
        match snapshot.kind
        case Unknown =>
          // likewise discarded
        case Full =>
          fullSs := fullSs + 1;
        case Partial =>
          partialSs := partialSs + 1;
      }
      assert snaps[..j + 1][..j] == snaps[..j];
    }
    assert snaps[..|snaps|] == snaps;
  }

  /**
   * The two cap checks of the owner loop: each exceeded cap queues the
   * earliest `count - max` (32-bit) of all the owner's snapshots.
   */
  method OwnerQueue(snaps: seq<Snapshot>, lim: Limits, now: int, zone: int -> int) returns (victims: seq<Snapshot>)
    ensures victims == OwnerVictims(snaps, lim, now, zone)
  {
    var partialSs, fullSs := CountSnapshots(snaps, lim.maxAge, now, zone);
    var byPartial: seq<Snapshot> := [];
    var byFull: seq<Snapshot> := [];
    if partialSs > lim.maxPartial {
      var n := Wrap32(partialSs - lim.maxPartial);
      assert n == TakeCount(partialSs, lim.maxPartial);
      byPartial := Oldest(snaps, n);
    }
    if fullSs > lim.maxFull {
      var n := Wrap32(fullSs - lim.maxFull);
      assert n == TakeCount(fullSs, lim.maxFull);
      byFull := Oldest(snaps, n);
    }
    victims := byPartial + byFull;
    OwnerVictimsByCounts(snaps, lim, now, zone, partialSs, fullSs, byPartial, byFull);
  }

  class PeriodicCleanup {
    /** `TheTimer`: `NoTimer` stands for `null`. */
    var timer: TimerPlan
    const storage: CalendarStore

    constructor (storage: CalendarStore)
      ensures this.storage == storage && timer == NoTimer
    {
      this.storage := storage;
      timer := NoTimer;
    }

    /**
     * `StartAsync`: a negative interval leaves the timer unset; otherwise
     * the clamp and the `Timer` constructor either throw (`threw`) or the
     * timer is installed with the interval as due time and period.
     */
    method StartAsync(cfg: Config) returns (threw: bool)
      modifies this
      ensures threw <==> TimerPeriod(cfg.cleanupInterval) == StartThrew
      ensures timer == if TimerPeriod(cfg.cleanupInterval).Periodic? then TimerPeriod(cfg.cleanupInterval) else old(timer)
    {
      var cleanupInterval := cfg.cleanupInterval.GetOr(3600);
      if cleanupInterval >= 0 {
        if 60 > cleanupInterval {
          return true;        // Math.Clamp: its minimum exceeds its maximum
        }
        // Math.Clamp(cleanupInterval, 60, cleanupInterval) is cleanupInterval itself
        if cleanupInterval * 1000 > MaxTimerMs {
          return true;        // the Timer constructor refuses the period
        }
        timer := Periodic(cleanupInterval * 1000);
      }
      return false;
    }

    /**
     * `Cleanup`: queue each owner's cap victims, remove them, then prune
     * stale owners when `DeleteEmptyOwners` is not false. `now` is the
     * first clock reading, `cutoffNow` the second.
     */
    method Cleanup(cfg: Config, now: int, cutoffNow: int, zone: int -> int)
      requires Valid(storage.State())
      modifies storage
      ensures storage.State() == Sweep(old(storage.State()), cfg, now, cutoffNow, zone)
      ensures Valid(storage.State())
    {
      var maxPartialSs := cfg.maxPartialSnapshots.GetOr(10);
      var maxFullSs := cfg.maxPartialSnapshots.GetOr(1);
      var maxAge := cfg.maxSnapshotAge.GetOr(86400);
      var lim := Limits(maxPartialSs, maxFullSs, maxAge);
      ghost var s := storage.State();

      var toRemove := QueueVictims(lim, now, zone);
      if |toRemove| > 0 {
        storage.RemoveSnapshots(IdsOf(toRemove));
      }
      assert storage.State() == AfterCaps(s, lim, now, zone);

      if cfg.deleteEmptyOwners.GetOr(true) {
        PruneOwners(cutoffNow, zone);
      }
    }

    /** The owner loop of `Cleanup`: every owner's cap victims, in table order. */
    method QueueVictims(lim: Limits, now: int, zone: int -> int) returns (toRemove: seq<Snapshot>)
      ensures toRemove == Queue(storage.owners, CapVictims(storage.State(), lim, now, zone))
    {
      ghost var victimsOf := CapVictims(storage.State(), lim, now, zone);
      toRemove := [];
      var owners := storage.owners;
      var snapshots := storage.snapshots;
      for i := 0 to |owners|
        invariant toRemove == Queue(owners[..i], victimsOf)
      {
        var owner := owners[i];
        var snaps := SnapshotsOf(snapshots, owner.id);
        var victims := OwnerQueue(snaps, lim, now, zone);
        toRemove := toRemove + victims;
        assert victimsOf(owner.id) == victims;
        QueueStep(owners, i, victimsOf);
      }
      assert owners[..|owners|] == owners;
    }

    /** The pruning loop of `Cleanup`: mark every stale owner, then delete the marked ones. */
    method PruneOwners(cutoffNow: int, zone: int -> int)
      requires Valid(storage.State())
      modifies storage
      ensures storage.State() == AfterPruning(old(storage.State()), true, cutoffNow, zone)
      ensures Valid(storage.State())
    {
      var doomed := StaleOwners(cutoffNow, zone);
      if doomed != {} {
        storage.RemoveOwners(doomed);
      }
    }

    /** The marking loop of the pruning step: the ids of the stale owners. */
    method StaleOwners(cutoffNow: int, zone: int -> int) returns (doomed: set<nat>)
      ensures doomed == StaleOwnerIds(storage.State(), storage.owners, cutoffNow, zone)
    {
      ghost var st := storage.State();
      var cutoff := cutoffNow - PruneAfter;
      doomed := {};
      var remaining := storage.owners;
      var snapshots := storage.snapshots;
      for j := 0 to |remaining|
        invariant doomed == StaleOwnerIds(st, remaining[..j], cutoffNow, zone)
      {
        var owner := remaining[j];
        if SnapshotsOf(snapshots, owner.id) == [] && LocalTicks(owner.lastSeen, zone) <= cutoff {
          doomed := doomed + {owner.id};
        }
        StaleOwnerIdsStep(st, remaining, j, cutoffNow, zone);
      }
      assert remaining[..|remaining|] == remaining;
    }
  }

  lemma OwnerVictimsByCounts(snaps: seq<Snapshot>, lim: Limits, now: int, zone: int -> int, partialSs: nat, fullSs: nat,
                             byPartial: seq<Snapshot>, byFull: seq<Snapshot>)
    requires partialSs == CountLive(snaps, Partial, now, zone, lim.maxAge)
    requires fullSs == CountLive(snaps, Full, now, zone, lim.maxAge)
    requires byPartial == if partialSs > lim.maxPartial then Oldest(snaps, TakeCount(partialSs, lim.maxPartial)) else []
    requires byFull == if fullSs > lim.maxFull then Oldest(snaps, TakeCount(fullSs, lim.maxFull)) else []
    ensures OwnerVictims(snaps, lim, now, zone) == byPartial + byFull
  {
  }

  lemma QueueStep(owners: seq<Owner>, i: nat, victimsOf: nat -> seq<Snapshot>)
    requires i < |owners|
    ensures Queue(owners[..i + 1], victimsOf) == Queue(owners[..i], victimsOf) + victimsOf(owners[i].id)
  {
    assert owners[..i + 1][..i] == owners[..i];
  }

  lemma StaleOwnerIdsStep(s: StoreState, owners: seq<Owner>, j: nat, cutoffNow: int, zone: int -> int)
    requires j < |owners|
    ensures StaleOwnerIds(s, owners[..j + 1], cutoffNow, zone) ==
      StaleOwnerIds(s, owners[..j], cutoffNow, zone) + (if Stale(s, owners[j], cutoffNow, zone) then {owners[j].id} else {})
  {
    assert owners[..j + 1] == owners[..j] + [owners[j]];
  }
}
