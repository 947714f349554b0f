/**
 * The retention policy `PeriodicCleanup` evidently means to apply, next
 * to the one it applies. Per owner: every expired or `Unknown` snapshot
 * is removed; of the live snapshots of each type only the newest `max`
 * are kept; the full-snapshot cap has its own setting; ages are taken in
 * UTC. The lemmas at the end exhibit inputs on which the code as written
 * (`Retention.OwnerVictims`, `Retention.CleanupLimits`) does otherwise.
 */
module RetentionIntended {
  import opened Wrappers
  import opened Ticks
  import opened Collections
  import opened Store
  import opened Retention

  /** The limits with the full-snapshot cap read from its own setting. */
  function CleanupLimitsIntended(cfg: Config): (l: Limits)
    ensures l.maxPartial == CleanupLimits(cfg).maxPartial && l.maxAge == CleanupLimits(cfg).maxAge
  {
    Limits(
      cfg.maxPartialSnapshots.GetOr(10),
      cfg.maxFullSnapshots.GetOr(1),
      cfg.maxSnapshotAge.GetOr(86400))
  }

  /**
   * With both settings present and different, the source's full cap is the
   * partial setting while the intended one is the full setting.
   */
  lemma FullCapSettingIgnored(cfg: Config)
    requires cfg.maxPartialSnapshots.Some? && cfg.maxFullSnapshots.Some?
    requires cfg.maxPartialSnapshots.value != cfg.maxFullSnapshots.value
    ensures CleanupLimits(cfg).maxFull == cfg.maxPartialSnapshots.value
    ensures CleanupLimitsIntended(cfg).maxFull == cfg.maxFullSnapshots.value
    ensures CleanupLimits(cfg) != CleanupLimitsIntended(cfg)
  {
  }

  // ------------------------------------------------------ what remains

  /** What `OrderBy(...).Skip(k)` leaves: `s` without its `k` earliest snapshots. */
  function Remaining(s: seq<Snapshot>, k: int): (r: seq<Snapshot>)
    ensures |r| == if k <= 0 then |s| else |s| - Min(k, |s|)
    decreases |s|
  {
    if k <= 0 || s == [] then s
    else Remaining(RemoveAt(s, MinIndex(s)), k - 1)
  }

  /** Position `m`'s element is not among the others (keys are unique). */
  lemma RemoveAtDrops(s: seq<Snapshot>, m: nat)
    requires m < |s| && Injective(s, SnapshotTimestamp)
    ensures s[m] !in RemoveAt(s, m)
  {
    var rest := RemoveAt(s, m);
    forall i | 0 <= i < |rest| ensures rest[i].timestamp != s[m].timestamp {
      if i < m {
        assert rest[i] == s[i];
      } else {
        assert rest[i] == s[i + 1];
      }
    }
  }

  /**
   * Under unique timestamps `Oldest(s, k)` and `Remaining(s, k)` split `s`:
   * each element of `s` is in exactly one of them, and nothing else is.
   */
  lemma OldestRemainingSplit(s: seq<Snapshot>, k: int, x: Snapshot)
    requires Injective(s, SnapshotTimestamp)
    ensures x in s <==> x in Oldest(s, k) || x in Remaining(s, k)
    ensures !(x in Oldest(s, k) && x in Remaining(s, k))
  {
    OldestRemainingCover(s, k, x);
    OldestRemainingDisjoint(s, k, x);
  }

  /** What is taken and what is left together hold exactly the elements of `s`. */
  lemma {:induction false} OldestRemainingCover(s: seq<Snapshot>, k: int, x: Snapshot)
    ensures x in s <==> x in Oldest(s, k) || x in Remaining(s, k)
    decreases |s|
  {
    if k > 0 && s != [] {
      var m := MinIndex(s);
      var rest := RemoveAt(s, m);
      assert Oldest(s, k) == [s[m]] + Oldest(rest, k - 1);
      assert Remaining(s, k) == Remaining(rest, k - 1);
      OldestRemainingCover(rest, k - 1, x);
      RemoveAtMembers(s, m, x);
    }
  }

  /** Under unique timestamps nothing is both taken and left. */
  lemma {:induction false} OldestRemainingDisjoint(s: seq<Snapshot>, k: int, x: Snapshot)
    requires Injective(s, SnapshotTimestamp)
    ensures !(x in Oldest(s, k) && x in Remaining(s, k))
    decreases |s|
  {
    if k > 0 && s != [] {
      var m := MinIndex(s);
      var rest := RemoveAt(s, m);
      var taken := Oldest(rest, k - 1);
      assert Oldest(s, k) == [s[m]] + taken;
      InCons(s[m], taken, x);
      if x == s[m] {
        RemoveAtDrops(s, m);
        FirstTakenNotLeft(s, k);
      } else {
        RemoveAtInjective(s, m);
        OldestRemainingDisjoint(rest, k - 1, x);
        assert Remaining(s, k) == Remaining(rest, k - 1);
      }
    } else {
      assert Oldest(s, k) == [];
    }
  }

  /** The earliest snapshot, taken first, is not left behind. */
  lemma FirstTakenNotLeft(s: seq<Snapshot>, k: int)
    requires k > 0 && s != [] && s[MinIndex(s)] !in RemoveAt(s, MinIndex(s))
    ensures s[MinIndex(s)] !in Remaining(s, k)
  {
    var m := MinIndex(s);
    var rest := RemoveAt(s, m);
    assert Remaining(s, k) == Remaining(rest, k - 1);
    OldestRemainingCover(rest, k - 1, s[m]);
  }

  lemma InCons(a: Snapshot, t: seq<Snapshot>, x: Snapshot)
    ensures x in [a] + t <==> x == a || x in t
  {
  }

  // ------------------------------------------------- one owner, intended

  /** Expired (by its UTC age) or of `Unknown` type. */
  predicate Dead(x: Snapshot, now: int, maxAge: int) {
    GetAge(now, x.timestamp) > maxAge || x.kind == Unknown
  }

  /** The owner's live snapshots of `kind`, in table order. */
  function LiveOf(snaps: seq<Snapshot>, kind: SnapshotType, now: int, maxAge: int): (r: seq<Snapshot>)
    ensures forall i :: 0 <= i < |r| ==> r[i] in snaps && r[i].kind == kind && !Dead(r[i], now, maxAge)
    ensures forall i :: 0 <= i < |snaps| && snaps[i].kind == kind && !Dead(snaps[i], now, maxAge) ==> snaps[i] in r
  {
    if snaps == [] then []
    else
      var rest := LiveOf(snaps[1..], kind, now, maxAge);
      if snaps[0].kind == kind && !Dead(snaps[0], now, maxAge) then [snaps[0]] + rest else rest
  }

  /** The owner's dead snapshots, in table order. */
  function DeadOf(snaps: seq<Snapshot>, now: int, maxAge: int): (r: seq<Snapshot>)
    ensures forall i :: 0 <= i < |r| ==> r[i] in snaps && Dead(r[i], now, maxAge)
    ensures forall i :: 0 <= i < |snaps| && Dead(snaps[i], now, maxAge) ==> snaps[i] in r
  {
    if snaps == [] then []
    else
      var rest := DeadOf(snaps[1..], now, maxAge);
      if Dead(snaps[0], now, maxAge) then [snaps[0]] + rest else rest
  }

  /** The earliest of `live` beyond the newest `max`. */
  function Excess(live: seq<Snapshot>, max: int): seq<Snapshot> {
    if |live| > max then Oldest(live, |live| - max) else []
  }

  /** What survives of `live` once the excess is taken. */
  function Kept(live: seq<Snapshot>, max: int): seq<Snapshot> {
    if |live| > max then Remaining(live, |live| - max) else live
  }

  /** The snapshots the intended policy removes from one owner. */
  function IntendedVictims(snaps: seq<Snapshot>, lim: Limits, now: int): seq<Snapshot> {
    DeadOf(snaps, now, lim.maxAge)
    + Excess(LiveOf(snaps, Partial, now, lim.maxAge), lim.maxPartial)
    + Excess(LiveOf(snaps, Full, now, lim.maxAge), lim.maxFull)
  }

  /**
   * A cap keeps exactly the newest `max` live snapshots of its type (all
   * of them when there are fewer), and under unique timestamps a live
   * snapshot of that type survives the cap iff it is among those kept.
   */
  lemma CapKeepsNewest(live: seq<Snapshot>, max: int, x: Snapshot)
    requires max >= 0 && Injective(live, SnapshotTimestamp)
    ensures |Kept(live, max)| == Min(|live|, max)
    ensures x in live ==> (x !in Excess(live, max) <==> x in Kept(live, max))
    ensures x in Kept(live, max) ==> x in live
  {
    if |live| > max {
      OldestRemainingSplit(live, |live| - max, x);
    }
  }

  /** Every dead snapshot of the owner is removed. */
  lemma DeadRemoved(snaps: seq<Snapshot>, lim: Limits, now: int, x: Snapshot)
    requires x in snaps && Dead(x, now, lim.maxAge)
    ensures x in IntendedVictims(snaps, lim, now)
  {
    var i :| 0 <= i < |snaps| && snaps[i] == x;
    assert x in DeadOf(snaps, now, lim.maxAge);
  }

  /** A cap takes only live snapshots of its own type. */
  lemma ExcessIsLive(snaps: seq<Snapshot>, kind: SnapshotType, max: int, now: int, maxAge: int, x: Snapshot)
    requires x in Excess(LiveOf(snaps, kind, now, maxAge), max)
    ensures x in snaps && x.kind == kind && !Dead(x, now, maxAge)
  {
    var live := LiveOf(snaps, kind, now, maxAge);
    assert |live| > max && x in Oldest(live, |live| - max);
    OldestSubset(live, |live| - max, x);
    LiveOfSound(snaps, kind, now, maxAge, x);
  }

  /** A member of `LiveOf` is a live snapshot of the owner of that kind. */
  lemma {:induction false} LiveOfSound(snaps: seq<Snapshot>, kind: SnapshotType, now: int, maxAge: int, x: Snapshot)
    requires x in LiveOf(snaps, kind, now, maxAge)
    ensures x in snaps && x.kind == kind && !Dead(x, now, maxAge)
  {
    if snaps != [] && x != snaps[0] {
      LiveOfSound(snaps[1..], kind, now, maxAge, x);
    }
  }

  /**
   * Only the owner's snapshots are removed, and a live snapshot is removed
   * only by the cap of its OWN type.
   */
  lemma LiveRemovedByOwnCap(snaps: seq<Snapshot>, lim: Limits, now: int, x: Snapshot)
    requires x in IntendedVictims(snaps, lim, now)
    ensures x in snaps
    ensures !Dead(x, now, lim.maxAge) ==>
      x in Excess(LiveOf(snaps, x.kind, now, lim.maxAge), if x.kind == Partial then lim.maxPartial else lim.maxFull)
  {
    var dead := DeadOf(snaps, now, lim.maxAge);
    var byPartial := Excess(LiveOf(snaps, Partial, now, lim.maxAge), lim.maxPartial);
    var byFull := Excess(LiveOf(snaps, Full, now, lim.maxAge), lim.maxFull);
    assert x in dead || x in byPartial || x in byFull;
    if x in dead {
      var i :| 0 <= i < |dead| && dead[i] == x;
    } else if x in byPartial {
      ExcessIsLive(snaps, Partial, lim.maxPartial, now, lim.maxAge, x);
    } else {
      ExcessIsLive(snaps, Full, lim.maxFull, now, lim.maxAge, x);
    }
  }

  // ------------------------------------------------- where they differ

  /**
   * The discarded `Append`: an expired partial snapshot, alone under its
   * owner, is never removed by the code (its owner is within both caps),
   * while the intended policy removes it.
   */
  lemma ExpiredSnapshotKept(x: Snapshot, lim: Limits, now: int)
    requires x.kind == Partial && GetAge(now, x.timestamp) > lim.maxAge
    requires lim.maxPartial >= 0 && lim.maxFull >= 0
    ensures OwnerVictims([x], lim, now, UtcZone) == []
    ensures IntendedVictims([x], lim, now) == [x]
  {
    assert [x][..0] == [];
    assert CountLive([x], Partial, now, UtcZone, lim.maxAge) == 0;
    assert CountLive([x], Full, now, UtcZone, lim.maxAge) == 0;
    assert DeadOf([x], now, lim.maxAge) == [x];
    assert LiveOf([x], Partial, now, lim.maxAge) == [];
    assert LiveOf([x], Full, now, lim.maxAge) == [];
  }

  /**
   * The cap takes from all types: an owner with one full snapshot older
   * than two partial ones, all live, with both caps at 1. The partial
   * count exceeds its cap by one, so the code removes the oldest snapshot
   * overall, the full one, and keeps both partial ones; the intended
   * policy removes the older partial one and keeps the full one.
   */
  lemma CapTakesOtherType(f: Snapshot, p1: Snapshot, p2: Snapshot, now: int, maxAge: int)
    requires f.kind == Full && p1.kind == Partial && p2.kind == Partial
    requires f.timestamp < p1.timestamp < p2.timestamp
    requires GetAge(now, f.timestamp) <= maxAge && GetAge(now, p1.timestamp) <= maxAge && GetAge(now, p2.timestamp) <= maxAge
    ensures OwnerVictims([f, p1, p2], Limits(1, 1, maxAge), now, UtcZone) == [f]
    ensures IntendedVictims([f, p1, p2], Limits(1, 1, maxAge), now) == [p1]
  {
    CapTakesOldestOverall(f, p1, p2, now, maxAge);
    CapTakesOldestOfType(f, p1, p2, now, maxAge);
  }

  lemma CapTakesOldestOverall(f: Snapshot, p1: Snapshot, p2: Snapshot, now: int, maxAge: int)
    requires f.kind == Full && p1.kind == Partial && p2.kind == Partial
    requires f.timestamp < p1.timestamp < p2.timestamp
    requires GetAge(now, f.timestamp) <= maxAge && GetAge(now, p1.timestamp) <= maxAge && GetAge(now, p2.timestamp) <= maxAge
    ensures OwnerVictims([f, p1, p2], Limits(1, 1, maxAge), now, UtcZone) == [f]
  {
    CountsOfThree(f, p1, p2, now, maxAge);
    OldestOfThree(f, p1, p2);
  }

  /** The source's two counters over a full and two partial snapshots, all in date. */
  lemma CountsOfThree(f: Snapshot, p1: Snapshot, p2: Snapshot, now: int, maxAge: int)
    requires f.kind == Full && p1.kind == Partial && p2.kind == Partial
    requires GetAge(now, f.timestamp) <= maxAge && GetAge(now, p1.timestamp) <= maxAge && GetAge(now, p2.timestamp) <= maxAge
    ensures CountLive([f, p1, p2], Partial, now, UtcZone, maxAge) == 2
    ensures CountLive([f, p1, p2], Full, now, UtcZone, maxAge) == 1
  {
    var snaps := [f, p1, p2];
    assert Counted(f, Full, now, UtcZone, maxAge) && !Counted(f, Partial, now, UtcZone, maxAge);
    assert Counted(p1, Partial, now, UtcZone, maxAge) && !Counted(p1, Full, now, UtcZone, maxAge);
    assert Counted(p2, Partial, now, UtcZone, maxAge) && !Counted(p2, Full, now, UtcZone, maxAge);
    assert snaps[..2] == [f, p1] && [f, p1][..1] == [f] && [f][..0] == [];
    assert CountLive([f], Partial, now, UtcZone, maxAge) == 0;
    assert CountLive([f, p1], Partial, now, UtcZone, maxAge) == 1;
    assert CountLive([f], Full, now, UtcZone, maxAge) == 1;
    assert CountLive([f, p1], Full, now, UtcZone, maxAge) == 1;
  }

  /** The earliest of three snapshots with increasing timestamps is the first. */
  lemma OldestOfThree(f: Snapshot, p1: Snapshot, p2: Snapshot)
    requires f.timestamp < p1.timestamp < p2.timestamp
    ensures Oldest([f, p1, p2], 1) == [f]
  {
    var snaps := [f, p1, p2];
    assert snaps[1..] == [p1, p2] && [p1, p2][1..] == [p2];
    assert MinIndex([p1, p2]) == 0;
    assert MinIndex(snaps) == 0;
  }

  lemma CapTakesOldestOfType(f: Snapshot, p1: Snapshot, p2: Snapshot, now: int, maxAge: int)
    requires f.kind == Full && p1.kind == Partial && p2.kind == Partial
    requires p1.timestamp < p2.timestamp
    requires GetAge(now, f.timestamp) <= maxAge && GetAge(now, p1.timestamp) <= maxAge && GetAge(now, p2.timestamp) <= maxAge
    ensures IntendedVictims([f, p1, p2], Limits(1, 1, maxAge), now) == [p1]
  {
    PartsOfThree(f, p1, p2, now, maxAge);
    ExcessOfTwo(p1, p2);
    assert Excess([f], 1) == [];
    assert IntendedVictims([f, p1, p2], Limits(1, 1, maxAge), now) == [] + Excess([p1, p2], 1) + Excess([f], 1);
  }

  /** Capping two snapshots at one takes the earlier. */
  lemma ExcessOfTwo(p1: Snapshot, p2: Snapshot)
    requires p1.timestamp < p2.timestamp
    ensures Excess([p1, p2], 1) == [p1]
  {
    assert [p1, p2][1..] == [p2];
    assert MinIndex([p1, p2]) == 0;
    assert RemoveAt([p1, p2], 0) == [p2];
  }

  /** The intended policy's dead and live lists over a full and two partial snapshots, all in date. */
  lemma PartsOfThree(f: Snapshot, p1: Snapshot, p2: Snapshot, now: int, maxAge: int)
    requires f.kind == Full && p1.kind == Partial && p2.kind == Partial
    requires GetAge(now, f.timestamp) <= maxAge && GetAge(now, p1.timestamp) <= maxAge && GetAge(now, p2.timestamp) <= maxAge
    ensures DeadOf([f, p1, p2], now, maxAge) == []
    ensures LiveOf([f, p1, p2], Partial, now, maxAge) == [p1, p2]
    ensures LiveOf([f, p1, p2], Full, now, maxAge) == [f]
  {
    assert !Dead(f, now, maxAge) && !Dead(p1, now, maxAge) && !Dead(p2, now, maxAge);
    assert [f, p1, p2][1..] == [p1, p2] && [p1, p2][1..] == [p2] && [p2][1..] == [];
    NoneDeadOfTwo(p1, p2, now, maxAge);
    LiveOfTwo(p1, p2, now, maxAge);
  }

  lemma NoneDeadOfTwo(p1: Snapshot, p2: Snapshot, now: int, maxAge: int)
    requires !Dead(p1, now, maxAge) && !Dead(p2, now, maxAge)
    ensures DeadOf([p1, p2], now, maxAge) == []
  {
    assert [p1, p2][1..] == [p2] && [p2][1..] == [];
    assert DeadOf([p2], now, maxAge) == [];
  }

  lemma LiveOfTwo(p1: Snapshot, p2: Snapshot, now: int, maxAge: int)
    requires p1.kind == Partial && p2.kind == Partial
    requires !Dead(p1, now, maxAge) && !Dead(p2, now, maxAge)
    ensures LiveOf([p1, p2], Partial, now, maxAge) == [p1, p2]
    ensures LiveOf([p1, p2], Full, now, maxAge) == []
  {
    assert [p1, p2][1..] == [p2] && [p2][1..] == [];
    assert LiveOf([p2], Partial, now, maxAge) == [p2];
    assert LiveOf([p2], Full, now, maxAge) == [];
  }
}
