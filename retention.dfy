/**
 * The retention policy of `PeriodicCleanup` as the source writes it:
 * the limits it reads, the timer interval, the age of a snapshot, the
 * per-owner counts, the snapshots each owner's caps queue for removal,
 * and the whole sweep over a store value.
 */
module Retention {
  import opened Wrappers
  import opened Ticks
  import opened Collections
  import opened Store

  /** The `EnvConfig` settings involved; `None` when unset or not an integer/boolean. */
  datatype Config = Config(
    cleanupInterval: Option<int>,
    maxPartialSnapshots: Option<int>,
    maxFullSnapshots: Option<int>,
    maxSnapshotAge: Option<int>,
    deleteEmptyOwners: Option<bool>)

  /** The three numbers `Cleanup` works with. */
  datatype Limits = Limits(maxPartial: int, maxFull: int, maxAge: int)

  /**
   * The limits as `Cleanup` reads them. The full-snapshot cap is read from
   * the partial-snapshot setting (only its default, 1, is its own).
   */
  function CleanupLimits(cfg: Config): (l: Limits)
  {
    Limits(
      cfg.maxPartialSnapshots.GetOr(10),
      cfg.maxPartialSnapshots.GetOr(1),
      cfg.maxSnapshotAge.GetOr(86400))
  }

  /** The defaults: ten partial snapshots, one full snapshot, one day. */
  lemma DefaultLimits(cfg: Config)
    requires cfg.maxPartialSnapshots.None? && cfg.maxSnapshotAge.None?
    ensures CleanupLimits(cfg) == Limits(10, 1, 86400)
  {
  }

  /** The full-snapshot cap ignores its own setting: it follows the partial one whenever that is set. */
  lemma MaxFullFollowsPartialSetting(cfg: Config)
    ensures cfg.maxPartialSnapshots.Some? ==> CleanupLimits(cfg).maxFull == CleanupLimits(cfg).maxPartial
    ensures forall v :: CleanupLimits(cfg.(maxFullSnapshots := v)) == CleanupLimits(cfg)
  {
  }

  // ------------------------------------------------------------- the timer

  /** What `StartAsync` does with the timer. */
  datatype TimerPlan = NoTimer | Periodic(periodMs: int) | StartThrew

  /** `Timer`'s largest due time and period, in milliseconds. */
  const MaxTimerMs: int := 4_294_967_294

  /**
   * The interval (default 3600 s) in milliseconds. A negative interval
   * installs no timer. `Math.Clamp(x, 60, x)` throws for `x < 60` (its
   * minimum exceeds its maximum) and returns `x` otherwise; `Timer` throws
   * when the period exceeds `MaxTimerMs`.
   */
  function TimerPeriod(interval: Option<int>): (plan: TimerPlan)
  {
    var x := interval.GetOr(3600);
    if x < 0 then NoTimer
    else if 60 > x then StartThrew
    else if x * 1000 > MaxTimerMs then StartThrew
    else Periodic(x * 1000)
  }

  /**
   * Every interval is refused, unused or kept as is: no timer iff the
   * interval is negative; a timer iff it lies in 60..4294967 seconds, with
   * a period of that many seconds (never under a minute); otherwise the
   * start throws, in particular for every interval from 0 to 59.
   */
  lemma TimerPeriodLaw(interval: Option<int>)
    ensures var x := interval.GetOr(3600);
      && (TimerPeriod(interval) == NoTimer <==> x < 0)
      && (TimerPeriod(interval).Periodic? <==> 60 <= x <= 4_294_967)
      && (TimerPeriod(interval).Periodic? ==> TimerPeriod(interval).periodMs == 1000 * x >= 60_000)
      && (0 <= x < 60 ==> TimerPeriod(interval) == StartThrew)
  {
  }

  /** The intended rule: a non-negative interval below a minute is raised to a minute. */
  function TimerPeriodIntended(interval: Option<int>): (plan: TimerPlan)
  {
    var x := interval.GetOr(3600);
    if x < 0 then NoTimer
    else
      var clamped := if x < 60 then 60 else x;
      if clamped * 1000 > MaxTimerMs then StartThrew else Periodic(clamped * 1000)
  }

  /**
   * The intended rule never throws for a short interval and agrees with
   * the source from 60 seconds up; the two differ exactly on 0..59.
   */
  lemma TimerPeriodIntendedLaw(interval: Option<int>)
    ensures var x := interval.GetOr(3600);
      && (0 <= x < 60 ==> TimerPeriodIntended(interval) == Periodic(60_000))
      && (x < 0 || x >= 60 ==> TimerPeriodIntended(interval) == TimerPeriod(interval))
  {
  }

  // --------------------------------------------------------------- ages

  /**
   * `GetAge`: the difference in whole seconds, truncated toward zero and
   * saturated at the `int` bounds by the `double` to `int` conversion.
   */
  function GetAge(now: int, what: int): (age: int)
    ensures IsInt32(age)
    ensures 0 <= now - what < (Int32Max + 1) * TicksPerSecond ==>
      0 <= age && age * TicksPerSecond <= now - what < (age + 1) * TicksPerSecond
    ensures now - what >= (Int32Max + 1) * TicksPerSecond ==> age == Int32Max
    ensures now - what < 0 ==> age <= 0
  {
    SaturateInt32(DivTrunc(now - what, TicksPerSecond))
  }

  /**
   * `DateTime.Parse` of a stored UTC "O" text: the same instant as local
   * time, `zone(utc)` ticks ahead of UTC, where `zone` gives the offset in
   * force at each instant (so instants on either side of a daylight-saving
   * change are shifted differently). `DateTime` arithmetic and comparison
   * then use the local ticks as they are.
   */
  function LocalTicks(utc: int, zone: int -> int): int {
    utc + zone(utc)
  }

  /** The offset of a host whose local time is UTC all year. */
  function UtcZone(utc: int): int {
    0
  }

  /**
   * `snapshot.TimestampDt` reads the stored UTC text back as local time,
   * while `now` is UTC: the age is taken between those two.
   */
  function SnapshotAge(x: Snapshot, now: int, zone: int -> int): int {
    GetAge(now, LocalTicks(x.timestamp, zone))
  }

  /** Whether the counting loop increments the counter for `kind` on `x`. */
  predicate Counted(x: Snapshot, kind: SnapshotType, now: int, zone: int -> int, maxAge: int) {
    SnapshotAge(x, now, zone) <= maxAge && x.kind == kind
  }

  /** The counter for `kind` after the loop over `snaps`. */
  function CountLive(snaps: seq<Snapshot>, kind: SnapshotType, now: int, zone: int -> int, maxAge: int): (n: nat)
    ensures n <= |snaps|
  {
    if snaps == [] then 0
    else CountLive(snaps[..|snaps| - 1], kind, now, zone, maxAge)
         + (if Counted(snaps[|snaps| - 1], kind, now, zone, maxAge) then 1 else 0)
  }

  /**
   * Wherever a snapshot stands in the owner's list, it adds one to the
   * counter for `kind` when it is in date and of that type, and nothing
   * otherwise: expired, `Unknown` and other-type snapshots never count.
   */
  lemma {:induction false} CountLiveExcludes(a: seq<Snapshot>, x: Snapshot, b: seq<Snapshot>,
                                             kind: SnapshotType, now: int, zone: int -> int, maxAge: int)
    ensures !Counted(x, kind, now, zone, maxAge) ==>
      CountLive(a + [x] + b, kind, now, zone, maxAge) == CountLive(a + b, kind, now, zone, maxAge)
    ensures Counted(x, kind, now, zone, maxAge) ==>
      CountLive(a + [x] + b, kind, now, zone, maxAge) == CountLive(a + b, kind, now, zone, maxAge) + 1
    decreases |b|
  {
    if b == [] {
      assert a + [x] + b == a + [x] && a + b == a;
      CountLiveSnoc(a, x, kind, now, zone, maxAge);
    } else {
      var init, y := b[..|b| - 1], b[|b| - 1];
      CountLiveExcludes(a, x, init, kind, now, zone, maxAge);
      assert a + [x] + b == (a + [x] + init) + [y];
      assert a + b == (a + init) + [y];
      CountLiveSnoc(a + [x] + init, y, kind, now, zone, maxAge);
      CountLiveSnoc(a + init, y, kind, now, zone, maxAge);
    }
  }

  lemma CountLiveSnoc(init: seq<Snapshot>, y: Snapshot, kind: SnapshotType, now: int, zone: int -> int, maxAge: int)
    ensures CountLive(init + [y], kind, now, zone, maxAge)
      == CountLive(init, kind, now, zone, maxAge) + (if Counted(y, kind, now, zone, maxAge) then 1 else 0)
  {
    var s := init + [y];
    assert s[..|s| - 1] == init && s[|s| - 1] == y;
  }

  // ------------------------------------------------------ oldest first

  function Min(a: int, b: int): int { if a <= b then a else b }
  function Max(a: int, b: int): int { if a >= b then a else b }

  /** The first position holding the earliest timestamp (`OrderBy` is stable). */
  function MinIndex(s: seq<Snapshot>): (m: nat)
    requires |s| > 0
    ensures m < |s|
    ensures forall j :: 0 <= j < |s| ==> s[m].timestamp <= s[j].timestamp
  {
    if |s| == 1 then 0
    else
      var m := MinIndex(s[1..]);
      if s[0].timestamp <= s[m + 1].timestamp then 0 else m + 1
  }

  function RemoveAt(s: seq<Snapshot>, i: nat): (r: seq<Snapshot>)
    requires i < |s|
    ensures |r| == |s| - 1
  {
    s[..i] + s[i + 1..]
  }

  /** Removing position `i` keeps exactly the other positions' elements. */
  lemma RemoveAtMembers(s: seq<Snapshot>, i: nat, y: Snapshot)
    requires i < |s|
    ensures y in RemoveAt(s, i) ==> y in s
    ensures y in s && y != s[i] ==> y in RemoveAt(s, i)
  {
    assert s == s[..i] + [s[i]] + s[i + 1..];
  }

  /**
   * `OrderBy(x => x.Timestamp).Take(k)`: the `k` earliest snapshots,
   * earliest first; nothing when `k <= 0`, everything when `k >= |s|`.
   */
  function Oldest(s: seq<Snapshot>, k: int): (r: seq<Snapshot>)
    ensures |r| == if k <= 0 then 0 else Min(k, |s|)
    decreases |s|
  {
    if k <= 0 || s == [] then []
    else
      var m := MinIndex(s);
      [s[m]] + Oldest(RemoveAt(s, m), k - 1)
  }

  /** What is taken comes from `s`. */
  lemma {:induction false} OldestSubset(s: seq<Snapshot>, k: int, x: Snapshot)
    requires x in Oldest(s, k)
    ensures x in s
    decreases |s|
  {
    assert k > 0 && |s| > 0;
    var m := MinIndex(s);
    var rest := RemoveAt(s, m);
    assert Oldest(s, k) == [s[m]] + Oldest(rest, k - 1);
    if x != s[m] {
      assert x in Oldest(rest, k - 1);
      OldestSubset(rest, k - 1, x);
      RemoveAtMembers(s, m, x);
    }
  }

  /** Taking fewer gives a prefix of taking more. */
  lemma {:induction false} OldestNested(s: seq<Snapshot>, a: int, b: int)
    requires 0 <= a <= b
    ensures Oldest(s, a) == Oldest(s, b)[..|Oldest(s, a)|]
    decreases |s|
  {
    if a > 0 && s != [] {
      var m := MinIndex(s);
      var rest := RemoveAt(s, m);
      var small, large := Oldest(rest, a - 1), Oldest(rest, b - 1);
      assert Oldest(s, a) == [s[m]] + small;
      assert Oldest(s, b) == [s[m]] + large;
      OldestNested(rest, a - 1, b - 1);
      assert small == large[..|small|];
      assert ([s[m]] + large)[..1 + |small|] == [s[m]] + large[..|small|];
    }
  }

  lemma RemoveAtInjective(s: seq<Snapshot>, m: nat)
    requires m < |s| && Injective(s, SnapshotTimestamp)
    ensures Injective(RemoveAt(s, m), SnapshotTimestamp)
  {
    var rest := RemoveAt(s, m);
    forall i, j | 0 <= i < j < |rest| ensures rest[i].timestamp != rest[j].timestamp {
      var i', j' := if i < m then i else i + 1, if j < m then j else j + 1;
      assert rest[i] == s[i'] && rest[j] == s[j'];
    }
  }

  /**
   * Every snapshot taken is earlier than every snapshot left behind
   * (timestamps are unique, so the order is total).
   */
  lemma {:induction false} OldestBeforeSurvivors(s: seq<Snapshot>, k: int, x: Snapshot, y: Snapshot)
    requires Injective(s, SnapshotTimestamp)
    requires x in Oldest(s, k) && y in s && y !in Oldest(s, k)
    ensures x.timestamp < y.timestamp
    decreases |s|
  {
    var m := MinIndex(s);
    var rest := RemoveAt(s, m);
    var tail := Oldest(rest, k - 1);
    assert Oldest(s, k) == [s[m]] + tail;
    OldestSubset(s, k, x);
    if x == s[m] {
      if x.timestamp == y.timestamp {
        InjectiveKeyDetermines(s, SnapshotTimestamp, x, y);
      }
    } else {
      assert x in tail;
      RemoveAtMembers(s, m, y);
      RemoveAtInjective(s, m);
      OldestBeforeSurvivors(rest, k - 1, x, y);
    }
  }

  // -------------------------------------------------- one owner's victims

  /** The argument of `Take` when `count > max`: the difference in 32-bit arithmetic. */
  function TakeCount(count: nat, max: int): int {
    if count > max then Wrap32(count - max) else 0
  }

  /**
   * What the two cap checks add to `toRemove` for one owner: each cap that
   * is exceeded takes the earliest snapshots of ALL the owner's snapshots,
   * whatever their type or age. (The `Append` calls for expired and
   * `Unknown` snapshots discard their result, so they add nothing.)
   */
  function OwnerVictims(snaps: seq<Snapshot>, lim: Limits, now: int, zone: int -> int): seq<Snapshot> {
    var partialCount := CountLive(snaps, Partial, now, zone, lim.maxAge);
    var fullCount := CountLive(snaps, Full, now, zone, lim.maxAge);
    (if partialCount > lim.maxPartial then Oldest(snaps, TakeCount(partialCount, lim.maxPartial)) else [])
    + (if fullCount > lim.maxFull then Oldest(snaps, TakeCount(fullCount, lim.maxFull)) else [])
  }

  /**
   * The two `Take`s overlap: the owner loses exactly its earliest
   * `max(p, f)` snapshots, where `p` and `f` are the two take counts.
   */
  lemma OwnerVictimsAreOldest(snaps: seq<Snapshot>, lim: Limits, now: int, zone: int -> int)
    ensures var partialCount := CountLive(snaps, Partial, now, zone, lim.maxAge);
      var fullCount := CountLive(snaps, Full, now, zone, lim.maxAge);
      var p := if partialCount > lim.maxPartial then TakeCount(partialCount, lim.maxPartial) else 0;
      var f := if fullCount > lim.maxFull then TakeCount(fullCount, lim.maxFull) else 0;
      forall x :: x in OwnerVictims(snaps, lim, now, zone) <==> x in Oldest(snaps, Max(p, f))
  {
    var partialCount := CountLive(snaps, Partial, now, zone, lim.maxAge);
    var fullCount := CountLive(snaps, Full, now, zone, lim.maxAge);
    var p := if partialCount > lim.maxPartial then TakeCount(partialCount, lim.maxPartial) else 0;
    var f := if fullCount > lim.maxFull then TakeCount(fullCount, lim.maxFull) else 0;
    var big := Oldest(snaps, Max(p, f));
    assert Oldest(snaps, p) == if partialCount > lim.maxPartial then Oldest(snaps, TakeCount(partialCount, lim.maxPartial)) else [];
    assert Oldest(snaps, f) == if fullCount > lim.maxFull then Oldest(snaps, TakeCount(fullCount, lim.maxFull)) else [];
    assert OwnerVictims(snaps, lim, now, zone) == Oldest(snaps, p) + Oldest(snaps, f);
    if p > 0 || f > 0 {
      var p', f' := Max(p, 0), Max(f, 0);
      assert Oldest(snaps, p) == Oldest(snaps, p') && Oldest(snaps, f) == Oldest(snaps, f');
      OldestNested(snaps, p', Max(p, f));
      OldestNested(snaps, f', Max(p, f));
    }
  }

  /**
   * With both counts within their caps nothing is queued for the owner, so
   * it keeps every snapshot, however old and whatever its type.
   */
  lemma UnderCapsKeepsAll(snaps: seq<Snapshot>, lim: Limits, now: int, zone: int -> int)
    requires CountLive(snaps, Partial, now, zone, lim.maxAge) <= lim.maxPartial
    requires CountLive(snaps, Full, now, zone, lim.maxAge) <= lim.maxFull
    ensures OwnerVictims(snaps, lim, now, zone) == []
  {
  }

  // ---------------------------------------------------- the whole sweep

  /**
   * `toRemove` after the owner loop has visited `owners`: each owner's
   * victims appended in table order (`AddRange`).
   */
  function Queue(owners: seq<Owner>, victimsOf: nat -> seq<Snapshot>): seq<Snapshot> {
    if owners == [] then []
    else Queue(owners[..|owners| - 1], victimsOf) + victimsOf(owners[|owners| - 1].id)
  }

  /** Each owner's victims, by owner id. */
  function CapVictims(s: StoreState, lim: Limits, now: int, zone: int -> int): nat -> seq<Snapshot> {
    (id: nat) => OwnerVictims(SnapshotsOf(s.snapshots, id), lim, now, zone)
  }

  /** Every victim of an owner is one of that owner's snapshots in the table. */
  ghost predicate OwnsItsVictims(snapshots: seq<Snapshot>, victimsOf: nat -> seq<Snapshot>) {
    forall id: nat, y :: y in victimsOf(id) ==> y in snapshots && y.ownerId == id
  }

  function IdsOf(xs: seq<Snapshot>): set<nat> {
    set x | x in xs :: x.id
  }

  /** 30 days, the idle time after which an owner without snapshots is pruned. */
  const PruneAfter: int := 30 * TicksPerDay

  /**
   * The pruning test: no snapshots left, and `LastSeenDt` (the stored UTC
   * text read back as local time, see `LocalTicks`) at or before the
   * cutoff 30 days before the second clock reading `cutoffNow`.
   */
  predicate Stale(s: StoreState, o: Owner, cutoffNow: int, zone: int -> int) {
    SnapshotsOf(s.snapshots, o.id) == [] && LocalTicks(o.lastSeen, zone) <= cutoffNow - PruneAfter
  }

  function StaleOwnerIds(s: StoreState, owners: seq<Owner>, cutoffNow: int, zone: int -> int): set<nat> {
    set o | o in owners && Stale(s, o, cutoffNow, zone) :: o.id
  }

  /** The store after the cap removals, before pruning. */
  function AfterCaps(s: StoreState, lim: Limits, now: int, zone: int -> int): StoreState {
    var toRemove := Queue(s.owners, CapVictims(s, lim, now, zone));
    if |toRemove| > 0 then s.(snapshots := WithoutSnapshots(s.snapshots, IdsOf(toRemove))) else s
  }

  /** The store after pruning `swept`, when pruning is enabled. */
  function AfterPruning(swept: StoreState, enabled: bool, cutoffNow: int, zone: int -> int): StoreState {
    if enabled then
      var doomed := StaleOwnerIds(swept, swept.owners, cutoffNow, zone);
      if doomed != {} then
        swept.(owners := WithoutOwners(swept.owners, doomed), snapshots := NotOwnedBy(swept.snapshots, doomed))
      else swept
    else swept
  }

  /**
   * `Cleanup` on store `s`: `now` is the first clock reading (ages),
   * `cutoffNow` the second (pruning), `zone` the local offset from UTC at each instant.
   */
  function Sweep(s: StoreState, cfg: Config, now: int, cutoffNow: int, zone: int -> int): StoreState {
    AfterPruning(AfterCaps(s, CleanupLimits(cfg), now, zone), cfg.deleteEmptyOwners.GetOr(true), cutoffNow, zone)
  }

  lemma CapVictimsOwned(s: StoreState, lim: Limits, now: int, zone: int -> int)
    ensures OwnsItsVictims(s.snapshots, CapVictims(s, lim, now, zone))
  {
    forall id: nat, y | y in CapVictims(s, lim, now, zone)(id) ensures y in s.snapshots && y.ownerId == id {
      var snaps := SnapshotsOf(s.snapshots, id);
      var partialCount := CountLive(snaps, Partial, now, zone, lim.maxAge);
      var fullCount := CountLive(snaps, Full, now, zone, lim.maxAge);
      if partialCount > lim.maxPartial && y in Oldest(snaps, TakeCount(partialCount, lim.maxPartial)) {
        OldestSubset(snaps, TakeCount(partialCount, lim.maxPartial), y);
      } else {
        OldestSubset(snaps, TakeCount(fullCount, lim.maxFull), y);
      }
    }
  }

  lemma IdsOfAppend(a: seq<Snapshot>, b: seq<Snapshot>)
    ensures IdsOf(a + b) == IdsOf(a) + IdsOf(b)
  {
    assert forall x :: x in a + b <==> x in a || x in b;
  }

  lemma OwnerIdsAppend(a: seq<Owner>, o: Owner)
    ensures OwnerIds(a + [o]) == OwnerIds(a) + {o.id}
  {
    assert forall p :: p in a + [o] <==> p in a || p == o;
  }

  /** A queued id is the id of one of the queue's snapshots, from the table. */
  lemma {:induction false} QueueSubset(snapshots: seq<Snapshot>, owners: seq<Owner>, victimsOf: nat -> seq<Snapshot>, y: Snapshot)
    requires OwnsItsVictims(snapshots, victimsOf)
    requires y in Queue(owners, victimsOf)
    ensures y in snapshots
  {
    var init, last := owners[..|owners| - 1], owners[|owners| - 1];
    if y in Queue(init, victimsOf) {
      QueueSubset(snapshots, init, victimsOf, y);
    } else {
      assert y in victimsOf(last.id);
    }
  }

  /** After visiting `owners`, a snapshot is queued iff its owner was visited and selected it. */
  lemma {:induction false} QueueMembers(snapshots: seq<Snapshot>, owners: seq<Owner>, victimsOf: nat -> seq<Snapshot>, x: Snapshot)
    requires Injective(snapshots, SnapshotKey) && OwnsItsVictims(snapshots, victimsOf) && x in snapshots
    ensures x.id in IdsOf(Queue(owners, victimsOf)) <==> x.ownerId in OwnerIds(owners) && x in victimsOf(x.ownerId)
  {
    if owners != [] {
      var init, last := owners[..|owners| - 1], owners[|owners| - 1];
      var head, tail := Queue(init, victimsOf), victimsOf(last.id);
      QueueMembers(snapshots, init, victimsOf, x);
      assert owners == init + [last];
      OwnerIdsAppend(init, last);
      IdsOfAppend(head, tail);
      if x.id in IdsOf(tail) {
        var y :| y in tail && y.id == x.id;
        InjectiveKeyDetermines(snapshots, SnapshotKey, x, y);
      }
    }
  }

  /**
   * Locality of the caps: a snapshot is removed by the cap step iff it is
   * among the snapshots its OWN owner's caps select; other owners'
   * snapshots play no part.
   */
  lemma CapRemovalIsLocal(s: StoreState, lim: Limits, now: int, zone: int -> int, x: Snapshot)
    requires Valid(s) && x in s.snapshots
    ensures x in AfterCaps(s, lim, now, zone).snapshots <==>
      x !in OwnerVictims(SnapshotsOf(s.snapshots, x.ownerId), lim, now, zone)
  {
    var victimsOf := CapVictims(s, lim, now, zone);
    CapVictimsOwned(s, lim, now, zone);
    QueueMembers(s.snapshots, s.owners, victimsOf, x);
    assert victimsOf(x.ownerId) == OwnerVictims(SnapshotsOf(s.snapshots, x.ownerId), lim, now, zone);
    var i :| 0 <= i < |s.snapshots| && s.snapshots[i] == x;
    var toRemove := Queue(s.owners, victimsOf);
    if x.id in IdsOf(toRemove) {
      assert |toRemove| > 0;
    }
  }

  /** With every owner within both caps, the cap step changes nothing. */
  lemma NoExcessNoChange(s: StoreState, lim: Limits, now: int, zone: int -> int)
    requires Valid(s)
    requires forall o :: o in s.owners ==>
      && CountLive(SnapshotsOf(s.snapshots, o.id), Partial, now, zone, lim.maxAge) <= lim.maxPartial
      && CountLive(SnapshotsOf(s.snapshots, o.id), Full, now, zone, lim.maxAge) <= lim.maxFull
    ensures AfterCaps(s, lim, now, zone) == s
  {
    var victimsOf := CapVictims(s, lim, now, zone);
    var toRemove := Queue(s.owners, victimsOf);
    if |toRemove| > 0 {
      var y := toRemove[0];
      CapVictimsOwned(s, lim, now, zone);
      QueueSubset(s.snapshots, s.owners, victimsOf, y);
      assert y.id in IdsOf(toRemove);
      QueueMembers(s.snapshots, s.owners, victimsOf, y);
      assert false;
    }
  }

  lemma AfterCapsValid(s: StoreState, lim: Limits, now: int, zone: int -> int)
    requires Valid(s)
    ensures Valid(AfterCaps(s, lim, now, zone))
    ensures AfterCaps(s, lim, now, zone).owners == s.owners
  {
    var toRemove := Queue(s.owners, CapVictims(s, lim, now, zone));
    if |toRemove| > 0 {
      RemoveSnapshotsValid(s, IdsOf(toRemove));
    }
  }

  /** Pruned owners have no snapshots, so the cascade takes nothing with them. */
  lemma PruningKeepsSnapshots(swept: StoreState, enabled: bool, cutoffNow: int, zone: int -> int)
    requires Valid(swept)
    ensures AfterPruning(swept, enabled, cutoffNow, zone).snapshots == swept.snapshots
    ensures Valid(AfterPruning(swept, enabled, cutoffNow, zone))
  {
    var doomed := StaleOwnerIds(swept, swept.owners, cutoffNow, zone);
    if enabled && doomed != {} {
      assert forall i :: 0 <= i < |swept.snapshots| ==> swept.snapshots[i].ownerId !in doomed;
      FilterAll(swept.snapshots, (x: Snapshot) => x.ownerId !in doomed);
      RemoveOwnersValid(swept, doomed);
    }
  }

  /**
   * Pruning removes an owner iff pruning is enabled and the owner is stale
   * (no snapshots, last seen 30 days before the cutoff); every other owner
   * stays, row unchanged.
   */
  lemma PruningLaw(swept: StoreState, enabled: bool, cutoffNow: int, zone: int -> int, o: Owner)
    requires Valid(swept) && o in swept.owners
    ensures o in AfterPruning(swept, enabled, cutoffNow, zone).owners <==> !(enabled && Stale(swept, o, cutoffNow, zone))
  {
    var doomed := StaleOwnerIds(swept, swept.owners, cutoffNow, zone);
    var i :| 0 <= i < |swept.owners| && swept.owners[i] == o;
    if enabled && o.id in doomed {
      var p :| p in swept.owners && Stale(swept, p, cutoffNow, zone) && p.id == o.id;
      InjectiveKeyDetermines(swept.owners, OwnerKey, o, p);
    }
  }

  /** The sweep keeps the schema's invariant. */
  lemma SweepValid(s: StoreState, cfg: Config, now: int, cutoffNow: int, zone: int -> int)
    requires Valid(s)
    ensures Valid(Sweep(s, cfg, now, cutoffNow, zone))
  {
    var lim := CleanupLimits(cfg);
    AfterCapsValid(s, lim, now, zone);
    PruningKeepsSnapshots(AfterCaps(s, lim, now, zone), cfg.deleteEmptyOwners.GetOr(true), cutoffNow, zone);
  }

  /**
   * The sweep in one statement per table. A snapshot survives iff its own
   * owner's caps do not select it (expiry alone never removes it). An
   * owner survives iff pruning is off (`DeleteEmptyOwners` false) or it is
   * not stale once the cap removals are done.
   */
  lemma SweepLaw(s: StoreState, cfg: Config, now: int, cutoffNow: int, zone: int -> int)
    requires Valid(s)
    ensures forall x :: x in s.snapshots ==>
      (x in Sweep(s, cfg, now, cutoffNow, zone).snapshots <==>
       x !in OwnerVictims(SnapshotsOf(s.snapshots, x.ownerId), CleanupLimits(cfg), now, zone))
    ensures forall o :: o in s.owners ==>
      (o in Sweep(s, cfg, now, cutoffNow, zone).owners <==>
       !(cfg.deleteEmptyOwners.GetOr(true) && Stale(AfterCaps(s, CleanupLimits(cfg), now, zone), o, cutoffNow, zone)))
    ensures forall x :: x in Sweep(s, cfg, now, cutoffNow, zone).snapshots ==> x in s.snapshots
    ensures forall o :: o in Sweep(s, cfg, now, cutoffNow, zone).owners ==> o in s.owners
  {
    SweepSnapshotsLaw(s, cfg, now, cutoffNow, zone);
    SweepOwnersLaw(s, cfg, now, cutoffNow, zone);
    SweepSnapshotsShrink(s, cfg, now, cutoffNow, zone);
    SweepOwnersShrink(s, cfg, now, cutoffNow, zone);
  }

  /** Which snapshots survive a sweep: the first part of `SweepLaw`. */
  lemma SweepSnapshotsLaw(s: StoreState, cfg: Config, now: int, cutoffNow: int, zone: int -> int)
    requires Valid(s)
    ensures forall x :: x in s.snapshots ==>
      (x in Sweep(s, cfg, now, cutoffNow, zone).snapshots <==>
       x !in OwnerVictims(SnapshotsOf(s.snapshots, x.ownerId), CleanupLimits(cfg), now, zone))
  {
    var lim := CleanupLimits(cfg);
    var swept := AfterCaps(s, lim, now, zone);
    AfterCapsValid(s, lim, now, zone);
    PruningKeepsSnapshots(swept, cfg.deleteEmptyOwners.GetOr(true), cutoffNow, zone);
    forall x | x in s.snapshots
      ensures x in Sweep(s, cfg, now, cutoffNow, zone).snapshots <==>
        x !in OwnerVictims(SnapshotsOf(s.snapshots, x.ownerId), lim, now, zone)
    {
      CapRemovalIsLocal(s, lim, now, zone, x);
    }
  }

  /** Which owners survive a sweep: the second part of `SweepLaw`. */
  lemma SweepOwnersLaw(s: StoreState, cfg: Config, now: int, cutoffNow: int, zone: int -> int)
    requires Valid(s)
    ensures forall o :: o in s.owners ==>
      (o in Sweep(s, cfg, now, cutoffNow, zone).owners <==>
       !(cfg.deleteEmptyOwners.GetOr(true) && Stale(AfterCaps(s, CleanupLimits(cfg), now, zone), o, cutoffNow, zone)))
  {
    var lim := CleanupLimits(cfg);
    var swept := AfterCaps(s, lim, now, zone);
    var enabled := cfg.deleteEmptyOwners.GetOr(true);
    AfterCapsValid(s, lim, now, zone);
    forall o | o in s.owners
      ensures o in Sweep(s, cfg, now, cutoffNow, zone).owners <==> !(enabled && Stale(swept, o, cutoffNow, zone))
    {
      PruningLaw(swept, enabled, cutoffNow, zone, o);
    }
  }

  /** A sweep adds no snapshot. */
  lemma SweepSnapshotsShrink(s: StoreState, cfg: Config, now: int, cutoffNow: int, zone: int -> int)
    requires Valid(s)
    ensures forall x :: x in Sweep(s, cfg, now, cutoffNow, zone).snapshots ==> x in s.snapshots
  {
    var lim := CleanupLimits(cfg);
    var swept := AfterCaps(s, lim, now, zone);
    AfterCapsValid(s, lim, now, zone);
    PruningKeepsSnapshots(swept, cfg.deleteEmptyOwners.GetOr(true), cutoffNow, zone);
    var toRemove := Queue(s.owners, CapVictims(s, lim, now, zone));
    assert forall x :: x in swept.snapshots ==> x in s.snapshots by {
      if |toRemove| > 0 {
        forall x | x in swept.snapshots ensures x in s.snapshots {
          var i :| 0 <= i < |swept.snapshots| && swept.snapshots[i] == x;
        }
      }
    }
  }

  /** A sweep adds no owner. */
  lemma SweepOwnersShrink(s: StoreState, cfg: Config, now: int, cutoffNow: int, zone: int -> int)
    requires Valid(s)
    ensures forall o :: o in Sweep(s, cfg, now, cutoffNow, zone).owners ==> o in s.owners
  {
    var lim := CleanupLimits(cfg);
    var swept := AfterCaps(s, lim, now, zone);
    var enabled := cfg.deleteEmptyOwners.GetOr(true);
    AfterCapsValid(s, lim, now, zone);
    var doomed := StaleOwnerIds(swept, swept.owners, cutoffNow, zone);
    if enabled && doomed != {} {
      forall o | o in Sweep(s, cfg, now, cutoffNow, zone).owners ensures o in s.owners {
        var r := WithoutOwners(swept.owners, doomed);
        var i :| 0 <= i < |r| && r[i] == o;
      }
    }
  }
}
