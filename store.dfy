/**
 * The server's database (`CalendarStoreContext`): an `Owners` table and a
 * `Snapshots` table, each snapshot with its one data blob folded in.
 *
 * Rows are values; the tables are sequences in the order the database
 * enumerates them. The unique indexes, the foreign key and the
 * auto-increment counters of the schema are the invariant `Valid`.
 * Instants are tick counts in UTC (see module `Ticks`).
 */
module Store {
  import opened Wrappers
  import opened Text
  import opened Collections

  /** `CalendarSnapshotType`; `Unknown` is the enum's default value. */
  datatype SnapshotType = Unknown | Full | Partial

  /** The enum's `ToString()`, which the snapshot listing sends. */
  function TypeName(t: SnapshotType): string {
    match t
    case Unknown => "Unknown"
    case Full => "Full"
    case Partial => "Partial"
  }

  /**
   * One row of `Snapshots` with its `DataBlobs` row: the id, the creation
   * instant, the type, the optional modified-interval bounds, the owner's
   * id and the blob's bytes.
   */
  datatype Snapshot = Snapshot(
    id: nat,
    timestamp: int,
    kind: SnapshotType,
    intervalStart: Option<int>,
    intervalEnd: Option<int>,
    ownerId: nat,
    data: seq<byte>)

  /** One row of `Owners`. */
  datatype Owner = Owner(id: nat, name: string, passphraseHash: string, lastSeen: int)

  /** Both tables and the next value of each auto-increment key. */
  datatype StoreState = StoreState(
    owners: seq<Owner>,
    snapshots: seq<Snapshot>,
    nextOwnerId: nat,
    nextSnapshotId: nat)

  function OwnerKey(o: Owner): nat { o.id }
  function OwnerName(o: Owner): string { o.name }
  function SnapshotKey(x: Snapshot): nat { x.id }
  function SnapshotTimestamp(x: Snapshot): int { x.timestamp }

  function OwnerIds(owners: seq<Owner>): set<nat> {
    set o | o in owners :: o.id
  }

  /**
   * The schema's constraints: primary keys and the unique indexes on
   * `Owners.Name` and `Snapshots.Timestamp`; every snapshot's `OwnerId`
   * names an existing owner; the auto-increment counters lie above every
   * key in use.
   */
  ghost predicate Valid(s: StoreState) {
    && Injective(s.owners, OwnerKey)
    && Injective(s.owners, OwnerName)
    && Injective(s.snapshots, SnapshotKey)
    && Injective(s.snapshots, SnapshotTimestamp)
    && (forall i :: 0 <= i < |s.owners| ==> s.owners[i].id < s.nextOwnerId)
    && (forall i :: 0 <= i < |s.snapshots| ==>
          s.snapshots[i].id < s.nextSnapshotId && s.snapshots[i].ownerId in OwnerIds(s.owners))
  }

  /** `Owners.FirstOrDefault(x => x.Name == name)`. */
  function FindOwner(owners: seq<Owner>, name: string): (r: Option<Owner>)
    ensures r.Some? ==> r.value in owners && r.value.name == name
    ensures r.None? <==> forall i :: 0 <= i < |owners| ==> owners[i].name != name
  {
    if owners == [] then None
    else if owners[0].name == name then Some(owners[0])
    else FindOwner(owners[1..], name)
  }

  /** `Snapshots.FirstOrDefault(x => x.Id == id)`. */
  function FindSnapshot(snapshots: seq<Snapshot>, id: int): (r: Option<Snapshot>)
    ensures r.Some? ==> r.value in snapshots && r.value.id == id
    ensures r.None? <==> forall i :: 0 <= i < |snapshots| ==> snapshots[i].id != id
  {
    if snapshots == [] then None
    else if snapshots[0].id == id then Some(snapshots[0])
    else FindSnapshot(snapshots[1..], id)
  }

  /** `owner.Snapshots`: the snapshots whose `OwnerId` is `ownerId`, in table order. */
  function SnapshotsOf(snapshots: seq<Snapshot>, ownerId: nat): (r: seq<Snapshot>)
    ensures forall i :: 0 <= i < |r| ==> r[i] in snapshots && r[i].ownerId == ownerId
    ensures forall i :: 0 <= i < |snapshots| && snapshots[i].ownerId == ownerId ==> snapshots[i] in r
  {
    Filter(snapshots, (x: Snapshot) => x.ownerId == ownerId)
  }

  /** The table without the snapshots whose id is in `ids`. */
  function WithoutSnapshots(snapshots: seq<Snapshot>, ids: set<nat>): (r: seq<Snapshot>)
    ensures forall i :: 0 <= i < |r| ==> r[i] in snapshots && r[i].id !in ids
    ensures forall i :: 0 <= i < |snapshots| && snapshots[i].id !in ids ==> snapshots[i] in r
  {
    Filter(snapshots, (x: Snapshot) => x.id !in ids)
  }

  /** The table without the owners whose id is in `ids`. */
  function WithoutOwners(owners: seq<Owner>, ids: set<nat>): (r: seq<Owner>)
    ensures forall i :: 0 <= i < |r| ==> r[i] in owners && r[i].id !in ids
    ensures forall i :: 0 <= i < |owners| && owners[i].id !in ids ==> owners[i] in r
  {
    Filter(owners, (o: Owner) => o.id !in ids)
  }

  /** The snapshots whose owner is not in `ids` (what the cascade leaves). */
  function NotOwnedBy(snapshots: seq<Snapshot>, ids: set<nat>): (r: seq<Snapshot>)
    ensures forall i :: 0 <= i < |r| ==> r[i] in snapshots && r[i].ownerId !in ids
    ensures forall i :: 0 <= i < |snapshots| && snapshots[i].ownerId !in ids ==> snapshots[i] in r
  {
    Filter(snapshots, (x: Snapshot) => x.ownerId !in ids)
  }

  /** The owner with id `id` has `LastSeen` set to `at`; every other row is unchanged. */
  function Touch(owners: seq<Owner>, id: nat, at: int): (r: seq<Owner>)
    ensures |r| == |owners|
    ensures forall i :: 0 <= i < |owners| ==>
      r[i] == if owners[i].id == id then owners[i].(lastSeen := at) else owners[i]
  {
    if owners == [] then []
    else [if owners[0].id == id then owners[0].(lastSeen := at) else owners[0]] + Touch(owners[1..], id, at)
  }

  predicate TimestampTaken(snapshots: seq<Snapshot>, t: int) {
    exists i :: 0 <= i < |snapshots| && snapshots[i].timestamp == t
  }

  // ------------------------------------------------- the invariant's upkeep

  lemma TouchValid(s: StoreState, id: nat, at: int)
    requires Valid(s)
    ensures Valid(s.(owners := Touch(s.owners, id, at)))
  {
    var t := Touch(s.owners, id, at);
    assert forall i :: 0 <= i < |t| ==> t[i].id == s.owners[i].id && t[i].name == s.owners[i].name;
    assert OwnerIds(t) == OwnerIds(s.owners) by {
      forall k | k in OwnerIds(s.owners) ensures k in OwnerIds(t) {
        var o :| o in s.owners && o.id == k;
        var i :| 0 <= i < |s.owners| && s.owners[i] == o;
        assert t[i].id == k;
      }
    }
  }

  lemma RemoveSnapshotsValid(s: StoreState, ids: set<nat>)
    requires Valid(s)
    ensures Valid(s.(snapshots := WithoutSnapshots(s.snapshots, ids)))
  {
    var p := (x: Snapshot) => x.id !in ids;
    FilterInjective(s.snapshots, p, SnapshotKey);
    FilterInjective(s.snapshots, p, SnapshotTimestamp);
  }

  /**
   * Deleting owners deletes their snapshots too (`ON DELETE CASCADE`), which
   * keeps every remaining snapshot's owner present.
   */
  lemma RemoveOwnersValid(s: StoreState, ids: set<nat>)
    requires Valid(s)
    ensures Valid(s.(owners := WithoutOwners(s.owners, ids), snapshots := NotOwnedBy(s.snapshots, ids)))
  {
    var os := WithoutOwners(s.owners, ids);
    var ss := NotOwnedBy(s.snapshots, ids);
    FilterInjective(s.owners, (o: Owner) => o.id !in ids, OwnerKey);
    FilterInjective(s.owners, (o: Owner) => o.id !in ids, OwnerName);
    FilterInjective(s.snapshots, (x: Snapshot) => x.ownerId !in ids, SnapshotKey);
    FilterInjective(s.snapshots, (x: Snapshot) => x.ownerId !in ids, SnapshotTimestamp);
    forall i | 0 <= i < |ss| ensures ss[i].id < s.nextSnapshotId && ss[i].ownerId in OwnerIds(os) {
      var j :| 0 <= j < |s.snapshots| && s.snapshots[j] == ss[i];
      var o :| o in s.owners && o.id == ss[i].ownerId;
      var k :| 0 <= k < |s.owners| && s.owners[k] == o;
      assert o in os;
    }
    forall i | 0 <= i < |os| ensures os[i].id < s.nextOwnerId {
      var j :| 0 <= j < |s.owners| && s.owners[j] == os[i];
    }
  }

  lemma AddOwnerValid(s: StoreState, name: string, hash: string, at: int)
    requires Valid(s) && FindOwner(s.owners, name).None?
    ensures Valid(s.(owners := s.owners + [Owner(s.nextOwnerId, name, hash, at)], nextOwnerId := s.nextOwnerId + 1))
  {
    var o := Owner(s.nextOwnerId, name, hash, at);
    var os := s.owners + [o];
    assert OwnerIds(os) == OwnerIds(s.owners) + {o.id};
    forall i, j | 0 <= i < j < |os| ensures os[i].id != os[j].id && os[i].name != os[j].name {
      if j == |os| - 1 {
        assert os[i] == s.owners[i];
      }
    }
  }

  lemma AddSnapshotValid(s: StoreState, x: Snapshot)
    requires Valid(s) && x.id == s.nextSnapshotId && x.ownerId in OwnerIds(s.owners)
    requires !TimestampTaken(s.snapshots, x.timestamp)
    ensures Valid(s.(snapshots := s.snapshots + [x], nextSnapshotId := s.nextSnapshotId + 1))
  {
    var ss := s.snapshots + [x];
    forall i, j | 0 <= i < j < |ss| ensures ss[i].id != ss[j].id && ss[i].timestamp != ss[j].timestamp {
      if j == |ss| - 1 {
        assert ss[i] == s.snapshots[i];
      }
    }
  }

  /**
   * The database context: both tables and their auto-increment counters.
   * Each method is one `Add`/`Remove` followed by `SaveChanges`.
   */
  class CalendarStore {
    var owners: seq<Owner>
    var snapshots: seq<Snapshot>
    var nextOwnerId: nat
    var nextSnapshotId: nat

    function State(): StoreState
      reads this
    {
      StoreState(owners, snapshots, nextOwnerId, nextSnapshotId)
    }

    /** A fresh database; SQLite's auto-increment keys start at 1. */
    constructor ()
      ensures State() == StoreState([], [], 1, 1)
      ensures Valid(State())
    {
      owners := [];
      snapshots := [];
      nextOwnerId := 1;
      nextSnapshotId := 1;
    }

    /** `Owners.Add` of a new owner under an unused name, then `SaveChanges`. */
    method AddOwner(name: string, hash: string, at: int) returns (o: Owner)
      requires Valid(State()) && FindOwner(owners, name).None?
      modifies this
      ensures o == Owner(old(nextOwnerId), name, hash, at)
      ensures State() == old(State()).(owners := old(owners) + [o], nextOwnerId := old(nextOwnerId) + 1)
      ensures Valid(State())
    {
      AddOwnerValid(State(), name, hash, at);
      o := Owner(nextOwnerId, name, hash, at);
      owners := owners + [o];
      nextOwnerId := nextOwnerId + 1;
    }

    /**
     * `Snapshots.Add` then `SaveChanges`. The unique index on `Timestamp`
     * makes the save throw when the instant is already taken; the table is
     * then unchanged and `None` is returned.
     */
    method AddSnapshot(timestamp: int, kind: SnapshotType, start: Option<int>, end: Option<int>,
                       ownerId: nat, data: seq<byte>) returns (added: Option<Snapshot>)
      requires Valid(State()) && ownerId in OwnerIds(owners)
      modifies this
      ensures TimestampTaken(old(snapshots), timestamp) ==> added.None? && State() == old(State())
      ensures !TimestampTaken(old(snapshots), timestamp) ==>
        && added == Some(Snapshot(old(nextSnapshotId), timestamp, kind, start, end, ownerId, data))
        && State() == old(State()).(snapshots := old(snapshots) + [added.value],
                                    nextSnapshotId := old(nextSnapshotId) + 1)
      ensures Valid(State())
    {
      if TimestampTaken(snapshots, timestamp) {
        return None;
      }
      var x := Snapshot(nextSnapshotId, timestamp, kind, start, end, ownerId, data);
      AddSnapshotValid(State(), x);
      snapshots := snapshots + [x];
      nextSnapshotId := nextSnapshotId + 1;
      added := Some(x);
    }

    /** `owner.LastSeenDt = at` then `SaveChanges`. */
    method SetLastSeen(id: nat, at: int)
      requires Valid(State())
      modifies this
      ensures State() == old(State()).(owners := Touch(old(owners), id, at))
      ensures Valid(State())
    {
      TouchValid(State(), id, at);
      owners := Touch(owners, id, at);
    }

    /** `Snapshots.RemoveRange` then `SaveChanges`. */
    method RemoveSnapshots(ids: set<nat>)
      requires Valid(State())
      modifies this
      ensures State() == old(State()).(snapshots := WithoutSnapshots(old(snapshots), ids))
      ensures Valid(State())
    {
      RemoveSnapshotsValid(State(), ids);
      snapshots := WithoutSnapshots(snapshots, ids);
    }

    /** `Owners.Remove` of each owner in `ids` then `SaveChanges`; their snapshots go with them. */
    method RemoveOwners(ids: set<nat>)
      requires Valid(State())
      modifies this
      ensures State() == old(State()).(owners := WithoutOwners(old(owners), ids),
                                       snapshots := NotOwnedBy(old(snapshots), ids))
      ensures Valid(State())
    {
      RemoveOwnersValid(State(), ids);
      owners := WithoutOwners(owners, ids);
      snapshots := NotOwnedBy(snapshots, ids);
    }
  }
}
