/**
 * The storage server's `CalendarController`: reserve-or-authenticate,
 * authenticate, add a full or partial snapshot, list an owner's snapshots
 * and fetch one snapshot's blob. Each endpoint is a method on the store
 * that returns the HTTP status (and body) it produces.
 *
 * Each reading of the clock is a parameter. The absolute date parser
 * behind `ToDateTime` (followed by `ToUniversalTime`) is the parameter
 * `parse`, a partial function from text to a UTC instant. A query
 * parameter that is absent is `None`.
 */
module Controller {
  import opened Wrappers
  import opened Text
  import opened Collections
  import opened Store

  /** The results the endpoints return. */
  datatype Status = NoContent | BadRequest | Unauthorized | NotFound | Ok | ServerError

  function Code(s: Status): (c: nat)
    ensures 200 <= c < 600
  {
    match s
    case Ok => 200
    case NoContent => 204
    case BadRequest => 400
    case Unauthorized => 401
    case NotFound => 404
    case ServerError => 500
  }

  lemma CodesDistinct(a: Status, b: Status)
    ensures Code(a) == Code(b) <==> a == b
  {
  }

  /**
   * `ServerModels.AvailableSnapshot`: the instants are those the "O"
   * strings denote, the type is the enum's name.
   */
  datatype SnapshotInfo = SnapshotInfo(
    id: nat,
    timestamp: int,
    snapshotType: string,
    intervalStart: Option<int>,
    intervalEnd: Option<int>)

  function InfoOf(x: Snapshot): (r: SnapshotInfo)
    ensures r.id == x.id && r.timestamp == x.timestamp
    ensures r.intervalStart == x.intervalStart && r.intervalEnd == x.intervalEnd
    ensures r.snapshotType == TypeName(x.kind)
  {
    SnapshotInfo(x.id, x.timestamp, TypeName(x.kind), x.intervalStart, x.intervalEnd)
  }

  /** The `Select` of the listing: one record per snapshot, in the same order. */
  function Listing(snaps: seq<Snapshot>): (r: seq<SnapshotInfo>)
    ensures |r| == |snaps|
    ensures forall i :: 0 <= i < |snaps| ==> r[i] == InfoOf(snaps[i])
  {
    if snaps == [] then [] else [InfoOf(snaps[0])] + Listing(snaps[1..])
  }

  /**
   * `GetCheckOwner`: the owner found by name, provided its stored hash is
   * the one given. `None` for an unknown name and for a wrong hash alike.
   */
  function CheckOwner(owners: seq<Owner>, name: string, hash: string): (r: Option<Owner>)
    ensures r.Some? ==> r.value in owners && r.value.name == name && r.value.passphraseHash == hash
    ensures FindOwner(owners, name).None? ==> r.None?
  {
    match FindOwner(owners, name)
    case None => None
    case Some(o) => if o.passphraseHash != hash then None else Some(o)
  }

  /**
   * With unique names, the credentials are accepted iff some owner has
   * exactly that name and that hash.
   */
  lemma CheckOwnerLaw(owners: seq<Owner>, name: string, hash: string)
    requires Injective(owners, OwnerName)
    ensures CheckOwner(owners, name, hash).Some? <==>
      exists o :: o in owners && o.name == name && o.passphraseHash == hash
  {
    if o :| o in owners && o.name == name && o.passphraseHash == hash {
      var i :| 0 <= i < |owners| && owners[i] == o;
      var f := FindOwner(owners, name);
      assert f.Some?;
      InjectiveKeyDetermines(owners, OwnerName, o, f.value);
    }
  }

  /**
   * With unique ids, a snapshot's record is in an owner's listing iff the
   * snapshot is that owner's.
   */
  lemma ListingLaw(snapshots: seq<Snapshot>, ownerId: nat, x: Snapshot)
    requires Injective(snapshots, SnapshotKey) && x in snapshots
    ensures InfoOf(x) in Listing(SnapshotsOf(snapshots, ownerId)) <==> x.ownerId == ownerId
  {
    var mine := SnapshotsOf(snapshots, ownerId);
    var listing := Listing(mine);
    var k :| 0 <= k < |snapshots| && snapshots[k] == x;
    if x.ownerId == ownerId {
      var i :| 0 <= i < |mine| && mine[i] == x;
      assert listing[i] == InfoOf(x);
    }
    if InfoOf(x) in listing {
      var i :| 0 <= i < |listing| && listing[i] == InfoOf(x);
      assert mine[i].id == x.id;
      InjectiveKeyDetermines(snapshots, SnapshotKey, x, mine[i]);
    }
  }

  class CalendarController {
    const storage: CalendarStore

    constructor (storage: CalendarStore)
      ensures this.storage == storage
    {
      this.storage := storage;
    }

    /** `GetOwner`: the first owner with that exact name. */
    function GetOwner(ownerName: string): (r: Option<Owner>)
      reads storage
      ensures r.Some? ==> r.value in storage.owners && r.value.name == ownerName
      ensures r.None? <==> forall i :: 0 <= i < |storage.owners| ==> storage.owners[i].name != ownerName
    {
      FindOwner(storage.owners, ownerName)
    }

    /** `GetCheckOwner`: the owner, if the name exists and the hash matches. */
    function GetCheckOwner(ownerName: string, passphraseHash: string): (r: Option<Owner>)
      reads storage
      ensures r.Some? ==> r.value in storage.owners && r.value.name == ownerName && r.value.passphraseHash == passphraseHash
      ensures FindOwner(storage.owners, ownerName).None? ==> r.None?
    {
      CheckOwner(storage.owners, ownerName, passphraseHash)
    }

    /**
     * `CreateOwner`: `None` when the name is taken (nothing changes);
     * otherwise the new owner, last seen at `now`.
     */
    method CreateOwner(ownerName: string, passphraseHash: string, now: int) returns (owner: Option<Owner>)
      requires Valid(storage.State())
      modifies storage
      ensures old(GetOwner(ownerName)).Some? ==> owner.None? && storage.State() == old(storage.State())
      ensures old(GetOwner(ownerName)).None? ==>
        && owner == Some(Owner(old(storage.nextOwnerId), ownerName, passphraseHash, now))
        && storage.State() == old(storage.State()).(owners := old(storage.owners) + [owner.value],
                                                    nextOwnerId := old(storage.nextOwnerId) + 1)
      ensures Valid(storage.State())
    {
      if GetOwner(ownerName).Some? {
        return None;
      }
      var created := storage.AddOwner(ownerName, passphraseHash, now);
      FindOwnerLast(old(storage.owners), created);
      owner := GetOwner(ownerName);
    }

    /** `UpdateOwnerLastSeen`: `false` for no owner; otherwise `LastSeen := now`. */
    method UpdateOwnerLastSeen(owner: Option<Owner>, now: int) returns (updated: bool)
      requires Valid(storage.State())
      modifies storage
      ensures updated <==> owner.Some?
      ensures owner.None? ==> storage.State() == old(storage.State())
      ensures owner.Some? ==> storage.State() == old(storage.State()).(owners := Touch(old(storage.owners), owner.value.id, now))
      ensures Valid(storage.State())
    {
      if owner.None? {
        return false;
      }
      storage.SetLastSeen(owner.value.id, now);
      return true;
    }

    /**
     * `AddSnapshotInternal`: adds the snapshot stamped `stampedAt`, then
     * sets the owner's `LastSeen` to `seenAt` (a second clock reading).
     * When `stampedAt` is already some snapshot's timestamp the unique
     * index makes the save throw: `saved` is false and nothing changes.
     */
    method AddSnapshotInternal(ownerName: string, kind: SnapshotType, start: Option<int>, end: Option<int>,
                               data: seq<byte>, stampedAt: int, seenAt: int) returns (saved: bool)
      requires Valid(storage.State()) && GetOwner(ownerName).Some?
      modifies storage
      ensures var o := old(GetOwner(ownerName)).value;
        var x := Snapshot(old(storage.nextSnapshotId), stampedAt, kind, start, end, o.id, data);
        && (saved <==> !TimestampTaken(old(storage.snapshots), stampedAt))
        && (!saved ==> storage.State() == old(storage.State()))
        && (saved ==> storage.State() == old(storage.State()).(
              owners := Touch(old(storage.owners), o.id, seenAt),
              snapshots := old(storage.snapshots) + [x],
              nextSnapshotId := old(storage.nextSnapshotId) + 1))
      ensures Valid(storage.State())
    {
      var owner := GetOwner(ownerName);
      assert owner.value.id in OwnerIds(storage.owners);
      var added := storage.AddSnapshot(stampedAt, kind, start, end, owner.value.id, data);
      if added.None? {
        return false;
      }
      var _ := UpdateOwnerLastSeen(owner, seenAt);
      return true;
    }

    /**
     * `Authenticate`: 204 when the credentials match an owner, 401
     * otherwise; `LastSeen` is not touched.
     */
    method Authenticate(ownerName: string, passphraseHash: string) returns (status: Status)
      requires Valid(storage.State())
      ensures status == NoContent <==>
        exists o :: o in storage.owners && o.name == ownerName && o.passphraseHash == passphraseHash
      ensures status == NoContent || status == Unauthorized
    {
      CheckOwnerLaw(storage.owners, ownerName, passphraseHash);
      if GetCheckOwner(ownerName, passphraseHash).Some? {
        return NoContent;
      } else {
        return Unauthorized;
      }
    }

    /**
     * `ReserveName`, first writer wins: an unused name is registered with
     * the given hash (204); a used name is left alone and the call answers
     * as `Authenticate` would.
     */
    method ReserveName(ownerName: string, passphraseHash: string, now: int) returns (status: Status)
      requires Valid(storage.State())
      modifies storage
      ensures old(GetOwner(ownerName)).None? ==>
        && status == NoContent
        && storage.State() == old(storage.State()).(
             owners := old(storage.owners) + [Owner(old(storage.nextOwnerId), ownerName, passphraseHash, now)],
             nextOwnerId := old(storage.nextOwnerId) + 1)
      ensures old(GetOwner(ownerName)).Some? ==>
        && storage.State() == old(storage.State())
        && (status == NoContent <==> old(GetOwner(ownerName)).value.passphraseHash == passphraseHash)
        && (status == NoContent || status == Unauthorized)
      ensures Valid(storage.State())
    {
      var owner := CreateOwner(ownerName, passphraseHash, now);
      if owner.None? {
        if GetCheckOwner(ownerName, passphraseHash).None? {
          return Unauthorized;
        }
      }
      return NoContent;
    }

    /**
     * `AddPartialSnapshot`: 401 for bad credentials, then 400 for a missing
     * or empty body, then 400 when either bound does not parse; otherwise
     * the partial snapshot with both bounds is added (204), or the save
     * throws on a taken timestamp (500). Start after end is accepted.
     */
    method AddPartialSnapshot(ownerName: string, passphraseHash: string,
                              modifiedIntervalStart: Option<string>, modifiedIntervalEnd: Option<string>,
                              data: Option<seq<byte>>, parse: string -> Option<int>,
                              stampedAt: int, seenAt: int) returns (status: Status)
      requires Valid(storage.State())
      modifies storage
      ensures old(GetCheckOwner(ownerName, passphraseHash)).None? ==>
        status == Unauthorized && storage.State() == old(storage.State())
      ensures old(GetCheckOwner(ownerName, passphraseHash)).Some? && (data.None? || data.value == []) ==>
        status == BadRequest && storage.State() == old(storage.State())
      ensures old(GetCheckOwner(ownerName, passphraseHash)).Some? && data.Some? && data.value != [] ==>
        var start := if modifiedIntervalStart.Some? then parse(modifiedIntervalStart.value) else None;
        var end := if modifiedIntervalEnd.Some? then parse(modifiedIntervalEnd.value) else None;
        var o := old(GetCheckOwner(ownerName, passphraseHash)).value;
        if start.None? || end.None? then
          status == BadRequest && storage.State() == old(storage.State())
        else if TimestampTaken(old(storage.snapshots), stampedAt) then
          status == ServerError && storage.State() == old(storage.State())
        else
          && status == NoContent
          && storage.State() == old(storage.State()).(
               owners := Touch(old(storage.owners), o.id, seenAt),
               snapshots := old(storage.snapshots) + [Snapshot(old(storage.nextSnapshotId), stampedAt, Partial,
                                                                start, end, o.id, data.value)],
               nextSnapshotId := old(storage.nextSnapshotId) + 1)
      ensures Valid(storage.State())
    {
      var owner := GetCheckOwner(ownerName, passphraseHash);
      if owner.None? {
        return Unauthorized;
      }
      if data.None? || |data.value| == 0 {
        return BadRequest;
      }
      var dtStart := if modifiedIntervalStart.Some? then parse(modifiedIntervalStart.value) else None;
      var dtEnd := if modifiedIntervalEnd.Some? then parse(modifiedIntervalEnd.value) else None;
      if dtStart.None? || dtEnd.None? {
        return BadRequest;
      }
      var saved := AddSnapshotInternal(ownerName, Partial, dtStart, dtEnd, data.value, stampedAt, seenAt);
      return if saved then NoContent else ServerError;
    }

    /**
     * `AddFullSnapshot`: 401 for bad credentials, then 400 for a missing or
     * empty body; otherwise the full snapshot, without bounds, is added
     * (204), or the save throws on a taken timestamp (500).
     */
    method AddFullSnapshot(ownerName: string, passphraseHash: string, data: Option<seq<byte>>,
                           stampedAt: int, seenAt: int) returns (status: Status)
      requires Valid(storage.State())
      modifies storage
      ensures old(GetCheckOwner(ownerName, passphraseHash)).None? ==>
        status == Unauthorized && storage.State() == old(storage.State())
      ensures old(GetCheckOwner(ownerName, passphraseHash)).Some? && (data.None? || data.value == []) ==>
        status == BadRequest && storage.State() == old(storage.State())
      ensures old(GetCheckOwner(ownerName, passphraseHash)).Some? && data.Some? && data.value != [] ==>
        var o := old(GetCheckOwner(ownerName, passphraseHash)).value;
        if TimestampTaken(old(storage.snapshots), stampedAt) then
          status == ServerError && storage.State() == old(storage.State())
        else
          && status == NoContent
          && storage.State() == old(storage.State()).(
               owners := Touch(old(storage.owners), o.id, seenAt),
               snapshots := old(storage.snapshots) + [Snapshot(old(storage.nextSnapshotId), stampedAt, Full,
                                                                None, None, o.id, data.value)],
               nextSnapshotId := old(storage.nextSnapshotId) + 1)
      ensures Valid(storage.State())
    {
      var owner := GetCheckOwner(ownerName, passphraseHash);
      if owner.None? {
        return Unauthorized;
      }
      if data.None? || |data.value| == 0 {
        return BadRequest;
      }
      var saved := AddSnapshotInternal(ownerName, Full, None, None, data.value, stampedAt, seenAt);
      return if saved then NoContent else ServerError;
    }

    /**
     * `GetAvaliableSnapshots`: 401 for bad credentials; otherwise the
     * owner's `LastSeen` becomes `now` and the answer is 200 with one
     * record per snapshot of the owner.
     */
    method GetAvaliableSnapshots(ownerName: string, passphraseHash: string, now: int)
      returns (status: Status, listing: seq<SnapshotInfo>)
      requires Valid(storage.State())
      modifies storage
      ensures old(GetCheckOwner(ownerName, passphraseHash)).None? ==>
        status == Unauthorized && listing == [] && storage.State() == old(storage.State())
      ensures old(GetCheckOwner(ownerName, passphraseHash)).Some? ==>
        var o := old(GetCheckOwner(ownerName, passphraseHash)).value;
        && status == Ok
        && listing == Listing(SnapshotsOf(old(storage.snapshots), o.id))
        && storage.State() == old(storage.State()).(owners := Touch(old(storage.owners), o.id, now))
      ensures Valid(storage.State())
    {
      var owner := GetCheckOwner(ownerName, passphraseHash);
      if owner.None? {
        return Unauthorized, [];
      }
      var snapshots := SnapshotsOf(storage.snapshots, owner.value.id);
      var _ := UpdateOwnerLastSeen(owner, now);
      return Ok, Listing(snapshots);
    }

    /**
     * `GetSnapshotData`: 401 for bad credentials; otherwise `LastSeen`
     * becomes `now`, and the blob of the snapshot with that id is returned
     * (200), or 404 when no snapshot anywhere in the store has that id (as
     * for every negative id).
     * The snapshot need not be the caller's.
     */
    method GetSnapshotData(ownerName: string, passphraseHash: string, id: int, now: int)
      returns (status: Status, data: seq<byte>)
      requires Valid(storage.State())
      modifies storage
      ensures old(GetCheckOwner(ownerName, passphraseHash)).None? ==>
        status == Unauthorized && data == [] && storage.State() == old(storage.State())
      ensures old(GetCheckOwner(ownerName, passphraseHash)).Some? ==>
        var o := old(GetCheckOwner(ownerName, passphraseHash)).value;
        && storage.State() == old(storage.State()).(owners := Touch(old(storage.owners), o.id, now))
        && (status == NotFound <==> forall i :: 0 <= i < |storage.snapshots| ==> storage.snapshots[i].id != id)
        && (status == Ok ==> exists x :: x in storage.snapshots && x.id == id && x.data == data)
        && (status == Ok || status == NotFound)
      ensures Valid(storage.State())
    {
      var owner := GetCheckOwner(ownerName, passphraseHash);
      if owner.None? {
        return Unauthorized, [];
      }
      var _ := UpdateOwnerLastSeen(owner, now);
      var snapshot := FindSnapshot(storage.snapshots, id);
      if snapshot.None? {
        return NotFound, [];
      }
      return Ok, snapshot.value.data;
    }
  }

  /** A name just appended under a fresh name is found as that last row. */
  lemma FindOwnerLast(owners: seq<Owner>, o: Owner)
    requires FindOwner(owners, o.name).None?
    ensures FindOwner(owners + [o], o.name) == Some(o)
  {
    if owners != [] {
      assert (owners + [o])[1..] == owners[1..] + [o];
      FindOwnerLast(owners[1..], o);
    }
  }

  // --------------------------------------------- whose blob is served

  /** The lookup `GetSnapshotData` performs: by id over the whole table. */
  function DataLookup(s: StoreState, owner: Owner, id: int): (r: Option<Snapshot>)
    ensures r.Some? ==> r.value in s.snapshots && r.value.id == id
  {
    FindSnapshot(s.snapshots, id)
  }

  /** The lookup restricted to the caller's own snapshots. */
  function DataLookupIntended(s: StoreState, owner: Owner, id: int): (r: Option<Snapshot>)
    ensures r.Some? ==> r.value in s.snapshots && r.value.id == id && r.value.ownerId == owner.id
    ensures r.None? <==> forall x :: x in s.snapshots && x.id == id ==> x.ownerId != owner.id
  {
    FindSnapshot(SnapshotsOf(s.snapshots, owner.id), id)
  }

  /**
   * Any authenticated owner is served any other owner's blob by its id:
   * with a snapshot of `b` in the store, `a` (another owner) gets it,
   * while the restricted lookup answers 404.
   */
  lemma ForeignBlobServed(s: StoreState, a: Owner, x: Snapshot)
    requires Valid(s) && x in s.snapshots && x.ownerId != a.id
    ensures DataLookup(s, a, x.id) == Some(x)
    ensures DataLookupIntended(s, a, x.id).None?
  {
    var r := DataLookup(s, a, x.id);
    var i :| 0 <= i < |s.snapshots| && s.snapshots[i] == x;
    InjectiveKeyDetermines(s.snapshots, SnapshotKey, x, r.value);
  }
}
