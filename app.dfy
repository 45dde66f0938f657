/**
 * The driver application: the store of schedules and unsynced check-in
 * records, the offline queue (`SyncManager.sync`, `SyncManager.pushRecord`),
 * the status toggle of a schedule card (`UI.toggleCheck`, `UI.updateStatus`)
 * and the list filters behind the setup and schedule screens.
 *
 * The network is an oracle: `Sync` is given, for each record it posts, what
 * `API.post` did and whether `navigator.onLine` held after a failure. The
 * clock is a parameter (`now` stands for `Date.now()`).
 */
module DriverApp {
  import opened Common

  /** A row of the day's schedule as the server sends it. */
  datatype Schedule = Schedule(
    scheduleId: string,
    userName: string,
    kind: string,                 // `type`: 迎え (pickup) or 送り (drop-off)
    status: Option<string>,
    note: Option<string>,
    vehicleId: Option<string>,
    scheduledTime: string)

  /** A facility (事業所) of the setup screen. */
  datatype Facility = Facility(id: string, name: string, isDefault: bool)

  /** A vehicle (車両) of the setup screen. */
  datatype Vehicle = Vehicle(id: string, name: string, facilityId: Option<string>)

  /** The body of a check-in that `updateStatus` queues. */
  datatype CheckIn = CheckIn(
    scheduleId: string,
    status: Option<string>,
    note: Option<string>,
    date: string,
    facilityId: Option<string>,
    vehicleId: Option<string>,
    driver: string)

  /** A queued check-in, stamped by `pushRecord`; the stamp is its key in the queue. */
  datatype PendingRecord = PendingRecord(checkIn: CheckIn, timestamp: int)

  /** What one `API.post('checkIn', record)` did. */
  datatype PostOutcome =
    | Delivered
    | Failed(onLine: bool)       // the post threw; `navigator.onLine` right after

  /** `Store`: the data and status the application keeps between screens. */
  class Store {
    var facilities: seq<Facility>
    var vehicles: seq<Vehicle>
    var schedules: seq<Schedule>
    var pendingRecords: seq<PendingRecord>
    var currentFacility: Option<string>
    var currentVehicle: Option<string>
    var currentDate: string
    var isOffline: bool

    /** The initial store: nothing loaded, nothing selected. */
    constructor(today: string, onLine: bool)
      ensures facilities == [] && vehicles == [] && schedules == [] && pendingRecords == []
      ensures currentFacility == None && currentVehicle == None
      ensures currentDate == today && isOffline == !onLine
    {
      facilities := [];
      vehicles := [];
      schedules := [];
      pendingRecords := [];
      currentFacility := None;
      currentVehicle := None;
      currentDate := today;
      isOffline := !onLine;
    }
  }

  // ---------------------------------------------------------------------
  // The offline queue

  /** `pending.filter(r => r.timestamp !== ts)`: the queue after `ts` was delivered. */
  function RemoveStamp(pending: seq<PendingRecord>, ts: int): seq<PendingRecord>
  {
    Filter(pending, (r: PendingRecord) => r.timestamp != ts)
  }

  /** The records whose stamp is not in `stamps`, in queue order. */
  function Kept(pending: seq<PendingRecord>, stamps: set<int>): seq<PendingRecord>
  {
    Filter(pending, (r: PendingRecord) => r.timestamp !in stamps)
  }

  /** What a whole `sync` walk did: the queue it left, and how many records it posted. */
  datatype SyncRun = SyncRun(pending: seq<PendingRecord>, posts: nat)

  /**
   * The walk of `sync` over the snapshot `queue`, starting from the queue
   * `pending`: a delivered record removes every record with its stamp, a
   * failure changes nothing, and a failure while offline ends the walk.
   */
  function Walk(pending: seq<PendingRecord>, queue: seq<PendingRecord>, outcomes: seq<PostOutcome>): (r: SyncRun)
    requires |outcomes| >= |queue|
    ensures r.posts <= |queue|
    ensures queue != [] ==> r.posts > 0
    decreases |queue|
  {
    if queue == [] then SyncRun(pending, 0)
    else
      var rest :=
        match outcomes[0]
        case Delivered => Walk(RemoveStamp(pending, queue[0].timestamp), queue[1..], outcomes[1..])
        case Failed(onLine) => if onLine then Walk(pending, queue[1..], outcomes[1..]) else SyncRun(pending, 0);
      SyncRun(rest.pending, rest.posts + 1)
  }

  /** The stamps of the records delivered before the walk stopped. */
  function DeliveredStamps(queue: seq<PendingRecord>, outcomes: seq<PostOutcome>): set<int>
    requires |outcomes| >= |queue|
    decreases |queue|
  {
    if queue == [] then {}
    else
      match outcomes[0]
      case Delivered => {queue[0].timestamp} + DeliveredStamps(queue[1..], outcomes[1..])
      case Failed(onLine) => if onLine then DeliveredStamps(queue[1..], outcomes[1..]) else {}
  }

  /**
   * `SyncManager.sync`. Returns the records it posted, in the order it
   * posted them; `outcomes[i]` is what the i-th post did.
   */
  method Sync(store: Store, outcomes: seq<PostOutcome>) returns (posted: seq<PendingRecord>)
    requires |outcomes| >= |store.pendingRecords|
    modifies store
    ensures old(store.isOffline) ==> posted == [] && store.pendingRecords == old(store.pendingRecords)
    ensures !old(store.isOffline) ==>
      var run := Walk(old(store.pendingRecords), old(store.pendingRecords), outcomes);
      store.pendingRecords == run.pending && posted == old(store.pendingRecords)[..run.posts]
    ensures store.schedules == old(store.schedules) && store.facilities == old(store.facilities)
    ensures store.vehicles == old(store.vehicles) && store.isOffline == old(store.isOffline)
    ensures store.currentFacility == old(store.currentFacility)
    ensures store.currentVehicle == old(store.currentVehicle)
    ensures store.currentDate == old(store.currentDate)
  {
    posted := [];
    if store.isOffline || |store.pendingRecords| == 0 {
      return;
    }
    var queue := store.pendingRecords;
    var i := 0;
    while i < |queue|
      invariant 0 <= i <= |queue| && posted == queue[..i]
      invariant var w := Walk(store.pendingRecords, queue[i..], outcomes[i..]);
        Walk(queue, queue, outcomes) == SyncRun(w.pending, i + w.posts)
      invariant store.schedules == old(store.schedules) && store.facilities == old(store.facilities)
      invariant store.vehicles == old(store.vehicles) && store.isOffline == old(store.isOffline)
      invariant store.currentFacility == old(store.currentFacility)
      invariant store.currentVehicle == old(store.currentVehicle)
      invariant store.currentDate == old(store.currentDate)
    {
      var record := queue[i];
      posted := posted + [record];
      assert queue[i..][0] == record && queue[i..][1..] == queue[i + 1..];
      assert outcomes[i..][0] == outcomes[i] && outcomes[i..][1..] == outcomes[i + 1..];
      match outcomes[i] {
        case Delivered =>
          store.pendingRecords := RemoveStamp(store.pendingRecords, record.timestamp);
        case Failed(onLine) =>
          if !onLine {
            assert posted == queue[..i + 1];
            return;
          }
      }
      i := i + 1;
    }
  }

  /**
   * `SyncManager.pushRecord`: stamps the record with the clock and appends it.
   * The `sync` it then starts is a separate call to `Sync`.
   */
  method PushRecord(store: Store, checkIn: CheckIn, now: int)
    modifies store
    ensures store.pendingRecords == old(store.pendingRecords) + [PendingRecord(checkIn, now)]
    ensures store.schedules == old(store.schedules) && store.facilities == old(store.facilities)
    ensures store.vehicles == old(store.vehicles) && store.isOffline == old(store.isOffline)
    ensures store.currentFacility == old(store.currentFacility)
    ensures store.currentVehicle == old(store.currentVehicle)
    ensures store.currentDate == old(store.currentDate)
  {
    store.pendingRecords := store.pendingRecords + [PendingRecord(checkIn, now)];
  }

  /** Removing one stamp keeps exactly the records with another stamp. */
  lemma {:induction false} RemoveStampKept(pending: seq<PendingRecord>, ts: int)
    ensures RemoveStamp(pending, ts) == Kept(pending, {ts})
  {
    if pending != [] {
      RemoveStampKept(pending[1..], ts);
    }
  }

  /** Keeping twice is keeping once, outside both sets of stamps. */
  lemma {:induction false} KeptKept(pending: seq<PendingRecord>, a: set<int>, b: set<int>)
    ensures Kept(Kept(pending, a), b) == Kept(pending, a + b)
  {
    if pending != [] {
      KeptKept(pending[1..], a, b);
      var head := if pending[0].timestamp !in a then [pending[0]] else [];
      assert Kept(pending, a) == head + Kept(pending[1..], a);
      FilterAppend(head, Kept(pending[1..], a), (r: PendingRecord) => r.timestamp !in b);
    }
  }

  /**
   * The queue a walk leaves is the starting queue without every record
   * whose stamp was delivered: failures remove nothing.
   */
  lemma {:induction false} WalkKeeps(pending: seq<PendingRecord>, queue: seq<PendingRecord>, outcomes: seq<PostOutcome>)
    requires |outcomes| >= |queue|
    ensures Walk(pending, queue, outcomes).pending == Kept(pending, DeliveredStamps(queue, outcomes))
    decreases |queue|
  {
    if queue == [] {
      KeptNothing(pending);
    } else {
      match outcomes[0]
      case Delivered =>
        var t := queue[0].timestamp;
        WalkKeeps(RemoveStamp(pending, t), queue[1..], outcomes[1..]);
        RemoveStampKept(pending, t);
        KeptKept(pending, {t}, DeliveredStamps(queue[1..], outcomes[1..]));
      case Failed(onLine) =>
        if onLine {
          WalkKeeps(pending, queue[1..], outcomes[1..]);
        } else {
          KeptNothing(pending);
        }
    }
  }

  /** With no stamp delivered, every record is kept. */
  lemma {:induction false} KeptNothing(pending: seq<PendingRecord>)
    ensures Kept(pending, {}) == pending
  {
    if pending != [] {
      KeptNothing(pending[1..]);
    }
  }

  /**
   * After `sync`, a record is still queued exactly when it was queued before
   * and no delivered record shares its stamp; the queue keeps its order and
   * gains nothing.
   */
  lemma SyncOutcome(pending: seq<PendingRecord>, outcomes: seq<PostOutcome>, x: PendingRecord)
    requires |outcomes| >= |pending|
    ensures var after := Walk(pending, pending, outcomes).pending;
      IsSubsequence(after, pending)
      && (x in after <==> x in pending && x.timestamp !in DeliveredStamps(pending, outcomes))
  {
    WalkKeeps(pending, pending, outcomes);
    FilterIsSubsequence(pending, (r: PendingRecord) => r.timestamp !in DeliveredStamps(pending, outcomes));
    FilterMembership(pending, (r: PendingRecord) => r.timestamp !in DeliveredStamps(pending, outcomes), x);
  }

  /**
   * A stamp counts as delivered exactly when a record with that stamp was
   * posted with success before the walk stopped.
   */
  lemma {:induction false} DeliveredStampsIff(pending: seq<PendingRecord>, queue: seq<PendingRecord>, outcomes: seq<PostOutcome>, t: int)
    requires |outcomes| >= |queue|
    ensures t in DeliveredStamps(queue, outcomes)
      <==> exists j :: 0 <= j < Walk(pending, queue, outcomes).posts && outcomes[j].Delivered? && queue[j].timestamp == t
    decreases |queue|
  {
    if queue != [] && outcomes[0] != Failed(false) {
      var p' := if outcomes[0] == Delivered then RemoveStamp(pending, queue[0].timestamp) else pending;
      DeliveredStampsIff(p', queue[1..], outcomes[1..], t);
      var rest := Walk(p', queue[1..], outcomes[1..]).posts;
      assert Walk(pending, queue, outcomes).posts == rest + 1;
      if exists j :: 0 <= j < rest + 1 && outcomes[j].Delivered? && queue[j].timestamp == t {
        var j :| 0 <= j < rest + 1 && outcomes[j].Delivered? && queue[j].timestamp == t;
        if j > 0 {
          assert outcomes[1..][j - 1].Delivered? && queue[1..][j - 1].timestamp == t;
        }
      }
      if exists j :: 0 <= j < rest && outcomes[1..][j].Delivered? && queue[1..][j].timestamp == t {
        var j :| 0 <= j < rest && outcomes[1..][j].Delivered? && queue[1..][j].timestamp == t;
        assert outcomes[j + 1].Delivered? && queue[j + 1].timestamp == t;
      }
    }
  }

  /**
   * The walk posts the whole snapshot unless a post fails while offline;
   * then it stops right after that post. Every earlier failure found the
   * client online.
   */
  lemma {:induction false} WalkStops(pending: seq<PendingRecord>, queue: seq<PendingRecord>, outcomes: seq<PostOutcome>)
    requires |outcomes| >= |queue|
    ensures var n := Walk(pending, queue, outcomes).posts;
      n <= |queue| && (queue != [] ==> n > 0)
      && (forall j :: 0 <= j < n - 1 ==> outcomes[j] != Failed(false))
      && (n < |queue| ==> outcomes[n - 1] == Failed(false))
    decreases |queue|
  {
    if queue != [] && outcomes[0] != Failed(false) {
      var p' := if outcomes[0] == Delivered then RemoveStamp(pending, queue[0].timestamp) else pending;
      WalkStops(p', queue[1..], outcomes[1..]);
      var n := Walk(pending, queue, outcomes).posts;
      assert n == Walk(p', queue[1..], outcomes[1..]).posts + 1;
      forall j | 0 <= j < n - 1
        ensures outcomes[j] != Failed(false)
      {
        if j > 0 {
          assert outcomes[j] == outcomes[1..][j - 1];
        }
      }
      if n < |queue| {
        assert outcomes[n - 1] == outcomes[1..][n - 2];
      }
    }
  }

  /**
   * Two records that share a stamp leave together: delivering the first
   * removes the second as well, even when the second was never posted.
   */
  lemma StampCollisionDropsBoth(a: PendingRecord, b: PendingRecord)
    requires a != b && a.timestamp == b.timestamp
    ensures Walk([a, b], [a, b], [Delivered, Failed(false)]).pending == []
    ensures Walk([a, b], [a, b], [Delivered, Failed(false)]).posts == 2
  {
    var outcomes := [Delivered, Failed(false)];
    assert [a, b][1..] == [b] && outcomes[1..] == [Failed(false)];
    assert DeliveredStamps([a, b], outcomes) == {a.timestamp};
    var after := Walk([a, b], [a, b], outcomes).pending;
    if after != [] {
      SyncOutcome([a, b], outcomes, after[0]);
    }
  }

  // ---------------------------------------------------------------------
  // Status toggle

  /** `schedules.find(item => item.scheduleId === id)`, as the index found. */
  function FindSchedule(schedules: seq<Schedule>, id: string): (r: Option<nat>)
    ensures r.Some? ==> r.value < |schedules| && schedules[r.value].scheduleId == id
    ensures r.Some? ==> forall j :: 0 <= j < r.value ==> schedules[j].scheduleId != id
    ensures r.None? ==> forall j :: 0 <= j < |schedules| ==> schedules[j].scheduleId != id
  {
    FindFirst(schedules, (s: Schedule) => s.scheduleId == id)
  }

  /** The status a tap on the check button sets: 乗車済 for a pickup, 降車済 otherwise. */
  function DoneStatus(kind: string): (r: string)
    ensures r == Boarded || r == Alighted
  {
    if kind == Pickup then Boarded else Alighted
  }

  /** `s.status === doneStatus ? null : doneStatus`. */
  function ToggledStatus(kind: string, status: Option<string>): (r: Option<string>)
    ensures r == None || r == Some(DoneStatus(kind))
  {
    if status == Some(DoneStatus(kind)) then None else Some(DoneStatus(kind))
  }

  /** A pickup is checked as boarded, anything else as alighted. */
  lemma DoneStatusByKind(kind: string)
    ensures kind == Pickup ==> DoneStatus(kind) == Boarded
    ensures kind != Pickup ==> DoneStatus(kind) == Alighted
    ensures DoneStatus(kind) == Boarded || DoneStatus(kind) == Alighted
  {
  }

  /**
   * The toggle clears the status exactly when it was the done status, and
   * otherwise sets the done status.
   */
  lemma ToggledStatusIff(kind: string, status: Option<string>)
    ensures ToggledStatus(kind, status) == None <==> status == Some(DoneStatus(kind))
    ensures ToggledStatus(kind, status) != None ==> ToggledStatus(kind, status) == Some(DoneStatus(kind))
  {
  }

  /** Tapping twice restores an empty or done status. */
  lemma ToggleTwice(kind: string, status: Option<string>)
    requires status == None || status == Some(DoneStatus(kind))
    ensures ToggledStatus(kind, ToggledStatus(kind, status)) == status
  {
  }

  /** Any other status (欠席, キャンセル, ...) becomes done, and a second tap clears it. */
  lemma ToggleTwiceFromOther(kind: string, status: Option<string>)
    requires status != None && status != Some(DoneStatus(kind))
    ensures ToggledStatus(kind, status) == Some(DoneStatus(kind))
    ensures ToggledStatus(kind, ToggledStatus(kind, status)) == None
  {
  }

  /** The schedule after `updateStatus`: the status always, the note only when one is given. */
  function WithStatus(s: Schedule, status: Option<string>, note: Option<string>): (r: Schedule)
    ensures r.status == status
    ensures r.note == (if note.Some? then note else s.note)
    ensures r.(status := s.status, note := s.note) == s
  {
    s.(status := status, note := if note.Some? then note else s.note)
  }

  /** The record `updateStatus` queues for a changed schedule. */
  function CheckInFor(store: Store, id: string, status: Option<string>, note: Option<string>): CheckIn
    reads store
  {
    CheckIn(id, status, note, store.currentDate, store.currentFacility, store.currentVehicle, "Driver")
  }

  /**
   * `UI.updateStatus(id, status, note)`: the first schedule with that id
   * takes the status (and the note, when one is given), and one check-in is
   * queued; an unknown id changes nothing.
   */
  method UpdateStatus(store: Store, id: string, status: Option<string>, note: Option<string>, now: int)
    modifies store
    ensures match FindSchedule(old(store.schedules), id)
      case None =>
        store.schedules == old(store.schedules) && store.pendingRecords == old(store.pendingRecords)
      case Some(i) =>
        var s := WithStatus(old(store.schedules)[i], status, note);
        store.schedules == old(store.schedules)[i := s]
        && store.pendingRecords == old(store.pendingRecords) + [PendingRecord(CheckIn(id, status, s.note,
             old(store.currentDate), old(store.currentFacility), old(store.currentVehicle), "Driver"), now)]
    ensures store.facilities == old(store.facilities) && store.vehicles == old(store.vehicles)
    ensures store.isOffline == old(store.isOffline) && store.currentDate == old(store.currentDate)
    ensures store.currentFacility == old(store.currentFacility)
    ensures store.currentVehicle == old(store.currentVehicle)
  {
    var found := FindSchedule(store.schedules, id);
    if found.Some? {
      var i := found.value;
      var s := WithStatus(store.schedules[i], status, note);
      store.schedules := store.schedules[i := s];
      PushRecord(store, CheckInFor(store, id, status, s.note), now);
    }
  }

  /**
   * `UI.toggleCheck(id)`: the first schedule with that id flips between no
   * status and its done status, through `updateStatus` without a note.
   */
  method ToggleCheck(store: Store, id: string, now: int)
    modifies store
    ensures match FindSchedule(old(store.schedules), id)
      case None =>
        store.schedules == old(store.schedules) && store.pendingRecords == old(store.pendingRecords)
      case Some(i) =>
        var s := old(store.schedules)[i];
        var status := ToggledStatus(s.kind, s.status);
        store.schedules == old(store.schedules)[i := s.(status := status)]
        && store.pendingRecords == old(store.pendingRecords) + [PendingRecord(CheckIn(id, status, s.note,
             old(store.currentDate), old(store.currentFacility), old(store.currentVehicle), "Driver"), now)]
    ensures store.facilities == old(store.facilities) && store.vehicles == old(store.vehicles)
    ensures store.isOffline == old(store.isOffline) && store.currentDate == old(store.currentDate)
    ensures store.currentFacility == old(store.currentFacility)
    ensures store.currentVehicle == old(store.currentVehicle)
  {
    var found := FindSchedule(store.schedules, id);
    if found.None? {
      return;
    }
    var s := store.schedules[found.value];
    UpdateStatus(store, id, ToggledStatus(s.kind, s.status), None, now);
  }

  // ---------------------------------------------------------------------
  // Setup and schedule lists

  /**
   * The facility selected once `renderFacilities` has walked `facilities`
   * from selection `current`: a default facility is taken while nothing
   * (or the empty id) is selected.
   */
  function DefaultFacility(facilities: seq<Facility>, current: Option<string>): Option<string>
  {
    if facilities == [] then current
    else
      var f := facilities[0];
      DefaultFacility(facilities[1..], if f.isDefault && !Truthy(current) then Some(f.id) else current)
  }

  /** `UI.renderFacilities`, for the selection it may set. */
  method RenderFacilities(store: Store)
    modifies store
    ensures store.currentFacility == DefaultFacility(old(store.facilities), old(store.currentFacility))
    ensures store.facilities == old(store.facilities) && store.vehicles == old(store.vehicles)
    ensures store.schedules == old(store.schedules) && store.pendingRecords == old(store.pendingRecords)
    ensures store.isOffline == old(store.isOffline) && store.currentDate == old(store.currentDate)
    ensures store.currentVehicle == old(store.currentVehicle)
  {
    var i := 0;
    while i < |store.facilities|
      invariant 0 <= i <= |store.facilities|
      invariant DefaultFacility(store.facilities[i..], store.currentFacility)
        == DefaultFacility(old(store.facilities), old(store.currentFacility))
      invariant store.facilities == old(store.facilities) && store.vehicles == old(store.vehicles)
      invariant store.schedules == old(store.schedules) && store.pendingRecords == old(store.pendingRecords)
      invariant store.isOffline == old(store.isOffline) && store.currentDate == old(store.currentDate)
      invariant store.currentVehicle == old(store.currentVehicle)
    {
      var f := store.facilities[i];
      assert store.facilities[i..][0] == f && store.facilities[i..][1..] == store.facilities[i + 1..];
      if f.isDefault && !Truthy(store.currentFacility) {
        store.currentFacility := Some(f.id);
      }
      i := i + 1;
    }
  }

  /** A selection that is already made is kept. */
  lemma {:induction false} DefaultFacilityKeeps(facilities: seq<Facility>, current: Option<string>)
    requires Truthy(current)
    ensures DefaultFacility(facilities, current) == current
  {
    if facilities != [] {
      DefaultFacilityKeeps(facilities[1..], current);
    }
  }

  /** Without a default facility the selection stays as it was. */
  lemma {:induction false} DefaultFacilityNone(facilities: seq<Facility>, current: Option<string>)
    requires forall k :: 0 <= k < |facilities| ==> !facilities[k].isDefault
    ensures DefaultFacility(facilities, current) == current
  {
    if facilities != [] {
      DefaultFacilityNone(facilities[1..], current);
    }
  }

  /**
   * With nothing selected, the first default facility with a non-empty id
   * is selected (defaults with an empty id leave the selection falsy).
   */
  lemma {:induction false} DefaultFacilityPicksFirst(facilities: seq<Facility>, current: Option<string>, j: nat)
    requires !Truthy(current)
    requires j < |facilities| && facilities[j].isDefault && facilities[j].id != ""
    requires forall k :: 0 <= k < j ==> !facilities[k].isDefault || facilities[k].id == ""
    ensures DefaultFacility(facilities, current) == Some(facilities[j].id)
  {
    var f := facilities[0];
    var next := if f.isDefault && !Truthy(current) then Some(f.id) else current;
    if j == 0 {
      DefaultFacilityKeeps(facilities[1..], next);
    } else {
      forall k | 0 <= k < j - 1
        ensures !facilities[1..][k].isDefault || facilities[1..][k].id == ""
      {
        assert facilities[1..][k] == facilities[k + 1];
      }
      DefaultFacilityPicksFirst(facilities[1..], next, j - 1);
    }
  }

  /** With nothing selected and only empty-id defaults, the selection stays falsy. */
  lemma {:induction false} DefaultFacilityEmptyIds(facilities: seq<Facility>, current: Option<string>)
    requires !Truthy(current)
    requires forall k :: 0 <= k < |facilities| && facilities[k].isDefault ==> facilities[k].id == ""
    ensures !Truthy(DefaultFacility(facilities, current))
  {
    if facilities != [] {
      var f := facilities[0];
      DefaultFacilityEmptyIds(facilities[1..], if f.isDefault then Some(f.id) else current);
    }
  }

  /** The vehicle list of the setup screen is narrowed to the facility. */
  predicate VehicleShown(v: Vehicle, facilityId: Option<string>, showAll: bool)
  {
    showAll || !Truthy(facilityId) || v.facilityId == facilityId
  }

  /** The vehicles `renderVehicles(showAll)` lists, in their order. */
  function VisibleVehicles(vehicles: seq<Vehicle>, facilityId: Option<string>, showAll: bool): (r: seq<Vehicle>)
    ensures |r| <= |vehicles|
  {
    if !showAll && Truthy(facilityId) then Filter(vehicles, (v: Vehicle) => v.facilityId == facilityId)
    else vehicles
  }

  /** A vehicle is listed exactly when it belongs to the selected facility, unless all are shown. */
  lemma VisibleVehiclesMembership(vehicles: seq<Vehicle>, facilityId: Option<string>, showAll: bool, v: Vehicle)
    ensures v in VisibleVehicles(vehicles, facilityId, showAll) <==> v in vehicles && VehicleShown(v, facilityId, showAll)
    ensures IsSubsequence(VisibleVehicles(vehicles, facilityId, showAll), vehicles)
  {
    var p := (w: Vehicle) => w.facilityId == facilityId;
    FilterMembership(vehicles, p, v);
    FilterIsSubsequence(vehicles, p);
    if showAll || !Truthy(facilityId) {
      SubsequenceRefl(vehicles);
    }
  }

  /** The vehicle list is exactly the vehicles the facility rule shows, each as often as it occurs. */
  lemma VisibleVehiclesExact(vehicles: seq<Vehicle>, facilityId: Option<string>, showAll: bool)
    ensures VisibleVehicles(vehicles, facilityId, showAll)
      == Filter(vehicles, (w: Vehicle) => VehicleShown(w, facilityId, showAll))
  {
    var shown := (w: Vehicle) => VehicleShown(w, facilityId, showAll);
    if showAll || !Truthy(facilityId) {
      FilterAll(vehicles, shown);
    } else {
      FilterExt(vehicles, (w: Vehicle) => w.facilityId == facilityId, shown);
    }
  }

  /** Every sequence is a subsequence of itself. */
  lemma {:induction false} SubsequenceRefl<T>(s: seq<T>)
    ensures IsSubsequence(s, s)
  {
    if s != [] {
      SubsequenceRefl(s[1..]);
    }
  }

  /** A schedule card is shown for the selected vehicle, or when no vehicle is assigned. */
  predicate ForVehicle(s: Schedule, currentVehicle: Option<string>)
  {
    s.vehicleId == currentVehicle || !Truthy(s.vehicleId)
  }

  /** The tab `filterType` admits the schedule. */
  predicate OnTab(s: Schedule, filterType: string)
  {
    if filterType == "pickup" then s.kind == Pickup
    else if filterType == "dropoff" then s.kind == DropOff
    else if filterType == "unfinished" then !Truthy(s.status)
    else true
  }

  /** The schedules `renderSchedule(filterType)` lists, in their order. */
  function VisibleSchedules(schedules: seq<Schedule>, currentVehicle: Option<string>, filterType: string): (r: seq<Schedule>)
    ensures |r| <= |schedules|
  {
    var mine := Filter(schedules, (s: Schedule) => s.vehicleId == currentVehicle || !Truthy(s.vehicleId));
    if filterType == "pickup" then Filter(mine, (s: Schedule) => s.kind == Pickup)
    else if filterType == "dropoff" then Filter(mine, (s: Schedule) => s.kind == DropOff)
    else if filterType == "unfinished" then Filter(mine, (s: Schedule) => !Truthy(s.status))
    else mine
  }

  /** A card is listed exactly when it is for this vehicle and on the tab; the cards keep their order. */
  lemma VisibleSchedulesMembership(schedules: seq<Schedule>, currentVehicle: Option<string>, filterType: string, s: Schedule)
    ensures s in VisibleSchedules(schedules, currentVehicle, filterType)
      <==> s in schedules && ForVehicle(s, currentVehicle) && OnTab(s, filterType)
    ensures IsSubsequence(VisibleSchedules(schedules, currentVehicle, filterType), schedules)
  {
    var mine := Filter(schedules, (x: Schedule) => x.vehicleId == currentVehicle || !Truthy(x.vehicleId));
    FilterMembership(schedules, (x: Schedule) => x.vehicleId == currentVehicle || !Truthy(x.vehicleId), s);
    FilterMembership(mine, (x: Schedule) => x.kind == Pickup, s);
    FilterMembership(mine, (x: Schedule) => x.kind == DropOff, s);
    FilterMembership(mine, (x: Schedule) => !Truthy(x.status), s);
    FilterIsSubsequence(schedules, (x: Schedule) => x.vehicleId == currentVehicle || !Truthy(x.vehicleId));
    var shown := VisibleSchedules(schedules, currentVehicle, filterType);
    if filterType == "pickup" {
      FilterIsSubsequence(mine, (x: Schedule) => x.kind == Pickup);
    } else if filterType == "dropoff" {
      FilterIsSubsequence(mine, (x: Schedule) => x.kind == DropOff);
    } else if filterType == "unfinished" {
      FilterIsSubsequence(mine, (x: Schedule) => !Truthy(x.status));
    } else {
      SubsequenceRefl(mine);
    }
    SubsequenceTrans(shown, mine, schedules);
  }

  /** The card list is exactly the schedules both rules admit, each as often as it occurs. */
  lemma VisibleSchedulesExact(schedules: seq<Schedule>, currentVehicle: Option<string>, filterType: string)
    ensures VisibleSchedules(schedules, currentVehicle, filterType)
      == Filter(schedules, (x: Schedule) => ForVehicle(x, currentVehicle) && OnTab(x, filterType))
  {
    var mineP := (x: Schedule) => x.vehicleId == currentVehicle || !Truthy(x.vehicleId);
    var both := (x: Schedule) => ForVehicle(x, currentVehicle) && OnTab(x, filterType);
    if filterType == "pickup" {
      FilterFilter(schedules, mineP, (x: Schedule) => x.kind == Pickup, both);
    } else if filterType == "dropoff" {
      FilterFilter(schedules, mineP, (x: Schedule) => x.kind == DropOff, both);
    } else if filterType == "unfinished" {
      FilterFilter(schedules, mineP, (x: Schedule) => !Truthy(x.status), both);
    } else {
      FilterExt(schedules, mineP, both);
    }
  }
}
