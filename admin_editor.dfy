/**
 * The bulk schedule editor of the administration screen: a draft list of
 * rows for one course, loaded from the day's schedules or from a template,
 * edited row by row, and turned into the payloads of `bulkUpdateSchedules`
 * and `createTemplate`. Answers to `confirm` and `prompt` and the result
 * of `getTemplates` are parameters.
 */
module AdminEditor {
  import opened Common
  import opened AdminData

  // ---------------------------------------------------------------------
  // Ordering by route

  /** `s.routeOrder || 99`: a missing or zero position sorts as 99. */
  function OrderKey(r: Row): int
  {
    if r.routeOrder.Some? && r.routeOrder.value != 0 then r.routeOrder.value else 99
  }

  predicate SortedByOrder(s: seq<Row>)
  {
    forall i, j :: 0 <= i < j < |s| ==> OrderKey(s[i]) <= OrderKey(s[j])
  }

  /** Places `x` before the first row whose key is not smaller. */
  function Insert(x: Row, s: seq<Row>): (r: seq<Row>)
    ensures |r| == |s| + 1 && x in r
  {
    if s == [] then [x]
    else if OrderKey(x) <= OrderKey(s[0]) then [x] + s
    else [s[0]] + Insert(x, s[1..])
  }

  /**
   * `schedules.sort((a, b) => (a.routeOrder || 99) - (b.routeOrder || 99))`:
   * `Array.prototype.sort` is stable, so rows with equal keys keep their order.
   */
  function SortByOrder(s: seq<Row>): (r: seq<Row>)
    ensures |r| == |s|
  {
    if s == [] then [] else Insert(s[0], SortByOrder(s[1..]))
  }

  /** The rows of `s` with key `k`, in their order. */
  function WithKey(s: seq<Row>, k: int): seq<Row>
  {
    Filter(s, (r: Row) => OrderKey(r) == k)
  }

  lemma {:induction false} InsertContents(x: Row, s: seq<Row>)
    ensures multiset(Insert(x, s)) == multiset(s) + multiset{x}
  {
    if s != [] && OrderKey(x) > OrderKey(s[0]) {
      InsertContents(x, s[1..]);
      assert s == [s[0]] + s[1..];
    }
  }

  lemma {:induction false} InsertSorted(x: Row, s: seq<Row>)
    requires SortedByOrder(s)
    ensures SortedByOrder(Insert(x, s))
  {
    if s != [] && OrderKey(x) > OrderKey(s[0]) {
      InsertSorted(x, s[1..]);
      InsertContents(x, s[1..]);
      var t := Insert(x, s[1..]);
      forall j | 0 <= j < |t|
        ensures OrderKey(s[0]) <= OrderKey(t[j])
      {
        assert t[j] in multiset(t);
        if t[j] != x {
          assert t[j] in s[1..];
        }
      }
      assert Insert(x, s) == [s[0]] + t;
    }
  }

  /** Inserting `x` adds it to the rows of its key, in front of them. */
  lemma {:induction false} InsertWithKey(x: Row, s: seq<Row>, k: int)
    ensures WithKey(Insert(x, s), k) == (if OrderKey(x) == k then [x] else []) + WithKey(s, k)
  {
    if s == [] {
    } else if OrderKey(x) <= OrderKey(s[0]) {
      assert ([x] + s)[1..] == s;
    } else {
      InsertWithKey(x, s[1..], k);
      assert ([s[0]] + Insert(x, s[1..]))[1..] == Insert(x, s[1..]);
    }
  }

  /**
   * Sorting by route order gives a sorted permutation that keeps the
   * relative order of the rows sharing a key.
   */
  lemma SortByOrderCorrect(s: seq<Row>, k: int)
    ensures SortedByOrder(SortByOrder(s))
    ensures multiset(SortByOrder(s)) == multiset(s)
    ensures WithKey(SortByOrder(s), k) == WithKey(s, k)
  {
    SortByOrderSorted(s);
    SortByOrderPermutes(s);
    SortByOrderStable(s, k);
  }

  lemma {:induction false} SortByOrderSorted(s: seq<Row>)
    ensures SortedByOrder(SortByOrder(s))
  {
    if s != [] {
      SortByOrderSorted(s[1..]);
      InsertSorted(s[0], SortByOrder(s[1..]));
    }
  }

  lemma {:induction false} SortByOrderPermutes(s: seq<Row>)
    ensures multiset(SortByOrder(s)) == multiset(s)
  {
    if s != [] {
      SortByOrderPermutes(s[1..]);
      InsertContents(s[0], SortByOrder(s[1..]));
      assert s == [s[0]] + s[1..];
    }
  }

  lemma {:induction false} SortByOrderStable(s: seq<Row>, k: int)
    ensures WithKey(SortByOrder(s), k) == WithKey(s, k)
  {
    if s != [] {
      SortByOrderStable(s[1..], k);
      InsertWithKey(s[0], SortByOrder(s[1..]), k);
    }
  }

  /** `(Store.data.schedules || []).filter(s => s.courseId === courseId)`. */
  function CourseRows(schedules: seq<Row>, courseId: string): seq<Row>
  {
    Filter(schedules, (s: Row) => s.courseId == Some(courseId))
  }

  /**
   * The draft `initEditor` builds for a course: exactly the schedules of the
   * course, ordered by route, rows of equal order as they came.
   */
  lemma CourseDraft(schedules: seq<Row>, courseId: string, k: int, r: Row)
    ensures var draft := SortByOrder(CourseRows(schedules, courseId));
      && SortedByOrder(draft)
      && (r in draft <==> r in schedules && r.courseId == Some(courseId))
      && multiset(draft) == multiset(CourseRows(schedules, courseId))
      && WithKey(draft, k) == WithKey(CourseRows(schedules, courseId), k)
  {
    SortByOrderCorrect(CourseRows(schedules, courseId), k);
    FilterMembership(schedules, (s: Row) => s.courseId == Some(courseId), r);
    assert r in SortByOrder(CourseRows(schedules, courseId)) <==> r in multiset(CourseRows(schedules, courseId));
  }

  // ---------------------------------------------------------------------
  // Row edits

  /** The row `addEmptyRow` appends to a draft of `n` rows. */
  function EmptyRow(n: nat): Row
  {
    Row(None, None, "", "", Pickup, "09:00", "", "", Some(n + 1), None)
  }

  /**
   * `s.splice(index, 1)`: a negative index counts from the end (and is
   * clamped to 0), an index past the end removes nothing.
   */
  function SpliceOne(s: seq<Row>, index: int): seq<Row>
  {
    var start := if index < 0 then (if |s| + index < 0 then 0 else |s| + index) else index;
    if start < |s| then s[..start] + s[start + 1..] else s
  }

  /** Removing at a valid index drops exactly that row and shifts the later ones down. */
  lemma SpliceOneAt(s: seq<Row>, index: int)
    requires 0 <= index < |s|
    ensures var r := SpliceOne(s, index);
      && |r| == |s| - 1
      && (forall j :: 0 <= j < index ==> r[j] == s[j])
      && (forall j :: index <= j < |r| ==> r[j] == s[j + 1])
      && multiset(r) + multiset{s[index]} == multiset(s)
  {
    assert s == s[..index] + [s[index]] + s[index + 1..];
  }

  /** An index past the end removes nothing; a negative one counts from the end. */
  lemma SpliceOneOutside(s: seq<Row>, index: int)
    ensures index >= |s| ==> SpliceOne(s, index) == s
    ensures -|s| <= index < 0 ==> SpliceOne(s, index) == SpliceOne(s, |s| + index)
    ensures index < -|s| && s != [] ==> SpliceOne(s, index) == s[1..]
  {
  }

  /** The cells of a draft row the editor table edits. */
  datatype Field = TimeField | TypeField | UserField | VehicleField

  /** The value of an editable cell. */
  function FieldValue(r: Row, f: Field): string
  {
    match f
    case TimeField => r.scheduledTime
    case TypeField => r.kind
    case UserField => r.userId
    case VehicleField => r.vehicleId
  }

  /** The 氏名 of the user with id `id`, or "" when there is none. */
  function UserName(users: seq<User>, id: string): string
  {
    match FindUser(users, id)
    case None => ""
    case Some(j) => users[j].name
  }

  /** The 車両名 of the vehicle with id `id`, or "" when there is none. */
  function VehicleName(vehicles: seq<Vehicle>, id: string): string
  {
    match FindVehicle(vehicles, id)
    case None => ""
    case Some(j) => vehicles[j].name
  }

  /** `item[field] = value` and the name lookups that follow it. */
  function UpdatedRow(r: Row, f: Field, value: string, users: seq<User>, vehicles: seq<Vehicle>): Row
  {
    match f
    case TimeField => r.(scheduledTime := value)
    case TypeField => r.(kind := value)
    case UserField => r.(userId := value, userName := UserName(users, value))
    case VehicleField => r.(vehicleId := value, vehicleName := VehicleName(vehicles, value))
  }

  /**
   * An edit sets the named cell, keeps the other cells, and touches only the
   * name that goes with a user or vehicle cell.
   */
  lemma UpdatedRowEffect(r: Row, f: Field, value: string, users: seq<User>, vehicles: seq<Vehicle>, g: Field)
    ensures var u := UpdatedRow(r, f, value, users, vehicles);
      && FieldValue(u, f) == value
      && (g != f ==> FieldValue(u, g) == FieldValue(r, g))
      && u.userName == (if f == UserField then UserName(users, value) else r.userName)
      && u.vehicleName == (if f == VehicleField then VehicleName(vehicles, value) else r.vehicleName)
      && u.scheduleId == r.scheduleId && u.courseId == r.courseId
      && u.routeOrder == r.routeOrder && u.status == r.status
  {
  }

  /** The user name is the first matching user's 氏名, or "" when no user matches. */
  lemma UserNameFound(users: seq<User>, id: string)
    ensures (exists j :: 0 <= j < |users| && users[j].id == id) ==>
      exists j :: 0 <= j < |users| && users[j].id == id && UserName(users, id) == users[j].name
        && forall k :: 0 <= k < j ==> users[k].id != id
    ensures (forall j :: 0 <= j < |users| ==> users[j].id != id) ==> UserName(users, id) == ""
  {
    if FindUser(users, id).Some? {
      var j := FindUser(users, id).value;
      assert users[j].id == id && UserName(users, id) == users[j].name;
    }
  }

  // ---------------------------------------------------------------------
  // Templates

  /** The draft row built from the `index`-th item of a template. */
  function RowFromItem(item: TemplateItem, index: nat, users: seq<User>): Row
  {
    var name := match FindUser(users, item.userId)
      case None => item.userId
      case Some(j) => users[j].name;
    Row(None, None, item.userId, name, item.kind, item.time, "", "", Some(index + 1), None)
  }

  /** `template.items.map((item, index) => ...)`. */
  function TemplateRows(items: seq<TemplateItem>, users: seq<User>): (rows: seq<Row>)
    ensures |rows| == |items|
  {
    seq(|items|, i requires 0 <= i < |items| => RowFromItem(items[i], i, users))
  }

  /**
   * A template expands to one unsaved, vehicle-less row per item, numbered
   * from 1, named after the user or, failing that, after the user id.
   */
  lemma TemplateRowsShape(items: seq<TemplateItem>, users: seq<User>, i: nat)
    requires i < |items|
    ensures var r := TemplateRows(items, users)[i];
      && r.scheduleId == None && r.routeOrder == Some(i + 1)
      && r.vehicleId == "" && r.vehicleName == ""
      && r.userId == items[i].userId && r.kind == items[i].kind && r.scheduledTime == items[i].time
      && (FindUser(users, items[i].userId).None? ==> r.userName == items[i].userId)
      && (FindUser(users, items[i].userId).Some? ==> r.userName == UserName(users, items[i].userId))
  {
  }

  /** The items `saveAsTemplate` sends: the draft in order, numbered from 1. */
  function TemplateItems(draft: seq<Row>): (items: seq<TemplateItem>)
    ensures |items| == |draft|
  {
    seq(|draft|, i requires 0 <= i < |draft| => TemplateItem(draft[i].kind, draft[i].scheduledTime, draft[i].userId, i + 1))
  }

  /**
   * Saving a draft as a template and expanding that template gives back the
   * draft's users, kinds and times, in the same order and renumbered.
   */
  lemma TemplateRoundTrip(draft: seq<Row>, users: seq<User>, i: nat)
    requires i < |draft|
    ensures var r := TemplateRows(TemplateItems(draft), users);
      && |r| == |draft|
      && r[i].userId == draft[i].userId && r[i].kind == draft[i].kind
      && r[i].scheduledTime == draft[i].scheduledTime
      && r[i].routeOrder == Some(i + 1)
  {
  }

  /** What `loadFromTemplate` did. */
  datatype LoadOutcome =
    | NoTemplateSelected
    | DiscardDeclined
    | FetchFailed
    | TemplateNotFound
    | Loaded

  // ---------------------------------------------------------------------
  // Payloads

  /** The course's 事業所ID, or "" when the course is not found. */
  function GetFacilityIdForCourse(courses: seq<Course>, courseId: Option<string>): string
  {
    match FindCourse(courses, courseId)
    case None => ""
    case Some(j) => courses[j].facilityId
  }

  /** The facility is that of the first course with the id; "" when there is none. */
  lemma FacilityForCourse(courses: seq<Course>, courseId: Option<string>)
    ensures (forall j :: 0 <= j < |courses| ==> Some(courses[j].id) != courseId)
      ==> GetFacilityIdForCourse(courses, courseId) == ""
    ensures forall j ::
      (0 <= j < |courses| && Some(courses[j].id) == courseId
       && (forall k :: 0 <= k < j ==> Some(courses[k].id) != courseId))
      ==> GetFacilityIdForCourse(courses, courseId) == courses[j].facilityId
  {
  }

  /** One schedule of the `bulkUpdateSchedules` payload. */
  datatype PayloadRow = PayloadRow(
    scheduleId: Option<string>,
    userId: string,
    userName: string,
    kind: string,
    time: string,
    vehicleId: string,
    vehicleName: string,
    routeOrder: int,
    facilityId: string)

  /** A row lacks a user or a time (`!s.userId || !s.scheduledTime`). */
  predicate Incomplete(r: Row)
  {
    r.userId == "" || r.scheduledTime == ""
  }

  /** The draft mapped to payload rows, renumbered from 1 in list order. */
  function PayloadRows(draft: seq<Row>, facilityId: string): (rows: seq<PayloadRow>)
    ensures |rows| == |draft|
  {
    seq(|draft|, i requires 0 <= i < |draft| =>
      var s := draft[i];
      PayloadRow(s.scheduleId, s.userId, s.userName, s.kind, s.scheduledTime, s.vehicleId, s.vehicleName, i + 1, facilityId))
  }

  /** What `saveBulk` does: the request it posts, or why it stops. */
  datatype BulkOutcome =
    | NoCourse
    | MissingFields(row: nat)       // the first incomplete row; an alert is shown
    | SaveDeclined
    | BulkRequest(date: string, courseId: string, schedules: seq<PayloadRow>)

  /** What `saveAsTemplate` does: the request it posts, or why it stops. */
  datatype TemplateOutcome =
    | NoCourseSelected
    | NameCancelled
    | TemplateRequest(courseId: string, templateName: string, items: seq<TemplateItem>)

  /** `AdminManager`: the editor's draft and the course it belongs to. */
  class AdminManager {
    var draftSchedules: seq<Row>
    var currentEditCourseId: Option<string>

    constructor()
      ensures draftSchedules == [] && currentEditCourseId == None
    {
      draftSchedules := [];
      currentEditCourseId := None;
    }

    /**
     * `initEditor(courseId, reloadFromStore)`: selects the course and, when
     * one is given and a reload is asked for, replaces the draft by the
     * course's schedules sorted by route.
     */
    method InitEditor(courseId: Option<string>, reloadFromStore: bool, schedules: seq<Row>)
      modifies this
      ensures currentEditCourseId == courseId
      ensures draftSchedules ==
        if Truthy(courseId) && reloadFromStore then SortByOrder(CourseRows(schedules, courseId.value))
        else old(draftSchedules)
    {
      currentEditCourseId := courseId;
      if !Truthy(courseId) {
        return;
      }
      if reloadFromStore {
        var rows := CourseRows(schedules, courseId.value);
        draftSchedules := SortByOrder(rows);
      }
    }

    /** `addEmptyRow`: appends a blank pickup at 09:00, numbered after the last row. */
    method AddEmptyRow()
      modifies this
      ensures draftSchedules == old(draftSchedules) + [EmptyRow(|old(draftSchedules)|)]
      ensures currentEditCourseId == old(currentEditCourseId)
    {
      draftSchedules := draftSchedules + [EmptyRow(|draftSchedules|)];
    }

    /** `removeRow(index)`. */
    method RemoveRow(index: int)
      modifies this
      ensures draftSchedules == SpliceOne(old(draftSchedules), index)
      ensures currentEditCourseId == old(currentEditCourseId)
    {
      draftSchedules := SpliceOne(draftSchedules, index);
    }

    /**
     * `updateRow(index, field, value)`. Without a row at `index` the
     * assignment throws and nothing changes; `ok` is false then.
     */
    method UpdateRow(index: int, f: Field, value: string, users: seq<User>, vehicles: seq<Vehicle>) returns (ok: bool)
      modifies this
      ensures ok <==> 0 <= index < |old(draftSchedules)|
      ensures ok ==>
        draftSchedules == old(draftSchedules)[index := UpdatedRow(old(draftSchedules)[index], f, value, users, vehicles)]
      ensures !ok ==> draftSchedules == old(draftSchedules)
      ensures currentEditCourseId == old(currentEditCourseId)
    {
      if !(0 <= index < |draftSchedules|) {
        return false;
      }
      var item := draftSchedules[index];
      draftSchedules := draftSchedules[index := UpdatedRow(item, f, value, users, vehicles)];
      return true;
    }

    /**
     * `loadFromTemplate`: `confirmed` is the answer to the discard question
     * (asked only when the draft has rows), `fetched` the templates of the
     * course or None when fetching them failed.
     */
    method LoadFromTemplate(templateId: string, confirmed: bool, fetched: Option<seq<Template>>, users: seq<User>)
      returns (outcome: LoadOutcome)
      modifies this
      ensures outcome == NoTemplateSelected <==> templateId == ""
      ensures outcome == DiscardDeclined <==> templateId != "" && |old(draftSchedules)| > 0 && !confirmed
      ensures outcome == FetchFailed ==> fetched.None?
      ensures outcome == TemplateNotFound ==> fetched.Some? && FindTemplate(fetched.value, templateId).None?
      ensures outcome == Loaded <==>
        templateId != "" && (|old(draftSchedules)| == 0 || confirmed)
        && fetched.Some? && FindTemplate(fetched.value, templateId).Some?
      ensures outcome == Loaded ==>
        draftSchedules == TemplateRows(fetched.value[FindTemplate(fetched.value, templateId).value].items, users)
      ensures outcome != Loaded ==> draftSchedules == old(draftSchedules)
      ensures currentEditCourseId == old(currentEditCourseId)
    {
      if templateId == "" {
        return NoTemplateSelected;
      }
      if |draftSchedules| > 0 && !confirmed {
        return DiscardDeclined;
      }
      if fetched.None? {
        return FetchFailed;
      }
      var found := FindTemplate(fetched.value, templateId);
      if found.None? {
        return TemplateNotFound;
      }
      draftSchedules := TemplateRows(fetched.value[found.value].items, users);
      return Loaded;
    }

    /** `saveBulk`, up to the request it posts; `confirmed` answers the overwrite question. */
    function SaveBulk(confirmed: bool, date: string, courses: seq<Course>): (r: BulkOutcome)
      reads this
      ensures !Truthy(currentEditCourseId) ==> r == NoCourse
      ensures r.SaveDeclined? ==> !confirmed
      ensures Truthy(currentEditCourseId)
        && (forall j :: 0 <= j < |draftSchedules| ==> !Incomplete(draftSchedules[j]))
        ==> (r.BulkRequest? <==> confirmed) && (r.SaveDeclined? <==> !confirmed)
    {
      if !Truthy(currentEditCourseId) then NoCourse
      else match FindFirst(draftSchedules, Incomplete)
        case Some(j) => MissingFields(j)
        case None =>
          if !confirmed then SaveDeclined
          else BulkRequest(date, currentEditCourseId.value,
                 PayloadRows(draftSchedules, GetFacilityIdForCourse(courses, currentEditCourseId)))
    }

    /**
     * A selected course's draft is refused exactly when a row lacks a user
     * or a time, and the first such row is reported.
     */
    lemma SaveBulkRejects(confirmed: bool, date: string, courses: seq<Course>)
      requires Truthy(currentEditCourseId)
      ensures SaveBulk(confirmed, date, courses).MissingFields?
        <==> exists j :: 0 <= j < |draftSchedules| && Incomplete(draftSchedules[j])
      ensures SaveBulk(confirmed, date, courses).MissingFields? ==>
        var j := SaveBulk(confirmed, date, courses).row;
        j < |draftSchedules| && Incomplete(draftSchedules[j])
        && forall k :: 0 <= k < j ==> !Incomplete(draftSchedules[k])
    {
    }

    /**
     * A posted payload has one entry per draft row, in order, numbered by
     * position whatever the stored order, with the course's facility.
     */
    lemma SaveBulkPayload(confirmed: bool, date: string, courses: seq<Course>, i: nat)
      requires SaveBulk(confirmed, date, courses).BulkRequest?
      requires i < |draftSchedules|
      ensures var req := SaveBulk(confirmed, date, courses);
        && Truthy(currentEditCourseId) && confirmed
        && req.courseId == currentEditCourseId.value && req.date == date
        && |req.schedules| == |draftSchedules|
        && req.schedules[i].routeOrder == i + 1
        && req.schedules[i].facilityId == GetFacilityIdForCourse(courses, currentEditCourseId)
        && req.schedules[i].userId == draftSchedules[i].userId && req.schedules[i].userId != ""
        && req.schedules[i].time == draftSchedules[i].scheduledTime && req.schedules[i].time != ""
        && req.schedules[i].scheduleId == draftSchedules[i].scheduleId
        && req.schedules[i].kind == draftSchedules[i].kind
        && req.schedules[i].vehicleId == draftSchedules[i].vehicleId
        && req.schedules[i].userName == draftSchedules[i].userName
        && req.schedules[i].vehicleName == draftSchedules[i].vehicleName
    {
    }

    /** `saveAsTemplate`, up to the request it posts; `name` is the answer to the prompt. */
    function SaveAsTemplate(name: Option<string>): (r: TemplateOutcome)
      reads this
      ensures !Truthy(currentEditCourseId) ==> r == NoCourseSelected
    {
      if !Truthy(currentEditCourseId) then NoCourseSelected
      else if !Truthy(name) then NameCancelled
      else TemplateRequest(currentEditCourseId.value, name.value, TemplateItems(draftSchedules))
    }

    /** A template is posted exactly when a course is selected and a name given. */
    lemma SaveAsTemplateRequest(name: Option<string>)
      ensures SaveAsTemplate(name).TemplateRequest? <==> Truthy(currentEditCourseId) && Truthy(name)
      ensures SaveAsTemplate(name).TemplateRequest? ==>
        var req := SaveAsTemplate(name);
        && req.courseId == currentEditCourseId.value && req.templateName == name.value
        && |req.items| == |draftSchedules|
        && forall i :: 0 <= i < |req.items| ==>
             req.items[i].routeOrder == i + 1 && req.items[i].userId == draftSchedules[i].userId
             && req.items[i].kind == draftSchedules[i].kind && req.items[i].time == draftSchedules[i].scheduledTime
    {
    }
  }
}
