/**
 * The records the administration screen works on, as the server sends them
 * and as the bulk editor keeps them. A field JavaScript may leave `null` or
 * `undefined` is an Option; the user id and the time, which the editor
 * tests only for being empty, are strings with "" for a missing value.
 */
module AdminData {
  import opened Common

  /** A schedule of the day, and equally a row of the bulk editor's draft. */
  datatype Row = Row(
    scheduleId: Option<string>,   // null for a row not yet saved
    courseId: Option<string>,
    userId: string,
    userName: string,
    kind: string,                 // `type`: 迎え or 送り
    scheduledTime: string,
    vehicleId: string,
    vehicleName: string,
    routeOrder: Option<int>,
    status: Option<string>)

  /** A user (利用者): 利用者ID and 氏名. */
  datatype User = User(id: string, name: string)

  /** A vehicle (車両): 車両ID and 車両名. */
  datatype Vehicle = Vehicle(id: string, name: string)

  /** A course (コース): コースID, コース名 and the facility 事業所ID it belongs to. */
  datatype Course = Course(id: string, name: string, facilityId: string)

  /** One stop of a template. */
  datatype TemplateItem = TemplateItem(kind: string, time: string, userId: string, routeOrder: int)

  /** A template as `getTemplates` returns it. */
  datatype Template = Template(templateId: string, templateName: string, items: seq<TemplateItem>)

  /** The index of the first user with id `id` (`users.find(u => u['利用者ID'] === id)`). */
  function FindUser(users: seq<User>, id: string): (r: Option<nat>)
    ensures r.Some? ==> r.value < |users| && users[r.value].id == id
    ensures r.Some? ==> forall j :: 0 <= j < r.value ==> users[j].id != id
    ensures r.None? ==> forall j :: 0 <= j < |users| ==> users[j].id != id
  {
    FindFirst(users, (u: User) => u.id == id)
  }

  /** The index of the first vehicle with id `id`. */
  function FindVehicle(vehicles: seq<Vehicle>, id: string): (r: Option<nat>)
    ensures r.Some? ==> r.value < |vehicles| && vehicles[r.value].id == id
    ensures r.Some? ==> forall j :: 0 <= j < r.value ==> vehicles[j].id != id
    ensures r.None? ==> forall j :: 0 <= j < |vehicles| ==> vehicles[j].id != id
  {
    FindFirst(vehicles, (v: Vehicle) => v.id == id)
  }

  /** The index of the first course whose id is `courseId`. */
  function FindCourse(courses: seq<Course>, courseId: Option<string>): (r: Option<nat>)
    ensures r.Some? ==> r.value < |courses| && Some(courses[r.value].id) == courseId
    ensures r.Some? ==> forall j :: 0 <= j < r.value ==> Some(courses[j].id) != courseId
    ensures r.None? ==> forall j :: 0 <= j < |courses| ==> Some(courses[j].id) != courseId
  {
    FindFirst(courses, (c: Course) => Some(c.id) == courseId)
  }

  /** The index of the first template with id `templateId`. */
  function FindTemplate(templates: seq<Template>, templateId: string): (r: Option<nat>)
    ensures r.Some? ==> r.value < |templates| && templates[r.value].templateId == templateId
    ensures r.Some? ==> forall j :: 0 <= j < r.value ==> templates[j].templateId != templateId
    ensures r.None? ==> forall j :: 0 <= j < |templates| ==> templates[j].templateId != templateId
  {
    FindFirst(templates, (t: Template) => t.templateId == templateId)
  }
}
