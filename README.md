# Shuttle record app: a verified model of its logic

The shuttle record app is a progressive web app for a day-care transport
service. Drivers tick off pickups (迎え) and drop-offs (送り) while offline.
Their check-ins wait in a queue until the network is back. An
administration screen edits the day's schedules course by course and
maintains the master tables. A release script bumps the version
strings.

This project models in Dafny the three pieces of that program that carry
rules, and proves those rules.

- **Driver app** (`pwa/app.js`, module `DriverApp` in `app.dfy`):
  - `Store` is a class whose fields are the store's data and status.
  - `SyncManager.sync` is the method `Sync`. It loops over a snapshot of
    the queue. Its result is tied to the specification function `Walk`,
    and lemmas about `Walk` give the queue rules:
    - what a delivery removes;
    - that a failure removes nothing;
    - when the walk stops;
    - that the queue only shrinks and keeps its order.
  - `pushRecord`, `updateStatus` and `toggleCheck` are methods on the
    store.
  - The list filters of the setup and schedule screens are functions.
- **Administration screen** (`pwa/admin.js`):
  - `AdminData` holds the records.
  - `AdminEditor` holds the bulk editor:
    - the class `AdminManager`, whose methods change the draft in place;
    - the pure payload builders of `saveBulk` and `saveAsTemplate`.
  - `AdminStatus` holds the per-course status counts.
  - `AdminMaster` holds the master-table rows: how a record becomes a
    row of controls and how `saveMaster` reads it back.
- **Release script** (`scripts/release.js`, module `Release`, using
  `Text`):
  - `incrementVersion`.
  - The content rewrites of `updateCommonJs` and `updateServiceWorker`,
    as string-to-string functions.
  - Each regular expression is an executable matcher proved equal, both
    ways, to a declarative reading of the pattern.

`Common` holds the list helpers the JavaScript writes with
`filter`/`find`. `Text` holds digits, `parseInt`, integer printing,
`indexOf` and string `replace`.

Some values come from outside the program. They are parameters of the
model:

| Outside source | How the model receives it |
|---|---|
| What `API.post` did, and whether `navigator.onLine` held after a failure | a sequence of `PostOutcome` |
| `Date.now()` | `now` |
| The answers to `confirm` and `prompt` | `confirmed` and `name` |
| The result of `API.fetch('getTemplates')` | `fetched` |
| The lists in `Store.data` that the admin screen reads | parameters |

## Model

| member | source | states |
|---|---|---|
| DriverApp.Store.constructor | pwa/app.js:7-20 | Everything starts empty with nothing selected. The date is today's. The store is offline exactly when the client is not online. |
| DriverApp.Sync | pwa/app.js:66-89 | When offline, nothing is posted and the queue is untouched. Otherwise the new queue and the posted records are those of `Walk` over the queue snapshot taken at entry, and no other store field changes. |
| DriverApp.Walk | pwa/app.js:72-83 | A walk posts at most the snapshot's records, and at least one when the snapshot is non-empty. |
| DriverApp.WalkKeeps | pwa/app.js:72-83 | The queue a walk leaves is the starting queue minus exactly the records whose stamp was delivered. Failures remove nothing. |
| DriverApp.SyncOutcome | pwa/app.js:72-83 | After `sync`, the queue is a subsequence of the queue at entry. A record stays exactly when it was queued and no delivered record shares its stamp. |
| DriverApp.DeliveredStampsIff | pwa/app.js:74-77 | A stamp counts as delivered exactly when a record with that stamp was posted successfully before the walk stopped. |
| DriverApp.WalkStops | pwa/app.js:78-82 | The walk posts the whole snapshot in order unless a post fails while offline, and then it stops right after that post. Every earlier failure found the client online. |
| DriverApp.StampCollisionDropsBoth | pwa/app.js:76 | Delivering one record also removes a different, never-delivered record with the same stamp. |
| DriverApp.RemoveStamp | pwa/app.js:76 | The success filter. It has no contract of its own; `RemoveStampKept` states it. |
| DriverApp.Kept | pwa/app.js:76 | The queue without the records of a set of stamps. It has no contract of its own; `RemoveStampKept`, `KeptKept`, `KeptNothing` and `WalkKeeps` state it. |
| DriverApp.RemoveStampKept | pwa/app.js:76 | The success filter keeps exactly the records whose stamp differs from the delivered one. |
| DriverApp.KeptKept | pwa/app.js:76 | Two successive success filters remove the union of their stamps. |
| DriverApp.KeptNothing | pwa/app.js:76 | With no stamp delivered, the queue is unchanged. |
| DriverApp.PushRecord | pwa/app.js:91-95 | The record, stamped with the clock, is appended at the end. Earlier entries and all other state are unchanged. |
| DriverApp.FindSchedule | pwa/app.js:332 | Returns the first schedule with the id, or none when no schedule has it. |
| DriverApp.DoneStatusByKind | pwa/app.js:339 | A pickup is checked as 乗車済 and anything else as 降車済. |
| DriverApp.ToggledStatusIff | pwa/app.js:341 | The toggle yields null exactly when the old status was the done status, and otherwise yields the done status. |
| DriverApp.ToggleTwice | pwa/app.js:339-342 | Toggling twice restores a status that was null or the done status. |
| DriverApp.ToggleTwiceFromOther | pwa/app.js:339-342 | Any other status becomes done on the first tap and null on the second. |
| DriverApp.WithStatus | pwa/app.js:349-350 | The status is always set. The note changes only when one is given. Every other field is kept. |
| DriverApp.CheckInFor | pwa/app.js:355-363 | The check-in record that is queued. It has no contract of its own; `UpdateStatus` and `ToggleCheck` state the queued record field by field. |
| DriverApp.UpdateStatus | pwa/app.js:345-367 | An unknown id changes nothing and queues nothing. Otherwise only the first schedule with the id changes, and exactly one check-in with the store's date, facility and vehicle is appended. |
| DriverApp.DoneStatus | pwa/app.js:339 | The status a tap sets is always 乗車済 or 降車済. Which one, by kind, is stated by `DoneStatusByKind`. |
| DriverApp.ToggledStatus | pwa/app.js:341 | The toggled status is either null or the done status. When each applies is stated by `ToggledStatusIff`. |
| DriverApp.ToggleCheck | pwa/app.js:331-343 | An unknown id changes nothing. Otherwise the first schedule with the id takes the toggled status, its note is kept, and one check-in is queued. |
| DriverApp.RenderFacilities | pwa/app.js:205-218 | The selection after the walk over the facilities is `DefaultFacility` of the old selection. Nothing else changes. |
| DriverApp.DefaultFacility | pwa/app.js:208-217 | The selection after the facility walk. It has no contract of its own; `DefaultFacilityKeeps`, `DefaultFacilityNone`, `DefaultFacilityPicksFirst` and `DefaultFacilityEmptyIds` state it. |
| DriverApp.DefaultFacilityKeeps | pwa/app.js:212 | A selection already made is never replaced. |
| DriverApp.DefaultFacilityNone | pwa/app.js:212-214 | Without a default facility the selection stays as it was. |
| DriverApp.DefaultFacilityPicksFirst | pwa/app.js:212-214 | With nothing selected, the first default facility with a non-empty id becomes the selection. |
| DriverApp.DefaultFacilityEmptyIds | pwa/app.js:212-214 | With nothing selected, defaults whose id is empty leave the selection falsy. |
| DriverApp.VisibleVehicles | pwa/app.js:224-229 | The vehicle list is never longer than the vehicles. Membership and order are stated by `VisibleVehiclesMembership`. |
| DriverApp.VisibleVehiclesMembership | pwa/app.js:224-229 | A vehicle is listed exactly when it belongs to the selected facility, unless all vehicles are shown or no facility is selected. The list keeps the original order. |
| DriverApp.VisibleVehiclesExact | pwa/app.js:224-229 | The list is exactly the vehicles the facility rule shows, in order, each as often as it occurs among the vehicles. |
| DriverApp.VisibleSchedules | pwa/app.js:276-286 | The card list is never longer than the schedules. Membership and order are stated by `VisibleSchedulesMembership`. |
| DriverApp.VisibleSchedulesMembership | pwa/app.js:276-286 | A card is listed exactly when it is assigned to the current vehicle (or to no vehicle) and passes the tab filter. The list keeps the original order. |
| DriverApp.VisibleSchedulesExact | pwa/app.js:276-286 | The vehicle filter followed by the tab filter is one filter by both rules: the list is exactly the admitted schedules, in order, each as often as it occurs. |
| AdminData.FindUser | pwa/admin.js:713 | Returns the first user with the id, or none when no user has it. |
| AdminData.FindVehicle | pwa/admin.js:717 | Returns the first vehicle with the id, or none when no vehicle has it. |
| AdminData.FindCourse | pwa/admin.js:843 | Returns the first course with the id, or none when no course has it. |
| AdminData.FindTemplate | pwa/admin.js:645 | Returns the first template with the id, or none when no template has it. |
| AdminEditor.Insert | pwa/admin.js:601 | One step of the stable route sort: the list grows by one and contains the row. Its place is stated by `InsertSorted`, `InsertContents` and `InsertWithKey`. |
| AdminEditor.InsertSorted | pwa/admin.js:601 | Inserting into a list sorted by `routeOrder \|\| 99` keeps it sorted. |
| AdminEditor.InsertContents | pwa/admin.js:601 | Inserting adds exactly the one row. |
| AdminEditor.InsertWithKey | pwa/admin.js:601 | The inserted row goes in front of the rows with its key, and rows with other keys are unaffected. |
| AdminEditor.SortByOrder | pwa/admin.js:601 | The route sort keeps the number of rows. Order, permutation and stability are stated by `SortByOrderCorrect`. |
| AdminEditor.SortByOrderCorrect | pwa/admin.js:601 | The route sort is sorted, is a permutation, and is stable: rows sharing a key keep their relative order. |
| AdminEditor.SortByOrderSorted | pwa/admin.js:601 | The route sort's result is ordered by `routeOrder \|\| 99`. |
| AdminEditor.SortByOrderPermutes | pwa/admin.js:601 | The route sort neither drops nor duplicates rows. |
| AdminEditor.SortByOrderStable | pwa/admin.js:601 | Rows with equal keys come out in their input order. |
| AdminEditor.CourseDraft | pwa/admin.js:597-606 | The draft holds exactly the course's schedules, ordered by route, with rows of equal order as they came. |
| AdminEditor.AdminManager.constructor | pwa/admin.js:128 | The editor starts with an empty draft and no course. |
| AdminEditor.AdminManager.InitEditor | pwa/admin.js:580-610 | The course is always recorded. The draft is replaced by the course's sorted schedules only when a course is given and a reload is asked for; otherwise it is left as it was. |
| AdminEditor.EmptyRow | pwa/admin.js:693-700 | The blank row `addEmptyRow` appends. It has no contract of its own; `AdminManager.AddEmptyRow` states it. |
| AdminEditor.AdminManager.AddEmptyRow | pwa/admin.js:690-702 | Appends one blank pickup at 09:00 with `routeOrder` equal to the old length plus one. Earlier rows are unchanged. |
| AdminEditor.AdminManager.RemoveRow | pwa/admin.js:704-707 | The draft becomes `splice(index, 1)` of the old draft. |
| AdminEditor.SpliceOne | pwa/admin.js:705 | `splice(index, 1)`. It has no contract of its own; `SpliceOneAt` and `SpliceOneOutside` state it. |
| AdminEditor.SpliceOneAt | pwa/admin.js:705 | At a valid index, exactly that row is removed and the later rows shift down. |
| AdminEditor.SpliceOneOutside | pwa/admin.js:705 | An index past the end removes nothing. A negative index counts from the end and is clamped at 0. |
| AdminEditor.AdminManager.UpdateRow | pwa/admin.js:709-722 | Succeeds exactly when a row exists at the index. Then only that row changes, to `UpdatedRow`; otherwise nothing changes. |
| AdminEditor.UpdatedRow | pwa/admin.js:710-721 | The row after one cell edit. It has no contract of its own; `UpdatedRowEffect` and `UserNameFound` state it. |
| AdminEditor.UpdatedRowEffect | pwa/admin.js:710-721 | The named cell takes the value and every other cell is kept. Only a user or vehicle edit touches a name, and only its own name. |
| AdminEditor.UserNameFound | pwa/admin.js:713-714 | The user name is the 氏名 of the first user with the id, or "" when none matches. |
| AdminEditor.AdminManager.LoadFromTemplate | pwa/admin.js:630-688 | The outcome is, in order: no template selected, discard declined, fetch failed, template not found, or loaded. On load, the draft is the template's rows. In every other case the draft is unchanged. |
| AdminEditor.RowFromItem | pwa/admin.js:667-676 | The draft row of one template item. It has no contract of its own; `TemplateRowsShape` states it. |
| AdminEditor.TemplateRows | pwa/admin.js:666-677 | One draft row per template item. The shape of each row is stated by `TemplateRowsShape`. |
| AdminEditor.TemplateItems | pwa/admin.js:480-485 | One template item per draft row. The round trip with `TemplateRows` is stated by `TemplateRoundTrip`. |
| AdminEditor.TemplateRowsShape | pwa/admin.js:666-677 | Each template item becomes an unsaved row with a blank vehicle and `routeOrder` equal to its index plus one. Its user name falls back to the user id. |
| AdminEditor.TemplateRoundTrip | pwa/admin.js:666-677 | Saving a draft as a template and expanding it gives back the draft's users, kinds and times, in order and renumbered. |
| AdminEditor.GetFacilityIdForCourse | pwa/admin.js:842-845 | `getFacilityIdForCourse`. It has no contract of its own; `FacilityForCourse` states it. |
| AdminEditor.FacilityForCourse | pwa/admin.js:842-845 | The facility is that of the first course with the id, or "" when there is none. |
| AdminEditor.AdminManager.SaveBulk | pwa/admin.js:793-840 | Without a selected course nothing is posted (`NoCourse`). With a course and every row complete, the bulk request is posted exactly when the overwrite is confirmed, and declined exactly when it is not. Incomplete rows are stated by `SaveBulkRejects`, the payload by `SaveBulkPayload`. |
| AdminEditor.Incomplete | pwa/admin.js:798 | A row lacks a user id or a time. It has no contract of its own; `SaveBulkRejects` states how it decides the save. |
| AdminEditor.PayloadRows | pwa/admin.js:810-824 | One payload entry per draft row. Its fields are stated by `SaveBulkPayload`. |
| AdminEditor.AdminManager.SaveBulkRejects | pwa/admin.js:793-802 | With a course selected, the save is refused exactly when some row lacks a user or a time, and the first such row is reported. |
| AdminEditor.AdminManager.SaveBulkPayload | pwa/admin.js:804-829 | A posted payload has one entry per draft row, in order. Each entry is numbered by position, whatever the stored order, and carries the course's facility and the store's date. The schedule id, user id and name, kind, time, vehicle id and vehicle name are copied from the draft row. |
| AdminEditor.AdminManager.SaveAsTemplate | pwa/admin.js:469-491 | Without a selected course nothing is posted (`NoCourseSelected`). The other cases are stated by `SaveAsTemplateRequest`. |
| AdminEditor.AdminManager.SaveAsTemplateRequest | pwa/admin.js:469-491 | A template is posted exactly when a course is selected and a name given. Its items are the draft rows numbered from 1. |
| AdminStatus.StatusCountsFit | pwa/admin.js:514-516 | The dropped-off and on-board counts together never exceed the total. |
| AdminStatus.RoundPercent | pwa/admin.js:519-520 | `Math.round` of the percentage. It has no contract of its own; `RoundPercentBounds` states it. |
| AdminStatus.RoundPercentBounds | pwa/admin.js:519 | The progress lies in 0..100, within half a percent of the exact ratio. It is 100 when all are finished and 0 when none are. |
| AdminStatus.Card | pwa/admin.js:512-520 | Neither the dropped-off count nor the on-board count exceeds the total. The joint bounds and the progress are stated by `CardBounds`. |
| AdminStatus.StatusCards | pwa/admin.js:510-541 | There are never more cards than courses. Which courses get one is stated by `StatusCardsPerCourse` and `StatusCardsBounded`. |
| AdminStatus.CardBounds | pwa/admin.js:512-534 | A card's not-started count is non-negative, and its progress lies in 0..100 and rounds the finished share. |
| AdminStatus.StatusCardsPerCourse | pwa/admin.js:510-541 | There are as many cards as courses with schedules. The list is empty, which brings up the "no schedules" message, exactly when no course has schedules. |
| AdminStatus.CardsOf | pwa/admin.js:512-538 | One card per given course, in order, each the card of that course's schedules. |
| AdminStatus.StatusCardsFollowCourses | pwa/admin.js:510-541 | The card list is exactly the cards of the courses with schedules, one each, in course order. |
| AdminStatus.StatusCardsComplete | pwa/admin.js:510-541 | Every course with schedules has its card in the list. |
| AdminStatus.StatusCardsBounded | pwa/admin.js:510-537 | Each card shown belongs to a course with schedules and satisfies the card bounds. |
| AdminMaster.MasterDefsWellFormed | pwa/admin.js:234-281 | Each of the four tables has distinct column keys and a read-only id column. |
| AdminMaster.LastMatch | pwa/admin.js:346-352 | The selected option is the last one equal to the value's text, or none when no option matches. |
| AdminMaster.CheckboxDefault | pwa/admin.js:360 | Whether a box starts ticked. It has no contract of its own; `CheckboxRule` states it. |
| AdminMaster.CheckboxRule | pwa/admin.js:360 | A saved boolean reads back as itself. `undefined`, `null` and `'false'` leave the box unticked. |
| AdminMaster.InputRoundTrip | pwa/admin.js:366 | A string value shows unchanged in its text input. |
| AdminMaster.NonEmptyText | pwa/admin.js:334 | A truthy id never prints as the empty string. |
| AdminMaster.CreateMasterRow | pwa/admin.js:332-369 | One cell per column. The keys and values of the cells are stated by `RowKeys` and `SavedRow`. |
| AdminMaster.RowKeys | pwa/admin.js:332-369 | A created row has one cell per column. Each editable cell carries its column's key, and read-only cells carry none. |
| AdminMaster.AddMasterRow | pwa/admin.js:405-419 | Exactly one row is added, at the top, and the existing rows are kept. |
| AdminMaster.NewMasterItem | pwa/admin.js:412 | The blank record of a new row. It has no contract of its own; `NewRowSaved` states it. |
| AdminMaster.NewRowSaved | pwa/admin.js:412-445 | A new row starts ticked and without an id. Saving it posts no id and 有効 = true. |
| AdminMaster.CollectReads | pwa/admin.js:436-445 | Reading a row's controls sets exactly their keys, each to its own control's value. |
| AdminMaster.SaveItem | pwa/admin.js:433-446 | The record read from one row. It has no contract of its own; `SavedRow` and `CollectReads` state it. |
| AdminMaster.SavedRow | pwa/admin.js:429-449 | Saving a row gives the id only when the row had one. A checkbox saves its boolean, an input its text and the select its option. |
| AdminMaster.SaveMaster | pwa/admin.js:429-449 | Reads one record per row, top to bottom. |
| Text.ParseDecimal | scripts/release.js:48 | `parseInt` of a digit string, as an exact integer. It has no contract of its own; `ParseToDecimal` and `ToDecimalParse` state it. |
| Text.ToDecimal | scripts/release.js:49-52 | Printing a natural number gives a digit string without leading zeros (the script's template printing does so below 10^21). |
| Text.ParseToDecimal | scripts/release.js:13-14 | Printing an integer and parsing it back gives the integer. |
| Text.ToDecimalParse | scripts/release.js:13-14 | Parsing a spelling without leading zeros and printing it gives it back. |
| Text.LeadingZeroNotReprinted | scripts/release.js:48-51 | A spelling with a leading zero never prints back as itself. |
| Text.ReplaceFirst | scripts/release.js:29-32 | String `replace`. It has no contract of its own; `ReplaceFirstAt` and `ReplaceFirstAbsent` state it. |
| Text.ReplaceFirstAt | scripts/release.js:29-32 | `replace` swaps exactly the first occurrence and keeps the text on both sides. |
| Text.ReplaceFirstAbsent | scripts/release.js:50-53 | Without an occurrence, `replace` changes nothing. |
| Release.MatchAt | scripts/release.js:10 | The version matcher at one position. It has no contract of its own; `MatchAtSound` and `MatchAtComplete` state it. |
| Release.MatchAtSound | scripts/release.js:10 | Whatever the version matcher returns is a match of `/v(\d+)\.(\d+)\.(\d+)/`. |
| Release.MatchAtComplete | scripts/release.js:10 | Every match of the pattern is found by the matcher, with the same captures. |
| Release.FindVersionLeftmost | scripts/release.js:10 | The search returns the leftmost match. |
| Release.IncrementVersion | scripts/release.js:9-15 | `incrementVersion`. It has no contract of its own; `IncrementVersionNoMatch`, `IncrementVersionBumps` and `IncrementVersionRepeats` state it. |
| Release.IncrementVersionNoMatch | scripts/release.js:10-11 | A string without a match comes back unchanged. |
| Release.IncrementVersionBumps | scripts/release.js:10-14 | The result is the leftmost match with the patch plus one. Major and minor are copied verbatim, and the surrounding text is dropped. |
| Release.SpellingMatches | scripts/release.js:10-14 | A bare version string matches at its start, with its own parts as captures. |
| Release.IncrementVersionRepeats | scripts/release.js:13-14 | The output matches again with a patch larger by one, so bumping twice adds two. |
| Release.IncrementVersionDropsLeadingZeros | scripts/release.js:12-14 | `v1.2.007` becomes `v1.2.8`. |
| Release.IncrementVersionDropsSurroundings | scripts/release.js:10-14 | `xv1.2.3-rc` becomes `v1.2.4`. |
| Release.AppVersionAt | scripts/release.js:19 | The `APP_VERSION` declaration matcher at one position. It has no contract of its own; `AppVersionAtIff` states it. |
| Release.AppVersionAtIff | scripts/release.js:19 | The declaration matcher finds exactly the declarations of the `APP_VERSION` pattern, both ways. |
| Release.FindAppVersionLeftmost | scripts/release.js:19 | The search returns the leftmost declaration. |
| Release.UpdateCommonJs | scripts/release.js:17-37 | The `APP_VERSION` rewrite. It has no contract of its own; `UpdateCommonJsMissing` and `UpdateCommonJsRewrites` state it. |
| Release.UpdateCommonJsMissing | scripts/release.js:21-24 | Without a declaration the rewrite is the error case. |
| Release.UpdateCommonJsRewrites | scripts/release.js:19-32 | Exactly the first declaration is replaced, by one with the bumped version. The rest of the content is unchanged. |
| Release.NoEarlierAppVersionText | scripts/release.js:29-32 | The searched declaration text cannot occur before the first declaration. |
| Release.CacheAt | scripts/release.js:46 | The `CACHE_NAME` declaration matcher at one position. It has no contract of its own; `CacheAtIff` states it. |
| Release.CacheAtIff | scripts/release.js:46 | The cache matcher finds exactly the declarations of the `CACHE_NAME` pattern, both ways. |
| Release.FindCacheLeftmost | scripts/release.js:46 | The search returns the leftmost cache declaration. |
| Release.UpdateServiceWorker | scripts/release.js:39-59 | When it rewrites, the old cache number is the one spelled by a cache declaration in the content. Where the rewrite happens is stated by `UpdateServiceWorkerBumps`, `UpdateServiceWorkerMissing` and `UpdateServiceWorkerLeadingZeros`. |
| Release.UpdateServiceWorkerMissing | scripts/release.js:46-57 | Without a cache declaration nothing is rewritten. |
| Release.UpdateServiceWorkerBumps | scripts/release.js:46-53 | `kirari-shuttle-vN` becomes `kirari-shuttle-v(N+1)` at the first declaration when N has no leading zeros. The rest of the content is unchanged. |
| Release.NoEarlierCacheText | scripts/release.js:50-53 | The cache declaration text cannot occur before the first cache declaration. |
| Release.UpdateServiceWorkerLeadingZeros | scripts/release.js:48-53 | When N has a leading zero, the text printed from `parseInt` differs from the declaration. If that text occurs nowhere, the content is unchanged although a declaration was found. |

## Left out

- DOM rendering and event wiring are not modelled: tables, option lists, tabs, toasts, loading overlays and `alert`. The selected option of the facility list is not modelled either, since it is display only.
- User answers to `confirm` and `prompt` are not modelled; they are parameters.
- Network calls (`API.fetch`, `API.post` and their envelope) are an oracle of outcomes. What happens after a successful save (refreshing data, toasts) is not modelled.
- Persistence through `localStorage` (`Store.save`, `Store.load`) is not modelled; the store is plain state.
- DriverApp.Sync: the re-entrant `sync` started by `pushRecord` and by the `online` event is not modelled, because it is asynchronous. Each sync is one sequential call.
- The clock is not modelled: `Date.now()` and today's date are parameters.
- AdminStatus.RoundPercentBounds: `Math.round` over floating point is modelled as exact half-up rounding of the rational ratio.
- `renderTemplateOptionsForEditor`, the admin screen's initial parallel loads and `renderMasterTab` are not modelled, because they only draw or fetch.
- pwa/sw.js is not part of this model. Its handlers only wrap browser Cache Storage and `fetch`.
- The release script's file reads and writes, `execSync`, git/npm commands, console output and `process.exit` are not modelled. Only the string transforms are kept.
- AdminEditor.AdminManager.UpdateRow: only the four cells the editor table edits can be updated (`scheduledTime`, `type`, `userId`, `vehicleId`). The JavaScript would accept any field name.
- AdminData: a missing `userId` or `scheduledTime` on a draft row is modelled as "". `routeOrder` is an optional integer, and a non-numeric value is not modelled.
- DriverApp.UpdateStatus: a schedule is a value in a sequence. Object aliasing between `Store.data.schedules` and other references to the same schedule is not modelled.
- AdminMaster: only the facility source of select columns and integer values of `String(v)` are modelled. Number inputs are treated as text.
- Release.IncrementVersionBumps: version numbers are exact integers here. The script's `parseInt` and template printing use IEEE doubles, which are exact only below 2^53. For a larger patch the script does not add one: `v1.2.9007199254740993` gives `v1.2.9007199254740992`, and a 22-digit patch prints in exponent form such as `1e+21`.
- Release.IncrementVersionRepeats: "larger by one" holds in the script only for patch numbers below 2^53. Integers are exact here, as for IncrementVersionBumps.
- Release.UpdateServiceWorkerBumps: N becomes N+1 in the script only while N is below 2^53. Integers are exact here, as for IncrementVersionBumps.
- Release.UpdateServiceWorker: its cache numbers are exact integers; the script's are IEEE doubles, exact only below 2^53.
- Release.IncrementVersion: its patch number is an exact integer; the script's is an IEEE double, exact only below 2^53.
- Text.ParseDecimal: gives the exact value of any digit string; `parseInt` rounds to the nearest double from 2^53 on.
- Text.ToDecimal: prints any natural number in plain digits; template printing switches to exponent form such as `1e+21` from 10^21 on.
- AdminEditor.AdminManager.constructor: the object literal declares neither `draftSchedules` nor `currentEditCourseId`, so both start as `undefined` in the script. The model starts them as an empty draft and no course. No draft access in the script comes before `initEditor`, so the difference is not observable.
