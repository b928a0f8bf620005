# back-contabilidad inventory core, in Dafny

A verified model of the inventory back end of back-contabilidad, an Express
and MongoDB service that keeps household and business inventory records.
Each record has a product name (`producto`), a `description`, a value
(`valor`), a status (`estado`), a relevance (`relevancia`) and a date
(`fecha`). The model covers:

- **The listing pipeline of `getInventario`.**
  - The query filter is validated.
  - The query object is built condition by condition.
  - The database returns the matching records newest first.
  - When `valorOrden` is given, the records are grouped by calendar month, each month is sorted on `valor`, and the months are flattened back in the order of their first record.
- **The status rules of the other handlers.** These are `getInventarioById`, `createInventario`, `updateInventario` and `deleteInventario`, each with its effect on the stored records. Also the statistics of `getStats`.
- **The Zod request schemas.** These are the item, update and filter schemas, and the register and login schemas. Each is a function from a request body to either the validated value or the set of paths Zod reports.
- **The Mongoose inventory model.** This covers the trimmed and required fields, `min: 0` on `valor`, the closed enumerations, and the month range of the static `getByMonth`.

The database is a sequence of records in insertion order. `find`, `sort`,
`findById`, `findByIdAndUpdate`, `findByIdAndDelete` and `aggregate` are
functions over that sequence. A handler returns its status together with
the database after the call. The grouping, per-month sorting and
flattening loops of `getInventario` are methods with loop invariants. Each
is proved equal to a reference function, and the listing properties are
proved about that function.

Modules:

| file | module | contents |
|---|---|---|
| wrappers.dfy | `Wrappers` | `Option`, `Result` |
| sorting.dfy | `Sorting` | stable insertion sort by a real rank, ascending or descending |
| grouping.dfy | `Grouping` | keys in first-appearance order, groups, concatenation, counts, selection |
| calendar.dfy | `Calendar` | ECMAScript day arithmetic, `new Date(y, m, d)` normalisation, the (year, month) key |
| inventory_schema.dfy | `InventorySchema` | item, update and filter schemas |
| auth_schema.dfy | `AuthSchema` | register and login schemas |
| inventory_model.dfy | `InventoryModel` | stored record, Mongoose validators and `trim`, `getByMonth` |
| inventory_controller.dfy | `InventoryController` | the five handlers and `getStats` |

Behaviour worth knowing, all as the code is written:

- An `estado`, `relevancia` or `valorOrden` of `''` passes the filter schema and adds no condition.
- `fechaInicio` and `fechaFin` are never checked by the schema. A text that is no date becomes an Invalid Date. The driver then fails to cast it, so the handler answers 500, not 400.
- A `producto` or `description` made only of white space passes Zod's `min(1)`. Mongoose then trims it to `''`, and its `required` validator fails on save. The handler answers 500, not 400.
- Zod requires `valor > 0`; Mongoose only requires `valor >= 0`.
- The update schema requires a UUID `id`, and the handler validates `{ id: <route id>, ...body }`. MongoDB identifiers are 24-character hex strings and never UUIDs. So an update answers 400 unless the body carries its own UUID `id`. The record is still looked up by the route identifier.
- `getByMonth` ends its range at midnight of the month's last day. A record later on that day is left out.

## Model

| member | source | states |
|---|---|---|
| Sorting.SortBy | src/controllers/inventory.controller.js:49 | a sort adds, drops and duplicates nothing: the result is a permutation of its input |
| Sorting.SortBySorted | src/controllers/inventory.controller.js:49 | the result is ordered by rank, descending or ascending as asked |
| Sorting.SortByStable | src/controllers/inventory.controller.js:66-70 | elements of equal rank keep their relative order (the sort is stable) |
| Grouping.KeysSpec | src/controllers/inventory.controller.js:57-62 | the month keys are distinct, every record's month is among them, and a key is listed exactly when its group is non-empty |
| Grouping.GroupsPartition | src/controllers/inventory.controller.js:57-62 | concatenating the groups of all keys gives back the input as a multiset |
| Grouping.ConcatContiguous | src/controllers/inventory.controller.js:74-77 | flattening groups with distinct keys keeps each key's elements together |
| Grouping.ConcatKeys | src/controllers/inventory.controller.js:74-77 | the keys of the flattened result, in first-appearance order, are the keys flattened |
| Grouping.ConcatGroup | src/controllers/inventory.controller.js:74-77 | the group of a key in the flattened result is exactly the group given for it |
| Grouping.SelectSpec | src/controllers/inventory.controller.js:46 | a query result keeps each matching record as often as it is stored, and nothing else |
| Grouping.CountsTotal | src/controllers/inventory.controller.js:203-210 | the per-key counts add up to the number of records |
| Calendar.YearLength | src/models/Inventory.model.js:60-61 | consecutive years start `DaysInYear` days apart under the Gregorian leap-year rule |
| Calendar.MonthBounds | src/models/Inventory.model.js:60-61 | `new Date(y, m, 1)` is the first day of the normalised month and `new Date(y, m + 1, 0)` its last day, December and leap-year February included |
| Calendar.InMonthDays | src/controllers/inventory.controller.js:12-15 | a valid date's day number lies within a month's days exactly when the date is in that month |
| InventorySchema.EnumNamesRoundTrip | src/schemas/inventory.schema.js:10-15 | each `estado` and `relevancia` member's name is accepted by its enumeration and read back as that member |
| InventorySchema.EnumNamesInjective | src/schemas/inventory.schema.js:10-15 | distinct `estado` or `relevancia` members have distinct names |
| InventorySchema.ItemErrors | src/schemas/inventory.schema.js:5-21 | only schema paths are reported, and a JSON `createdAt` or `updatedAt` always is, since `z.date()` accepts no JSON value; `ParseItem` and `ItemRoundTrip` state which bodies pass |
| InventorySchema.ParseItem | src/schemas/inventory.schema.js:5-21 | the item schema fails exactly when some field check fails, and reports exactly those paths; accepted data has a UUID or no `id`, non-empty `producto` and `description`, positive `valor` and a parsable `fecha`, and carries exactly the body's known fields |
| InventorySchema.ItemRoundTrip | src/schemas/inventory.schema.js:5-21 | every item the schema promises is accepted and comes back unchanged |
| InventorySchema.PatchKeepsItemChecks | src/schemas/inventory.schema.js:35-37 | in the update schema a given field keeps its create-time check, an absent field is never reported, and `id` is reported unless it is a UUID string |
| InventorySchema.PatchErrors | src/schemas/inventory.schema.js:34-37 | only schema paths are reported, and no path but `id` unless the body gives it, since `partial()` makes the others optional |
| InventorySchema.ParsePatch | src/schemas/inventory.schema.js:34-37 | the update schema fails exactly on the reported paths; accepted data meets `ValidPatch` (a UUID `id`, non-empty text, positive `valor`, a parsable `fecha`, each if given), carries under every known key exactly the value the body gives there, and the body with its unknown keys stripped is `PatchBody` of the data |
| InventorySchema.PatchRoundTrip | src/schemas/inventory.schema.js:34-37 | every patch meeting `ValidPatch` is accepted from its own body and comes back unchanged |
| InventorySchema.ParseValorOrden | src/schemas/inventory.schema.js:29 | `valorOrden` reads `'Alto'` and `'Bajo'` as the two orders |
| InventorySchema.FilterErrors | src/schemas/inventory.schema.js:24-32 | only filter paths are reported, and only paths the query gives, since every filter field is optional |
| InventorySchema.ParseFilter | src/schemas/inventory.schema.js:24-32 | the filter schema fails exactly on the reported paths; accepted filters carry each given field unchanged and each enumeration field is `''` or a member name |
| InventorySchema.FilterRoundTrip | src/schemas/inventory.schema.js:24-32 | every filter the schema promises, `''` in any enumeration field included, is accepted from its own query and comes back unchanged |
| InventorySchema.FilterAcceptsAnyDateText | src/schemas/inventory.schema.js:30-31 | any texts as `fechaInicio` and `fechaFin` pass the filter schema, dates or not |
| AuthSchema.ParseRegistration | src/schemas/auth.schema.js:3-33 | registration fails exactly on the reported paths; accepted data has a user name of at least 3 characters, a valid email, a password of at least 6 characters equal to its confirmation |
| AuthSchema.RegistrationAccepted | src/schemas/auth.schema.js:3-33 | four strings with a user name of at least 3 characters, a valid email, a password of at least 6 characters and an equal confirmation are accepted as those strings |
| AuthSchema.RegistrationRoundTrip | src/schemas/auth.schema.js:3-33 | every registration the schema promises is accepted from its own body and comes back unchanged |
| AuthSchema.RegisterErrors | src/schemas/auth.schema.js:3-33 | only the four registration paths are reported, and every path whose value is missing or not a string is |
| AuthSchema.MismatchReported | src/schemas/auth.schema.js:30-33 | a mismatched confirmation is reported on `confirmPassword` whenever all four fields are strings, and not reported when `username` is missing, since a type error stops the refinement |
| AuthSchema.RegisterRejectsShortPassword | src/schemas/auth.schema.js:19-25 | a password shorter than 6 characters is reported |
| AuthSchema.ParseLogin | src/schemas/auth.schema.js:35-46 | login fails exactly on the reported paths; accepted credentials have a valid email and carry the body's strings |
| AuthSchema.LoginErrors | src/schemas/auth.schema.js:35-46 | only `email` and `password` are reported, and each is whenever its value is missing or not a string |
| AuthSchema.LoginAcceptsAnyPassword | src/schemas/auth.schema.js:43-45 | any password string, the empty one included, passes login validation |
| InventoryModel.TrimEmpty | src/models/Inventory.model.js:6-15 | trimming leaves nothing exactly when the text is all white space |
| InventoryModel.Trim | src/models/Inventory.model.js:9-14 | the `trim` setter yields text no longer than its input with no white space at either end |
| InventoryModel.TrimmedSpec | src/models/Inventory.model.js:6-15 | trimming yields text without white space at either end, leaves such text alone, and is idempotent |
| InventoryModel.DocErrors | src/models/Inventory.model.js:6-40 | only model paths are reported, and each `required` path is whenever it is missing |
| InventoryModel.Validated | src/models/Inventory.model.js:6-40 | a document without validation errors has all six paths set, non-empty text, `valor` at least 0 and known enumeration names |
| InventoryModel.NewDoc | src/controllers/inventory.controller.js:120 | `new Inventory(validatedData)` sets `producto` and `description` to the trimmed texts, keeps `valor`, stores the enumeration members' names, and sets `fecha` to what the date text parses to |
| InventoryModel.StoredPassesValidation | src/models/Inventory.model.js:6-40 | a stored record passes every validator again and trimming changes none of its text |
| InventoryModel.SchemaThenModel | src/models/Inventory.model.js:4-46 | data the item schema accepted fails the model's validators exactly on a `producto` or `description` made of white space |
| InventoryModel.ZeroValorOnlyModelAccepts | src/models/Inventory.model.js:16-20 | `valor` 0 passes `min: 0` but fails the schema's `positive()` |
| InventoryModel.GetByMonth | src/models/Inventory.model.js:59-66 | the result is newest first and holds each record between the month's start and end bounds as often as it is stored, and no other record |
| InventoryModel.GetByMonthSelects | src/models/Inventory.model.js:59-66 | `getByMonth` keeps a record exactly when it falls in the normalised month and is not later than midnight of the month's last day |
| InventoryModel.GetByMonthSpec | src/models/Inventory.model.js:59-66 | `getByMonth` returns each selected record as often as it is stored, no other record, newest first |
| InventoryController.QueryFor | src/controllers/inventory.controller.js:24-43 | `estado` and `relevancia` become conditions exactly when non-empty; a date range exists exactly when a bound is non-empty, with `$gte` exactly for `fechaInicio` and `$lte` exactly for `fechaFin` |
| InventoryController.BuildQuery | src/controllers/inventory.controller.js:24-43 | building the query field by field yields the query the filter stands for |
| InventoryController.Find | src/controllers/inventory.controller.js:46-52 | the query runs exactly when it can be cast, and then returns newest first each matching record as often as it is stored, and no other |
| InventoryController.QueryMeaning | src/controllers/inventory.controller.js:24-52 | the query can be cast exactly when the given date texts are dates, and then matches a record exactly when the filter admits it, with inclusive bounds |
| InventoryController.GroupByMonth | src/controllers/inventory.controller.js:57-62 | the reduce yields the months in first-appearance order and, per month, its records in input order |
| InventoryController.SortGroups | src/controllers/inventory.controller.js:65-71 | the loop replaces every month's list by its stable sort on `valor`, descending for `'Alto'` |
| InventoryController.FlattenGroups | src/controllers/inventory.controller.js:74-77 | the push loop yields the month lists concatenated in key order |
| InventoryController.GetInventario | src/controllers/inventory.controller.js:18-92 | 400 exactly when the filter schema fails, 500 exactly when the query cannot be cast, otherwise 200 with the date-descending result, regrouped when `valorOrden` is given; the database itself never fails here, see Left out |
| InventoryController.ByMonthThenValor | src/controllers/inventory.controller.js:55-77 | the regrouping; its meaning is stated by `ReorderPermutes`, `ReorderContiguous`, `ReorderKeepsMonthOrder`, `ReorderSortsEachMonth` and `AltoListingOfThree` |
| InventoryController.Listing | src/controllers/inventory.controller.js:55-82 | the answer for a found result: regrouped when `valorOrden` is given, as found otherwise; its meaning is stated by `ListingContents`, `ListingNewestFirst` and `EmptyFilterListsAll` |
| InventoryController.SortedGroupsKeyed | src/controllers/inventory.controller.js:57-71 | each sorted month list is non-empty, holds only that month's records and is a permutation of the month's group |
| InventoryController.ReorderPermutes | src/controllers/inventory.controller.js:57-77 | the regrouped listing is a permutation of the query result |
| InventoryController.ReorderContiguous | src/controllers/inventory.controller.js:57-77 | records of one month stand together in the regrouped listing |
| InventoryController.ReorderKeepsMonthOrder | src/controllers/inventory.controller.js:57-77 | months appear in the order of their first record in the date-descending input |
| InventoryController.ReorderSortsEachMonth | src/controllers/inventory.controller.js:65-71 | within a month `valor` is non-increasing for `'Alto'` and non-decreasing otherwise, equal values keep their date order, and the month holds the same records |
| InventoryController.ListingContents | src/controllers/inventory.controller.js:24-82 | for a filter whose date texts parse, the listing holds every admitted record as often as it is stored, and no other |
| InventoryController.ListingNewestFirst | src/controllers/inventory.controller.js:46-52 | without `valorOrden` the listing is sorted by `fecha`, newest first |
| InventoryController.EmptyFilterListsAll | src/controllers/inventory.controller.js:24-52 | a filter without conditions lists every record, newest first |
| InventoryController.AltoListingOfThree | src/controllers/inventory.controller.js:55-79 | with `'Alto'`, a listing `c, b, a` where `c` is alone in its month and `a` is worth more than `b` becomes `c, a, b` |
| InventoryController.AltoListingExample | src/controllers/inventory.controller.js:46-79 | records of 15 and 20 January and 1 February 2024 worth 100, 50 and 10 are found as C, B, A and listed as C, A, B |
| InventoryController.FindIndex | src/controllers/inventory.controller.js:98 | the position found is the first with the identifier, and none is found exactly when no record has it |
| InventoryController.FindById | src/controllers/inventory.controller.js:98 | the record found is stored and has the identifier; none is found exactly when no record has it |
| InventoryController.GetInventarioById | src/controllers/inventory.controller.js:95-111 | 404 exactly when no record has the identifier, otherwise 200 with a stored record of that identifier |
| InventoryController.Persist | src/controllers/inventory.controller.js:120-121 | the saved record has the assigned identifier and the document the validated data builds |
| InventoryController.PersistStored | src/controllers/inventory.controller.js:120-121 | a record saved from a document without validation errors meets every stored-record constraint |
| InventoryController.CreateInventario | src/controllers/inventory.controller.js:114-136 | 400 exactly when the item schema fails, 500 exactly when an accepted `producto` or `description` trims to nothing, otherwise 201 with the new record appended; only 201 changes the database; the database itself never fails here, see Left out |
| InventoryController.CreateKeepsStore | src/controllers/inventory.controller.js:114-136 | creating keeps every record valid and the identifiers unique |
| InventoryController.CreateWritesBody | src/controllers/inventory.controller.js:114-126 | a 201 stores what the body gives: trimmed text, its `valor`, the members its names denote and the date its `fecha` text denotes, under the assigned identifier |
| InventoryController.AppendKeepsStore | src/controllers/inventory.controller.js:121 | appending a valid record with a fresh identifier keeps the store valid |
| InventoryController.UpdateBody | src/controllers/inventory.controller.js:144-147 | `{ id, ...body }`: a body `id` overrides the route identifier and every other field is kept |
| InventoryController.UpdateOnlyBlankFails | src/controllers/inventory.controller.js:150-154 | data the update schema accepted fails the update validators exactly on a given `producto` or `description` made of white space |
| InventoryController.UpdateErrors | src/controllers/inventory.controller.js:153 | `runValidators` reports only model paths, and only paths the update sets |
| InventoryController.PatchOnlyBlankFails | src/controllers/inventory.controller.js:150-154 | the same for any patch with a positive `valor` and a parsable `fecha`, if given |
| InventoryController.PatchFieldChecks | src/controllers/inventory.controller.js:153 | which validator each path of such a patch passes; text paths fail exactly when blank |
| InventoryController.UpdateInventario | src/controllers/inventory.controller.js:139-173 | 400 exactly when the update schema rejects `{ id, ...body }`, 500 exactly on a failing validator, 404 exactly when no record has the route identifier, otherwise 200 with that record patched in place; the database itself never fails here, see Left out |
| InventoryController.ApplyPatch | src/controllers/inventory.controller.js:150-152 | `$set` keeps the identifier and every field the data leaves out, sets given text to its trimmed form, sets a given `valor`, `estado` or `relevancia` to that value, and sets `fecha` to the date its text denotes |
| InventoryController.UpdateWritesBody | src/controllers/inventory.controller.js:139-163 | a successful update writes each field the body gives with that value (text trimmed, names read as members, `fecha` parsed), keeps each field it leaves out and keeps the route identifier |
| InventoryController.PatchKeepsStored | src/controllers/inventory.controller.js:150-154 | a patch that passed the validators turns a stored record into a stored record |
| InventoryController.ReplaceKeepsStore | src/controllers/inventory.controller.js:150-154 | replacing a record by a valid one with the same identifier keeps the store valid and every identifier in place |
| InventoryController.UpdateKeepsStore | src/controllers/inventory.controller.js:139-173 | updating keeps the store valid, the identifiers in place, and every other record unchanged |
| InventoryController.UpdateNeedsUuid | src/controllers/inventory.controller.js:141-147 | with no `id` in the body and a 24-character route identifier, an update answers 400 and changes nothing |
| InventoryController.DeleteInventario | src/controllers/inventory.controller.js:176-194 | 404 exactly when no record has the identifier, otherwise 200 with the first such record removed |
| InventoryController.RemoveKeepsIds | src/controllers/inventory.controller.js:179 | removing one record keeps the identifiers unique and drops the removed one |
| InventoryController.RemoveKeepsStored | src/controllers/inventory.controller.js:179 | removing one record keeps every other record valid |
| InventoryController.DeleteKeepsStore | src/controllers/inventory.controller.js:176-194 | with unique identifiers, deleting removes exactly the record with that identifier and keeps every other record once |
| InventoryController.CountsSpec | src/controllers/inventory.controller.js:203-210 | the per-key rows have distinct keys with positive counts equal to their group sizes, and the counts add up to the record count |
| InventoryController.SumRows | src/controllers/inventory.controller.js:213-215 | the `$sum` group yields one row, and none exactly on an empty collection |
| InventoryController.AvgRows | src/controllers/inventory.controller.js:218-220 | the `$avg` group yields one row, and none exactly on an empty collection |
| InventoryController.GetStats | src/controllers/inventory.controller.js:197-228 | the total is the record count, the `estado` and `relevancia` counts each partition it, the sum is the sum of `valor`, the average is sum over count, and both are 0 on an empty collection |
| InventoryController.StatsAverage | src/controllers/inventory.controller.js:218-227 | on a non-empty collection the average times the count is the sum |
| InventoryController.SumValorNonNegative | src/controllers/inventory.controller.js:213-215 | the sum of stored values is never negative |
| InventoryController.StatsNonNegative | src/controllers/inventory.controller.js:213-227 | neither the sum nor the average of stored values is negative |

## Left out

- Date parsing is the parameter `parse`: `new Date(text)` for a filter bound or an item's `fecha`. A parse that fails stands for an Invalid Date. The model does not say which texts parse.
- Email syntax (Zod's regular expression) is the parameter `isEmail`.
- Time zones and daylight saving are not modelled. A date is its local calendar components plus a time of day, counted by ECMAScript's day arithmetic in one fixed offset.
- `formatMonth` is modelled by the (year, month) key it renders. The locale text `toLocaleDateString` produces is not modelled.
- `formatDate` of the Mongoose model is not modelled, for the same reason.
- `valor` is a `real`, not a double, so rounding in sums and averages is not modelled. String lengths count characters, not UTF-16 code units.
- InventoryController.Find: the MongoDB driver's ordering of records with equal `fecha` is taken as insertion order, i.e. the date sort is assumed stable.
- InventoryController.CountsSpec: MongoDB leaves the row order of `$group` unspecified. The model lists keys in first-appearance order and proves nothing about the order.
- InventoryController.CreateInventario: the identifier the database assigns is the parameter `newId`, and a client-supplied UUID `id` is not stored. The `createdAt` and `updatedAt` timestamps are not modelled.
- Database and driver failures other than cast and validation errors (a lost connection, a time-out), which each handler's `catch` answers with 500, are not modelled: the database always answers. The 500 cases the handlers' contracts list are the only ones the model has.
- Route identifiers that cannot be cast to an ObjectId (a CastError, answered with 500) are not modelled. Identifiers are plain strings.
- InventorySchema.IsUuid: a UUID is taken as five groups of 8, 4, 4, 4 and 12 hexadecimal digits, the pattern of Zod 3's `uuid()`. Zod releases that also check the version and variant digits are not modelled.
- Response bodies and messages, including `fromZodError` texts, are not modelled; the model keeps the status and the record.
- `async`/`await` and concurrent requests are not modelled. Each handler is one atomic step on the database.
- The Express wiring (`src/app.js`), the routing table, the database connection (`src/db.js`) and the lower-case `src/models/inventory.model.js` are not part of this model. The authentication controllers are not part of this model either; only their schemas are.
