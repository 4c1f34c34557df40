# Mess maintenance system — a verified model of its rules

This project models the rules of a hostel mess system in Dafny. The system has a Django REST backend and a React frontend. The model covers:

- **Backend batch endpoints.**
  - `bulk_update` upserts one attendance row per (student, date). It defaults missing fields, reports unknown registration numbers and values the columns refuse, and counts the updates.
  - `generate_bills` validates a month and six rates, counts each student's present and Non-Veg days, prices them and upserts one bill per (student, month). The model includes the server errors it does not catch.
- **Backend rules.** The role check added to login, and which profile, attendance and bill rows each user may list.
- **Schema.** Field domains, defaults and uniqueness of profiles, menus, attendance rows and bills.
- **Staff attendance editor.** A page-level state machine over a map from registration number to an entry. It covers seeding from the server, single-field edits, search and sort, "mark all" on the shown students, and the full-roster save.
- **Student pages.** Attendance grouped by month with percentages, and the dashboard. The dashboard covers the latest bill, today's menu, this month's count and the invoice rows.
- **Staff pages.** The billing form and the "Mark Paid" action, the menu editor, and the student search.
- **Admin site.** Truncation of long meal texts and the "Mark selected bills as Paid" action.

Money is exact (`real`). Dates are `(year, month, day)` records. "Today" and the current weekday are parameters.

## How the model is organised

- **Supporting modules.**
  - `Common`: dates, sequences, ASCII lower-casing, `includes`, and integer division facts.
  - `Sorting`: JavaScript's `sort` with a comparator, as a stable insertion sort.
  - `Parsing`: Python `int()`/`float()`, `str.split`, `YYYY-MM-DD`, and the zero-padded spellings.
- **Backend modules.**
  - `Models`: the schema.
  - `ApiJson`: the JSON the serializers emit.
  - `Access`: login and row visibility.
  - `BulkAttendance` and `BillGeneration`: the two endpoints.
  - `Admin`: the admin site.
- **Frontend modules.** There is one module per page: `StaffAttendance`, `AttendancePage`, `Dashboard`, `ManageBills`, `ManageMenu`, `WeekMenu` and `ManageStudents`. `WeekMenu` is the weekday order shared by both menu pages.
- **Form of the model.**
  - The endpoints are methods with loops. Each is proved equal to a fold function; the properties are lemmas about that fold.
  - Pages whose handlers update state are classes: `StaffAttendanceView`, `BillsPage` and `MenuEditor`.
  - Pure expressions are functions.

## Model

| member | source | states |
|---|---|---|
| Access.ValidateLogin | backend/mess_api/views.py:11-23 | Unknown credentials fail. Role `student` fails unless the account is a student; role `staff` fails unless it is a staff member. Otherwise tokens are issued for that account, and each error holds exactly in its case. |
| Access.OtherRolesUnchecked | backend/mess_api/views.py:15-21 | Any other role, or none, adds no check: a valid account always gets tokens. |
| Access.ProfilesQueryset | backend/mess_api/views.py:45-49 | Staff list every profile. Anyone else lists exactly their own profile, so at most one on a valid table. |
| Access.OwnProfileAtMostOne | backend/mess_api/views.py:45-49 | On a profile table with one profile per user, a user owns at most one profile. |
| Access.UserAttendance | backend/mess_api/views.py:67-78 | Staff see all rows, or exactly one user's rows when `student_id` is given. A student with a profile sees exactly their own rows; anyone else sees none. A `student_id` that is not an integer is an error. |
| Access.AttendanceQueryset | backend/mess_api/views.py:67-84 | As `UserAttendance`, and a `date` parameter keeps only that day's rows. A date that does not parse is an error. |
| Access.AttendanceIsPrivate | backend/mess_api/views.py:71-78 | Two different non-staff users never see a common attendance row. |
| Access.BillsQueryset | backend/mess_api/views.py:151-157 | Staff see all bills, a student with a profile exactly their own, and anyone else none. |
| Access.Restrict | backend/mess_api/views.py:76-82 | A queryset filter keeps exactly the rows whose key passes, with their values unchanged. |
| Models.RegNumIdentifiesOneProfile | backend/mess_api/models.py:12-13 | With unique `reg_num`, a registration number names at most one profile, and it names the one that has it. |
| Models.ParseWeekday | backend/mess_api/models.py:22-31 | The `day` choice check accepts only a weekday's own name. |
| Models.WeekdayNameRoundTrip | backend/mess_api/models.py:22-31 | Every weekday's stored name is read back as that weekday. |
| Models.MenuHasAtMostSevenRows | backend/mess_api/models.py:22-31 | With `day` unique over seven choices, a menu has at most seven rows. |
| Models.DistinctDaysCount | backend/mess_api/models.py:31 | On a valid menu, the covered days are as many as the rows. |
| Models.DaysOfSnoc | backend/mess_api/models.py:31 | A menu row whose day is new adds exactly that day to the covered days. |
| Models.DefaultAttendanceRow | backend/mess_api/models.py:42-47 | A new attendance row is present with the `Veg` meal, one of the two choices. |
| Models.NewBill | backend/mess_api/models.py:55-71 | A new bill is unpaid, dated today, with every rate zero. |
| Models.BillsFor | backend/mess_api/models.py:55-58 | Selecting a student's bills for a month yields only bills of that student and month. |
| Models.SchemaAllowsDuplicateBills | backend/mess_api/models.py:55-58 | A table valid under the schema can hold two bills for one (student, month). |
| BulkAttendance.LookupReg | backend/mess_api/views.py:125 | A missing registration number finds nothing. A found profile carries that number. "Not found" means no profile carries it. |
| BulkAttendance.LookupUnique | backend/mess_api/views.py:125 | On a valid profile table the lookup never finds two profiles. It finds one exactly when the number is known, and that one is the profile with it. |
| BulkAttendance.RowOf | backend/mess_api/views.py:119-122 | A record writes presence unless `is_present` is `false`, and its meal or else `Veg`. |
| BulkAttendance.BulkUpdateResult | backend/mess_api/views.py:109-113 | A missing or empty date, or missing or empty records, is refused, exactly then, and writes nothing. |
| BulkAttendance.BulkUpdate | backend/mess_api/views.py:109-144 | The loop returns exactly the response and table of the fold `BulkUpdateResult`. |
| BulkAttendance.RunAccountsForEveryRecord | backend/mess_api/views.py:118-139 | Each record is either counted or reported as one error, and earlier errors are kept in order. |
| BulkAttendance.RunUpdatedOnValidDate | backend/mess_api/views.py:124-135 | On a valid date, `updated_count` is the number of records whose registration number matches a profile and whose values the columns accept. |
| BulkAttendance.RunErrorsOnValidDate | backend/mess_api/views.py:136-139 | On a valid date, there is one error per record not written, in posted order: "not found" for an unknown number, and "Error for" a known one whose values the columns refuse. |
| BulkAttendance.RunOnInvalidDate | backend/mess_api/views.py:127-139 | On a date that does not parse, nothing is written, nothing is counted, and every record is reported. |
| BulkAttendance.LastTarget | backend/mess_api/views.py:118-134 | Names the last record that writes a student's row, or none if no record does. |
| BulkAttendance.RunTable | backend/mess_api/views.py:127-134 | A row exists after the loop exactly if it existed or a storable record names its student on that date. It then holds the last such record's values, and other rows are unchanged. |
| BulkAttendance.BulkUpdateIdempotent | backend/mess_api/views.py:127-134 | Posting the same request twice leaves the same table as posting it once. |
| BulkAttendance.RunNoDateKeepsTable | backend/mess_api/views.py:127-139 | Without a parsed date the table is untouched. |
| BulkAttendance.RunKeepsValidAttendance | backend/mess_api/models.py:39-50 | The table stays one row per (student, date) on real dates, provided every posted meal is a declared choice. |
| BulkAttendance.UncheckedMealIsStored | backend/mess_api/views.py:122-133 | A meal outside the choices, such as "Chicken", is stored as posted. |
| BulkAttendance.UnstorableRecordIsRejected | backend/mess_api/views.py:127-139 | A known student's record on a valid date with a `null` value, or a meal over the column's 10 characters, writes nothing, is not counted, and is reported as one error. |
| BillGeneration.ToFloat | backend/mess_api/views.py:178-184 | `float()` keeps numbers and reads a boolean as 1 or 0. On text it succeeds exactly when the text parses. `None`, a list or a dict raise a type error, and nothing else does. |
| BillGeneration.FirstFailure | backend/mess_api/views.py:178-187 | All conversions succeed with their values, or the first failure is reported. |
| BillGeneration.ParseRequest | backend/mess_api/views.py:161-187 | "Missing fields" holds exactly when month, daily rate or Non-Veg rate is falsy. An accepted request has parsed `Y-M` integers and converted rates. Any other refusal is a 400 or an uncaught error. |
| BillGeneration.ParsedRates | backend/mess_api/views.py:168-184 | Each accepted rate is `float()` of its field, or of 150/125/150/275 when a charge is left out. |
| BillGeneration.InvalidFormatCases | backend/mess_api/views.py:176-187 | With all required fields present, "invalid format" holds exactly when the month is not two integers joined by `-` or a rate does not convert. |
| BillGeneration.DefaultFixedCharges | backend/mess_api/views.py:168-171 | With the four charges left out, the fixed total is 700. |
| BillGeneration.PresentRows | backend/mess_api/views.py:196-201 | The counted rows are exactly the student's present rows in that year and month. |
| BillGeneration.NvRows | backend/mess_api/views.py:204-210 | The Non-Veg rows are exactly the present rows whose meal is `Non-Veg`. |
| BillGeneration.NvWithinPresent | backend/mess_api/views.py:196-210 | Non-Veg days never exceed present days. |
| BillGeneration.TimesIsProduct | backend/mess_api/views.py:216-217 | Repeated addition of a rate over the day count equals the product. |
| BillGeneration.AmountExample | backend/generate_test_bill.py:34-40 | 12 present days, 2 of them Non-Veg, at 65 a day and 27 extra, with default charges, cost 1534. |
| BillGeneration.AmountRelations | backend/mess_api/views.py:212-219 | The amount is present·daily + nv·nv_rate + fixed, and lies between the fixed charges and every present day priced at both rates. |
| BillGeneration.Recharged | backend/mess_api/views.py:222-234 | The upsert replaces the amount and the six rates, and keeps the id, student, month, paid flag and date. |
| BillGeneration.UpsertRejections | backend/mess_api/views.py:222-234 | The upsert raises exactly when two bills are found, a value is too wide for its decimal column, or a new bill's month exceeds 20 characters (the columns of backend/mess_api/models.py:57-71). The checks come in that order, and each error is named by the first that applies. |
| BillGeneration.UpsertTouchesOneKey | backend/mess_api/views.py:222-234 | An upsert that does not raise leaves the bills of every other (student, month) unchanged. |
| BillGeneration.UpsertResult | backend/mess_api/views.py:222-234 | After an upsert that does not raise, that student has exactly one bill for the month, with the new amount and rates. It is the old bill re-priced exactly when there was one, or else a new unpaid one. |
| BillGeneration.UpsertKeepsValidTable | backend/mess_api/views.py:222-234 | Upserting keeps bill ids distinct and below the next id. |
| BillGeneration.GenerateBillsResult | backend/mess_api/views.py:160-243 | A bad request, a month that is not text, a rate that raises a type error, and a year outside 1..9999 all leave the bills unchanged. With at least one student, an accepted request whose year is outside 1..9999 ends in that server error. |
| BillGeneration.Outcome | backend/mess_api/views.py:236-243 | A loop that raised gives the server error it raised. Otherwise the response reports every student, with created plus updated equal to their number. |
| BillGeneration.GenerateBills | backend/mess_api/views.py:160-243 | The endpoint returns exactly the response and table of `GenerateBillsResult`. |
| BillGeneration.BillEveryStudent | backend/mess_api/views.py:194-237 | The loop ends in exactly the state of the fold `GenRun`. |
| BillGeneration.GenRunStaysFailed | backend/mess_api/views.py:194-234 | Once an iteration has raised, the remaining students do not change the outcome. |
| BillGeneration.GenRunYearOutOfRange | backend/mess_api/views.py:196-201 | A year outside 1..9999 makes the first student's count raise, with nothing written and nothing created. A year inside it never raises that error, and the loop never raises the errors of the checks before it. |
| BillGeneration.GenRunSucceeds | backend/mess_api/views.py:194-237 | When no listed student's iteration raises, the loop does not fail and keeps the table valid. Bills of other students and months are unchanged. |
| BillGeneration.GenRunCreatedCount | backend/mess_api/views.py:236-237 | `created_count` is the number of students with no bill for the month beforehand. |
| BillGeneration.GenRunBillsEachStudent | backend/mess_api/views.py:194-234 | Each student ends with exactly one bill for the month, priced from their own attendance. An old bill keeps its id, paid flag and date; a new one is unpaid and dated today. |
| BillGeneration.GenRunFailsAt | backend/mess_api/views.py:194-234 | A student whose iteration raises, judged against the bills before the loop, makes the loop fail. |
| BillGeneration.GenStepEffect | backend/mess_api/views.py:194-237 | An iteration that does not raise keeps the table valid, counts a creation exactly when the student had no bill, and leaves that student exactly the re-priced or new bill. Other students' and months' bills are unchanged. |
| BillGeneration.GenStepFails | backend/mess_api/views.py:194-234 | An iteration that raises writes nothing and creates nothing. |
| BillGeneration.KeepsUnlisted | backend/mess_api/views.py:194-237 | Students the loop does not reach keep their bills. |
| BillGeneration.GenRunOutcome | backend/mess_api/views.py:194-237 | The loop fails exactly when some student's iteration raises. Otherwise `created` is the number of students who had no bill, and every student ends with exactly one bill for the month. |
| BillGeneration.BillableIff | backend/mess_api/views.py:194-234 | No iteration raises exactly when all of these hold. With at least one student, the year is in 1..9999 and the six rates fit their columns. No student has two bills for the month, and every amount fits its column. A month text over 20 characters only works if every student already has a bill. |
| BillGeneration.GenerateBillsOutcome | backend/mess_api/views.py:189-243 | An accepted request succeeds exactly when no student's iteration raises (spelled out by `BillableIff`); otherwise it ends in a server error. On success it reports every student, with `created` the number who had no bill, and leaves each student one bill for the month. |
| StaffAttendance.FindProfile | frontend/src/components/StaffAttendance.jsx:39 | `find` returns the first profile whose key matches, and none exactly when no profile matches. |
| StaffAttendance.SeedAsWrittenIsEmpty | frontend/src/components/StaffAttendance.jsx:34-50 | As written, the join on `p.id` never matches, so the editor always opens empty. |
| StaffAttendance.SeedingDropsSavedRows | frontend/src/components/StaffAttendance.jsx:34-50 | A saved row of a rostered student is dropped by the as-written seeding and shown by the corrected one. |
| StaffAttendance.SeedKeys | frontend/src/components/StaffAttendance.jsx:34-50 | After seeding, an entry exists exactly for the registration numbers that some fetched row joins to. |
| StaffAttendance.SeedValue | frontend/src/components/StaffAttendance.jsx:44-48 | An entry holds the presence and meal of the last row joined to it. |
| StaffAttendance.SeedSnoc | frontend/src/components/StaffAttendance.jsx:35-50 | One more row sets only its own entry, if it joins a profile. |
| StaffAttendance.MealOrVeg | frontend/src/components/StaffAttendance.jsx:73 | `meal_type \|\| 'Veg'` is never empty, and keeps a non-empty meal. |
| StaffAttendance.PresenceField | frontend/src/components/StaffAttendance.jsx:72 | An undefined presence is left out of the body, never sent as `null`; a defined one is sent as is. |
| StaffAttendance.SaveRecords | frontend/src/components/StaffAttendance.jsx:65-75 | Save sends exactly one record per roster student, in roster order, never with a `null` value. A student with no entry is sent present with `Veg`; one with an entry is sent its presence, left out when undefined, and its meal or `Veg`. |
| StaffAttendance.SaveWritesEveryStudent | frontend/src/components/StaffAttendance.jsx:60-80 | Posted to the server, a save whose meals fit the column leaves every roster student exactly one row for the day, holding that student's own record. |
| StaffAttendance.BulkChange | frontend/src/components/StaffAttendance.jsx:92-100 | An edit sets only the named field of the named entry, creating the entry if needed. Every other entry and field stays. |
| StaffAttendance.StatusRank | frontend/src/components/StaffAttendance.jsx:125-126 | The status sort ranks present as 1, and absent or no entry as 0. |
| StaffAttendance.DescendingNegates | frontend/src/components/StaffAttendance.jsx:124-140 | On every column, descending negates the ascending comparison. |
| StaffAttendance.CompareLaws | frontend/src/components/StaffAttendance.jsx:123-141 | Every comparator the page uses is total and transitive. |
| StaffAttendance.FilteredStudentsSpec | frontend/src/components/StaffAttendance.jsx:117-141 | The shown list holds exactly the students whose registration number or user name contains the lower-cased term, each once, and is sorted by the current comparator. |
| StaffAttendance.EmptySearchShowsAll | frontend/src/components/StaffAttendance.jsx:117-122 | An empty search shows the whole roster. |
| StaffAttendance.NextSortConfig | frontend/src/components/StaffAttendance.jsx:143-149 | A click sorts the chosen column. It is descending exactly when that column was ascending. |
| StaffAttendance.SortClicksAlternate | frontend/src/components/StaffAttendance.jsx:143-149 | Clicking the same column twice alternates its direction. |
| StaffAttendance.Marked | frontend/src/components/StaffAttendance.jsx:151-158 | Marking sets presence on the given numbers, creates `{p, Veg}` where there was no entry, and keeps existing meals. Every other entry is unchanged. |
| StaffAttendance.MarkedAdd | frontend/src/components/StaffAttendance.jsx:154-155 | Marking one more number creates `{p, Veg}` for it if it has no entry, then sets its presence; other entries are as before. |
| StaffAttendance.MarkAllTouchesShownOnly | frontend/src/components/StaffAttendance.jsx:151-158 | The marked numbers are exactly those of roster students the search matches. |
| StaffAttendance.MarkEach | frontend/src/components/StaffAttendance.jsx:152-156 | The `forEach` computes exactly `Marked` of the shown students. |
| StaffAttendance.StaffAttendanceView.constructor | frontend/src/components/StaffAttendance.jsx:5-18 | The page starts with no roster and no entries, on today's date, with no search, sorted by registration number ascending. |
| StaffAttendance.StaffAttendanceView.FetchAdminData | frontend/src/components/StaffAttendance.jsx:24-52 | The fetched roster is stored, and the entries are seeded with the corrected join on `p.user.id` (`Seed`), not the `p.id` of line 39, which leaves them empty (`SeedAsWrittenIsEmpty`). Nothing else changes. |
| StaffAttendance.StaffAttendanceView.SaveBulkAttendance | frontend/src/components/StaffAttendance.jsx:60-80 | Posts the selected date and `SaveRecords` of the roster. |
| StaffAttendance.StaffAttendanceView.HandleBulkChange | frontend/src/components/StaffAttendance.jsx:92-100 | The entries become `BulkChange` of the old ones; nothing else changes. |
| StaffAttendance.StaffAttendanceView.HandleSort | frontend/src/components/StaffAttendance.jsx:143-149 | The sort becomes `NextSortConfig` of the old one; nothing else changes. |
| StaffAttendance.StaffAttendanceView.MarkAll | frontend/src/components/StaffAttendance.jsx:151-158 | Marks exactly the shown students; nothing else changes. |
| AttendancePage.IsMarkedTodayIff | frontend/src/pages/Attendance.jsx:50-51 | Today is marked exactly when some record's date is today. |
| AttendancePage.SomeOnDateIff | frontend/src/pages/Attendance.jsx:50-51 | On records with real dates, `some(a => a.date === todayStr)` holds exactly when some record's date is spelt `todayStr`. |
| AttendancePage.GroupAttendance | frontend/src/pages/Attendance.jsx:54-67 | The in-place `reduce` builds the fold `Grouped`. Its buckets are exactly the months of the records. Each bucket holds its month's records in input order, counts them, counts the present ones, and is never empty. |
| AttendancePage.GroupedSpec | frontend/src/pages/Attendance.jsx:54-67 | The fold `Grouped` meets the bucket description for every input. |
| AttendancePage.GroupedSums | frontend/src/pages/Attendance.jsx:54-67 | The bucket totals add up to the number of records, and the present counts to the number of present records. |
| AttendancePage.AddRecordSpec | frontend/src/pages/Attendance.jsx:58-64 | One reduce step keeps the bucket description true. |
| AttendancePage.BucketStep | frontend/src/pages/Attendance.jsx:58-64 | After a step, each bucket holds, and counts, exactly its month's records of the longer input. |
| AttendancePage.RecordInItsBucket | frontend/src/pages/Attendance.jsx:55-62 | Every record lands in the bucket of its own month. |
| AttendancePage.BucketCountsBounded | frontend/src/pages/Attendance.jsx:58-64 | Every bucket has 1 ≤ totalCount and presentCount ≤ totalCount. |
| AttendancePage.AddRecordSums | frontend/src/pages/Attendance.jsx:62-64 | A step adds one to the sum of totals, and one to the sum of present counts for a present record. |
| AttendancePage.SortedMonthsSpec | frontend/src/pages/Attendance.jsx:69-71 | The sorted month keys are the bucket keys, each once, exactly the records' months, newest first. |
| AttendancePage.Percentage | frontend/src/pages/Attendance.jsx:95 | `Math.round(p/t·100)` is the integer nearest to 100p/t, rounding halves up. It lies in 0..100, is 100 when all days are present and 0 when none are. |
| AttendancePage.RoundedPercentage | frontend/src/pages/Attendance.jsx:95 | (200p + t) div 2t is the round-half-up of 100p/t. It lies in 0..100 when p ≤ t, is 100 when p = t and 0 when p = 0. |
| AttendancePage.MealLabel | frontend/src/pages/Attendance.jsx:124 | `meal_type \|\| '-'` is never empty and keeps a non-empty meal. |
| AttendancePage.BucketRowsReversed | frontend/src/pages/Attendance.jsx:109 | A bucket's table lists its month's records in reverse input order, and is never empty. |
| Dashboard.LatestBillSpec | frontend/src/pages/Dashboard.jsx:113-118 | With no bills the bill stays empty; otherwise it is a fetched bill with the largest id. |
| Dashboard.TodayMenu | frontend/src/pages/Dashboard.jsx:126-127 | Today's menu is the first row for today's weekday, or none exactly when there is no such row. |
| Dashboard.TodayMenuUnique | frontend/src/pages/Dashboard.jsx:127 | With one row per weekday, the row shown is today's row. |
| Dashboard.PresentDaysFitMonth | frontend/src/pages/Dashboard.jsx:134-137 | With one record per date, this month's present days do not exceed its length. |
| Dashboard.CostIsTimes | frontend/src/pages/Dashboard.jsx:205 | The invoice's products are the generator's amounts per count. |
| Dashboard.Figures | frontend/src/pages/Dashboard.jsx:183-206 | The month length is 28..31. pDays counts this month's present records, and abDays = length − pDays. The Veg and Non-Veg counts are this month's present records with those meals, and together they are at most pDays. An absent rate reads as 0. foodCost = pDays·daily + nv·nvRate, and fixedCost is the four charges. |
| Dashboard.MealCountsWithinPresent | frontend/src/pages/Dashboard.jsx:184-196 | Veg plus Non-Veg days are at most the present days. |
| Dashboard.DownloadInvoice | frontend/src/pages/Dashboard.jsx:139-237 | Without a bill nothing is produced. Otherwise the file is `Mess_Bill_<month>_<reg_num>.pdf`. |
| Dashboard.InvoiceRowsSpec | frontend/src/pages/Dashboard.jsx:209-220 | The table has seven rows in fixed order. The items are the figures' amounts and sum to foodCost + fixedCost; the last row shows `bill.amount`. |
| Dashboard.ItemsTotalOfRows | frontend/src/pages/Dashboard.jsx:212-218 | The item amounts sum to foodCost + fixedCost. |
| Dashboard.InvoiceMatchesBill | frontend/src/pages/Dashboard.jsx:205-219 | When the bill was generated from this month's attendance at its own rates, the items add up to the total shown. |
| Dashboard.InvoiceCountsCurrentMonth | frontend/src/pages/Dashboard.jsx:183-196 | A January bill downloaded in February counts February's days, so its items do not add up to its total. |
| ManageBills.SetField | frontend/src/pages/ManageBills.jsx:32-34 | `handleChange` sets the named input and no other. |
| ManageBills.DefaultFormRefused | frontend/src/pages/ManageBills.jsx:7-15 | The untouched form, with empty month and meal rates, is refused by the server for missing fields. |
| ManageBills.DefaultChargesMatchServer | frontend/src/pages/ManageBills.jsx:11-14 | The form's default charges convert to the server's own defaults 150/125/150/275. |
| ManageBills.FormMissingFields | frontend/src/pages/ManageBills.jsx:36-41 | A posted form is refused for missing fields exactly when month, daily rate or Non-Veg rate is empty. |
| ManageBills.PatchPaid | frontend/src/pages/ManageBills.jsx:64 | `PATCH {is_paid: true}` sets the flag on the bill with that id and changes no other bill. |
| ManageBills.PatchPaidOnce | frontend/src/pages/ManageBills.jsx:61-64 | A paid bill stays paid, and the marked bill is no longer offered "Mark Paid". Only the flag changes, and marking again changes nothing. |
| ManageBills.BillsPage.constructor | frontend/src/pages/ManageBills.jsx:5-15 | The page starts with no bills and the default form. |
| ManageBills.BillsPage.FetchBills | frontend/src/pages/ManageBills.jsx:21-30 | The fetched bills are stored; the form is unchanged. |
| ManageBills.BillsPage.HandleChange | frontend/src/pages/ManageBills.jsx:32-34 | The form becomes `SetField` of the old one; the bills are unchanged. |
| ManageBills.BillsPage.HandleGenerate | frontend/src/pages/ManageBills.jsx:36-57 | The form is posted exactly when confirmed. Only a successful generation refreshes the bills and restores the default form; otherwise nothing changes. |
| ManageBills.BillsPage.MarkAsPaid | frontend/src/pages/ManageBills.jsx:61-70 | `{is_paid: true}` is sent exactly when confirmed, and the bills are refetched only on success. |
| WeekMenu.DayOrder | frontend/src/pages/ManageMenu.jsx:20 | The day order takes values 1..7. |
| WeekMenu.DayOrderInjective | frontend/src/pages/ManageMenu.jsx:20 | Different weekdays have different places in the order. |
| WeekMenu.SortedMenuSpec | frontend/src/pages/ManageMenu.jsx:20-21 | The sorted menu keeps every fetched row exactly once, ordered Monday to Sunday. |
| WeekMenu.SortedMenuStrict | frontend/src/pages/StudentMenu.jsx:15-16 | With one row per weekday, the days strictly increase from Monday to Sunday. |
| WeekMenu.MealText | frontend/src/pages/StudentMenu.jsx:54-70 | An empty meal shows "Not specified", and a non-empty one shows itself. |
| WeekMenu.EmptyStateIffNoRows | frontend/src/pages/StudentMenu.jsx:77-81 | The "No menu items" state shows exactly when nothing was fetched. |
| ManageMenu.SetMeal | frontend/src/pages/ManageMenu.jsx:40-42 | `handleChange` sets the named meal and no other. |
| ManageMenu.FormOf | frontend/src/pages/ManageMenu.jsx:32 | The edit form holds the row's three meals. |
| ManageMenu.Patched | frontend/src/pages/ManageMenu.jsx:46 | The patch replaces the three meals and keeps the row's id and day. |
| ManageMenu.SaveUnchangedForm | frontend/src/pages/ManageMenu.jsx:30-46 | Saving an untouched form gives the row back. |
| ManageMenu.MenuEditor.EditButtonShown | frontend/src/pages/ManageMenu.jsx:67 | The "Edit" button shows exactly on the rows not being edited. |
| ManageMenu.MenuEditor.constructor | frontend/src/pages/ManageMenu.jsx:5-8 | The page starts with no menu, no row in edit mode and an empty form. |
| ManageMenu.MenuEditor.FetchMenu | frontend/src/pages/ManageMenu.jsx:14-28 | The menu is the fetched rows, each once, Monday to Sunday; the edit state is unchanged. |
| ManageMenu.MenuEditor.HandleEditClick | frontend/src/pages/ManageMenu.jsx:30-33 | Exactly the clicked row is in edit mode, with its meals in the form. |
| ManageMenu.MenuEditor.HandleCancelEdit | frontend/src/pages/ManageMenu.jsx:35-38 | No row is in edit mode and the form is empty. |
| ManageMenu.MenuEditor.HandleChange | frontend/src/pages/ManageMenu.jsx:40-42 | The form becomes `SetMeal` of the old one; nothing else changes. |
| ManageMenu.MenuEditor.HandleSave | frontend/src/pages/ManageMenu.jsx:44-54 | The form is patched to the row. On success no row is in edit mode and the menu is refetched sorted; on failure nothing changes. |
| ManageStudents.MatchesIff | frontend/src/pages/ManageStudents.jsx:24-28 | The search keeps a student exactly when the lower-cased term occurs in the lower-cased user name, registration number, or non-empty branch. |
| ManageStudents.FilteredStudentsSpec | frontend/src/pages/ManageStudents.jsx:24-28 | The list holds exactly the roster students the search keeps, in roster order. |
| ManageStudents.EmptyTermKeepsAll | frontend/src/pages/ManageStudents.jsx:24-28 | An empty search lists every student. |
| ManageStudents.SearchIgnoresCase | frontend/src/pages/ManageStudents.jsx:25-27 | Searching for the lower-cased term lists the same students. |
| ManageStudents.HeaderCountsAll | frontend/src/pages/ManageStudents.jsx:41 | The header counts every student whatever the search, and never fewer than are listed. |
| ManageStudents.NoStudentsRowIff | frontend/src/pages/ManageStudents.jsx:70-75 | "No students found" shows exactly when no student matches. With an empty search, that is exactly when there are no students. |
| Admin.Truncated | backend/mess_api/admin.py:10-11 | Text of at most 50 characters is unchanged. Longer text becomes its first 50 characters and `...`, 53 in all. |
| Admin.ListRowSpec | backend/mess_api/admin.py:7-20 | Each meal column is at most 53 characters, the meal itself when it fits, and otherwise starts with the meal's first 50 characters. |
| Admin.TruncatedIdempotent | backend/mess_api/admin.py:11 | Shortening shortened text changes nothing. |
| Admin.MarkAsPaid | backend/mess_api/admin.py:49-50 | The selected bills become paid and nothing else of any bill changes. The count is the number of selected bills. |
| Admin.PaidMessage | backend/mess_api/admin.py:51 | The message is the count in decimal followed by " bills marked as paid.". |
| Admin.MarkAsPaidSpec | backend/mess_api/admin.py:49-51 | The action keeps the table valid and one bill per month. It counts at most the table's bills, does nothing on an empty selection, and running it again changes nothing. |
| Common.ToLower | frontend/src/pages/ManageStudents.jsx:25-27 | `toLowerCase` keeps the length and lower-cases each ASCII letter. |
| Common.ContainsIff | frontend/src/pages/ManageStudents.jsx:25-27 | `includes` holds exactly when the term starts at some position of the text. |
| Common.ToLowerIdempotent | frontend/src/pages/ManageStudents.jsx:25-27 | Lower-casing twice is lower-casing once. |
| Common.EmptyContained | frontend/src/components/StaffAttendance.jsx:118-121 | The empty term is contained in every text. |
| Common.DaysInMonth | frontend/src/pages/Dashboard.jsx:183 | A month has 28 to 31 days, by the Gregorian leap rule. |
| Common.Filter | frontend/src/pages/Dashboard.jsx:134-137 | `filter` returns no more elements than it is given. |
| Common.Reverse | frontend/src/pages/ManageBills.jsx:198 | `[...xs].reverse()` has element i at position n−1−i. |
| Sorting.SortMembers | frontend/src/pages/Dashboard.jsx:116 | Sorting keeps exactly the elements it is given. |
| Sorting.SortByKey | frontend/src/pages/ManageMenu.jsx:21 | A key-difference comparator sorts to a permutation with non-decreasing keys. |
| Parsing.ParseYearMonthRoundTrip | backend/mess_api/views.py:177 | `map(int, s.split('-'))` reads back the year and month of a `YYYY-MM` text. |
| Parsing.PyFloatExtendsPyInt | backend/mess_api/views.py:177-184 | `float()` accepts every text `int()` accepts, with the same value. |
| Parsing.ParseDigitsText | backend/mess_api/views.py:177-184 | `int()` of a digit string is its decimal value. |
| Parsing.PyIntOfDecimal | backend/mess_api/views.py:177 | `int()` reads back the decimal spelling of every integer, negative ones with a leading minus. |
| Parsing.SplitJoin | backend/mess_api/views.py:177 | Splitting at a separator that no piece contains gives back the pieces. |
| Parsing.JoinSplit | backend/mess_api/views.py:177 | Joining the pieces of a split with the same separator gives back the text. |
| Parsing.ParseYearMonth | backend/mess_api/views.py:177 | A month text accepted as two integers joined by `-` has no negative part. |
| Parsing.NatToDecimalValue | backend/mess_api/admin.py:51 | The decimal spelling of a count reads back as that count. |
| Parsing.PadDecimalValue | frontend/src/pages/Attendance.jsx:50 | A zero-padded number reads back as that number. |
| Parsing.Strip | backend/mess_api/views.py:177-184 | Stripping never lengthens the text and leaves none of the whitespace `int()` and `float()` skip at either end. |
| Parsing.PyIntNoMinus | backend/mess_api/views.py:177 | Text without a minus sign never converts to a negative number. |
| Parsing.StripKeepsCharacters | backend/mess_api/views.py:177-184 | The whitespace `int()` and `float()` strip only removes characters. |
| Parsing.IntSkipsSpaces | backend/mess_api/views.py:177-184 | `int()` skips whitespace on both sides of digits, including Unicode spaces such as U+3000, U+00A0 and U+0085. |
| Parsing.IntRefusesSeparator | backend/mess_api/views.py:177-184 | `int()` does not skip the separator U+001C, so it fails on it. |
| Parsing.JoinCons | backend/mess_api/views.py:177 | Joining one more piece puts it in front, with a separator. |
| Parsing.ParseIsoDate | backend/mess_api/views.py:80-82 | A parsed date is a real calendar date with a year in 1..9999. |
| Parsing.ParseIsoDateRoundTrip | frontend/src/pages/Attendance.jsx:50 | The `YYYY-MM-DD` spelling of a date parses back to that date. |
| Parsing.FormatIsoDateInjective | frontend/src/pages/Attendance.jsx:50-51 | Distinct dates have distinct `YYYY-MM-DD` spellings. |
| Parsing.PadDecimalLength | frontend/src/pages/Attendance.jsx:50 | A number below 10^width pads to exactly `width` characters. |

## Left out

- HTTP, axios, JWT issuance, `localStorage`, routing, alerts, confirmation dialogs and React rendering. A confirmation and a request's success are parameters of the handlers, and the list fetched afterwards is a parameter `fetched`.
- The asynchronous refetches after a save. `fetchBills()` and `fetchMenu()` are not awaited; the model applies their result at once.
- jsPDF drawing of the invoice. The model keeps only the row contents and the file name. `toFixed(2)` formatting of amounts is not modelled.
- `toLocaleDateString`/`toLocaleString` month and weekday names are represented as the `(year, month)` key and the `Weekday` value.
- The current weekday and today's date are parameters.
- `new Date(record.date)` reads `YYYY-MM-DD` as midnight UTC, while `getMonth` and `toLocaleDateString` use local time. West of UTC, a record on the first of a month lands in the previous month. The model uses the record's own year and month.
- Floating point. Money and rates are exact reals; infinities and NaN from `float("inf")` are not modelled.
- Decimal columns: a value is stored as the exact real computed, without the rounding to two places. A value within rounding distance of a column's bound, such as a rate of 9999.996, is taken to fit, although rounding makes it overflow.
- `BillGeneration.Times`: `n * x` is modelled as repeated addition, proved equal to the product in `TimesIsProduct`, so that the amount stays linear arithmetic.
- `AttendancePage.Percentage`: computed on exact rationals, with halves rounded up as `Math.round` does. Binary rounding of `p / t * 100` in floating point is not modelled. It requires a non-empty bucket, and `BucketCountsBounded` proves every bucket is non-empty.
- JavaScript compares strings by UTF-16 code units; the model compares characters by code point. `toLowerCase` and `includes` are ASCII-only here.
- Python's `int()` and `float()` are modelled on ASCII digits, underscores, sign, decimal point and exponent. The whitespace they skip around a number is modelled: tab to carriage return, space, and the Unicode spaces above U+007F. Unicode digits, `inf`/`nan` and hexadecimal are not modelled.
- `date` parameters are parsed by Django's fallback pattern: four year digits, one or two month and day digits, and an optional final line feed, then the calendar check. Two things are not modelled. One is the extra spellings `date.fromisoformat` accepts first: the basic `YYYYMMDD` form, and week and ordinal dates. The other is Unicode digits, which `\d` matches.
- Column `max_length` limits are enforced where the two endpoints write text.
  - In `bulk_update`, a `meal_type` over 10 characters is an "Error for" entry (`Storable`).
  - In `generate_bills`, a new bill's `month` over 20 characters is a server error (`UpsertRejections`).
  - This assumes a database that refuses over-long text: PostgreSQL, or MySQL in strict mode. A database that truncates it instead is not modelled.
  - `meal_type` values are not checked against the two choices (`UncheckedMealIsStored`).
- `bulk_update` takes `records` to be a list of JSON objects. A record that is not an object makes `record.get` raise outside the `try`, a server error; `records` sent as text or as an object iterates characters or keys. Neither case is modelled.
- A posted `is_present` is modelled as a boolean or `null`, and `meal_type` as text or `null`. Other JSON types, which Django converts or refuses, are not modelled. `reg_num` is modelled as text or absent.
- StaffAttendance.StaffAttendanceView.FetchAdminData: seeds the entries with the corrected join on `p.user.id`. The join as written, on `p.id` (frontend/src/components/StaffAttendance.jsx:39), leaves them empty. That behaviour is proved by `StaffAttendance.SeedAsWrittenIsEmpty` and listed under Findings, but the method does not model it.
- `IsStaffOrReadOnly` is not part of this model. Who may call the two staff endpoints is not modelled.
- `markAll` copies `bulkData` shallowly and then mutates the inner entries, so the old state object's entries are changed too. The model treats entries as values and does not capture that aliasing.
- The Django admin's rendering, filters, search fields and `list_editable` columns. Only the truncation helpers and the `mark_as_paid` action are modelled.
- The profile form, registration and login pages, and the staff dashboard's static links.

## Findings

| source | as written | input that shows it | evidently intended | confidence | as-written member | corrected member |
|---|---|---|---|---|---|---|
| frontend/src/components/StaffAttendance.jsx:39 | Seeding joins each attendance row to the profile with `p.id === record.student`. The profile JSON has no `id` key: its primary key is `user`, rendered as the nested user (backend/mess_api/serializers.py:15-21). So no row ever joins, and every saved mark is dropped when the editor opens. | A roster profile of user 7 and a saved row with `student: 7` on the selected date. The editor opens with no entry for that student. | Join on `p.user.id`, as `openHistory` does at line 110. | not executed | StaffAttendance.SeedAsWrittenIsEmpty | StaffAttendance.SeedKeys |

The dashboard's invoice counts days in the *current* month, whatever month the bill is for (frontend/src/pages/Dashboard.jsx:130-131, 183-196). `Dashboard.InvoiceCountsCurrentMonth` shows a January bill downloaded in February whose itemised rows do not add up to the total it shows. `Dashboard.InvoiceMatchesBill` shows that they do when the bill is for the current month.
