# Twelve double-hours tinnitus helper — a Dafny model

Web_health is a Django site built on the twelve double-hours (时辰) of traditional Chinese
medicine. Each double-hour is a two-hour `TimeSlot` tied to a meridian and an organ. The site has
these parts:

- a home page and a JSON status endpoint that look up the double-hour containing the current time;
- per-user tinnitus diaries (`TinnitusLog`);
- per-slot reminders (`Reminder`);
- an acupoint catalogue (`AcupointMassage`);
- a user profile (`UserProfile`);
- a seed command, `init_data`, that creates the administrator, the twelve slots and eight acupoints.

This project models that core as pure functions over an immutable store:

| file | module | models |
|---|---|---|
| `models.dfy` | `Models` | the rows, the choice lists and their tokens, the store and its integrity invariant, the default orderings, and the cascades of the foreign keys |
| `resolver.dfy` | `Resolver` | the scan for the current double-hour in `home` and `get_current_time_slot`, including slots that cross midnight |
| `forms.dfy` | `Forms` | `TinnitusLogForm`, `UserProfileForm` and `TimeSlotFilterForm`: per-field cleaning, the error set, and the values a valid form saves |
| `views.dfy` | `Views` | diary creation and listing, the helper page, the reminder-settings upsert loop, acupoint list and detail, slot detail, and the profile page with `get_or_create` |
| `seeding.dfy` | `Seeding` | the seed command's generic "get_or_create by name, then copy differing fields" loop |
| `init_data.dfy` | `InitData` | the command itself: the administrator, the twelve seed slots with their hours, the eight acupoints, and `handle` |
| `math_filters.dfy` | `MathFilters` | the `mul` and `sub` template filters |
| `pyint.dfy`, `lookup.dfy`, `ordering.dfy`, `clock.dfy`, `wrappers.dfy` | | Python's `int()` on text, the ORM's `get`/`filter`, `order_by` as a stable sort, time of day as microseconds, and `Option`/`Result` |

The store (`Models.Db`) is a set of tables, each a sequence of rows in insertion order. The
`choices` of a slot's `name`, a diary's `frequency`, an acupoint's `body_part` and a profile's
`gender` are enumerations in the types (`SlotName`, `Frequency`, `BodyPart`, `Option<Gender>`).
Uniqueness constraints, foreign keys, the `choices` ranges of `severity` and `sleep_quality`, and
the length of `mood` are not built into the types. They are the invariant `Models.Valid`, and the
operations are shown to keep it.

Several things the program gets from its environment are parameters instead:

- the current time of day (`now: Time`) and the creation instant (`now: Instant`);
- the date-input parser (`parseDate`) and the date renderer (`formatDate`);
- the logged-in user (`user: Option<UserId>`, `None` for an anonymous request).

The date round trips assume only that parsing a rendered date gives the date back.

Where the code and its documentation disagree, the model follows the code. The diary's `date`
has `default=timezone.now` in the model. That default is only the initial value of the form
field, and the field is required. So a submission without a date is rejected rather than dated
today (`Forms.CleanLog`).

## Model

| member | source | states |
|---|---|---|
| Models.ParseChoice | main/models.py:23 | a stored choice token reads back as the choice carrying it; no choice carries a token that reads as `None` |
| Models.ParseChoiceOfToken | main/models.py:8-21 | in a list with distinct tokens, every choice's token reads back as exactly that choice |
| Models.SlotTokenInjective | main/models.py:8-21 | two double-hours with the same stored name are the same double-hour |
| Models.SlotTokenRoundTrip | main/models.py:8-23 | every double-hour's stored name parses back to it, and no other double-hour has that name |
| Models.IndexOfSlot | main/models.py:8-21 | every double-hour has a position in `TIME_CHOICES`, and the list holds it there |
| Models.FrequencyTokenRoundTrip | main/models.py:55-59 | each frequency's token parses back to that frequency |
| Models.BodyPartTokenRoundTrip | main/models.py:106-113 | each body part's token parses back to that body part |
| Models.GenderTokenRoundTrip | main/models.py:134-138 | each gender's token parses back to that gender |
| Models.OrderingsAreTotalPreorders | main/models.py:77-80 | ordering by `start_time`, by `(-date, -created_at)` and by `-date` are each total and transitive, so they are valid sort orders |
| Models.AllSlots | main/models.py:36-39 | `TimeSlot.objects.all()` lists every stored slot exactly as often as it is stored, in nondecreasing `start_time` |
| Models.AllSlotsMembers | main/models.py:36-39 | a slot is listed by `TimeSlot.objects.all()` iff it is stored |
| Models.AllLogs | main/models.py:77-80 | the default diary ordering lists every log exactly as often as it is stored, newest date first and, within a date, newest creation first |
| Models.DeleteTimeSlot | main/models.py:63-120 | deleting a slot removes exactly that slot and its reminders, sets the slot of diaries that named it to empty, drops it from every acupoint's related slots, and changes nothing else |
| Models.DeleteUser | main/models.py:61-140 | deleting a user removes exactly that user's account, diaries, reminders and profile, and leaves slots and acupoints alone |
| Models.DeleteTimeSlotKeepsValid | main/models.py:63-120 | the slot cascade leaves no diary, reminder or acupoint referring to a missing slot |
| Models.DeleteUserKeepsValid | main/models.py:61-140 | the user cascade leaves no row referring to a missing user |
| Lookup.Get | main/views.py:45 | `get` finds nothing iff no row matches, names the only matching row when there is one, and reports several matches iff two rows match |
| Lookup.Filter | main/views.py:140 | `filter` keeps exactly the matching rows and never adds any |
| Lookup.FilterCounts | main/views.py:140 | `filter` keeps each matching row as often as it is stored and drops every other |
| Lookup.FilterPairwise | main/views.py:140 | filtering keeps the uniqueness of rows that held before |
| Ordering.Sort | main/views.py:97 | `order_by` returns a permutation of its input, sorted by the requested key |
| PyInt.ParseIntOfString | main/templatetags/math_filters.py:9 | `int()` reads an integer's decimal text back, with white space on either side |
| PyInt.ParseIntNeedsDigits | main/templatetags/math_filters.py:10-11 | `int()` rejects blank text and a lone sign |
| PyInt.IntToStringInjective | main/templatetags/math_filters.py:9 | distinct integers have distinct decimal texts |
| PyInt.StripIdempotent | main/models.py:67-73 | the form's stripping of text fields is idempotent, and its result has no white space at either end |
| Resolver.ContainsIffInUnfoldedInterval | main/views.py:27-33 | a time lies in a slot iff it, or the same time on the next day, lies in the half-open interval from the start to the end unfolded past midnight |
| Resolver.BoundsOfSlot | main/views.py:27-33 | a non-empty slot contains its start time and no slot contains its end time |
| Resolver.Resolve | main/views.py:25-34 | the scan returns the first slot in order that contains the time, and `None` iff no slot contains it |
| Resolver.ResolveUniqueMatch | main/views.py:25-34 | when only one slot contains the time, the scan finds that slot wherever it is in the order |
| Resolver.ResolveFirst | main/views.py:25-34 | the scan stops at the first containing slot and returns it |
| Resolver.Home | main/views.py:16-40 | the home page lists every slot by start time and marks as current the first one containing the time, or none iff no stored slot contains it |
| Resolver.CurrentTimeSlot | main/views.py:200-227 | the status API answers with a stored slot containing the time iff there is one, with that slot's five fields, and otherwise with the fixed error message |
| Resolver.StatusOfOnlyMatch | main/views.py:200-227 | when exactly one stored slot contains the time, the API reports that slot |
| Resolver.HomeAndApiAgree | main/views.py:200-227 | the API reports a slot iff the home page marks one current, and it is the same slot |
| Forms.IntChoiceAccepts | main/models.py:64 | an integer choice field accepts a text iff it is the decimal text of a value in the range, and then yields that value |
| Forms.IntChoiceIsChoiceLookup | main/models.py:47-53 | cleaning an integer choice from its range is the same as looking the text up among the choices' texts |
| Forms.SeverityChoiceField | main/models.py:47-53 | the severity field accepts exactly the texts of the five `SEVERITY_CHOICES` |
| Forms.SleepQualityChoiceField | main/models.py:72 | the sleep-quality field accepts exactly the texts of the choices 1 to 10 |
| Forms.SlotChoiceAccepts | main/models.py:63 | the slot field accepts an empty value as no slot, or the decimal text of a stored slot's key as that slot, and nothing else |
| Forms.SlotChoiceOfText | main/models.py:63 | a stored slot's key, as text, selects that slot |
| Forms.FrequencyAccepts | main/models.py:55-65 | the frequency field accepts a text iff it is one of the three frequency tokens |
| Forms.GenderAccepts | main/models.py:134-141 | the gender field accepts a text iff it is one of the three gender tokens |
| Forms.CleanLog | main/forms.py:6-15 | a valid diary form yields values that satisfy every stored-field constraint, with stripped texts free of null characters; an invalid one names at least one field in error |
| Forms.CleanLogAccepts | main/forms.py:6-15 | the diary form is valid iff each of its twelve fields accepts its submitted value, and the fields in error are exactly those that do not |
| Forms.LogFieldCleaned | main/forms.py:11-15 | each diary field's check is the Django rule for its model field: a required date, an optional stored slot, a severity in 1..5, a frequency token, an integer duration, an optional sleep quality in 1..10, texts of any length without a null character, and a mood of at most 100 characters without one |
| Forms.CleanLogReadsOnlyItsFields | main/forms.py:11-15 | two submissions that agree on the twelve listed fields clean to the same result, so no other posted field can reach the diary |
| Forms.SeverityInRange | main/models.py:64 | a cleaned severity is a valid severity, and the field accepts exactly the texts of 1..5 |
| Forms.SleepQualityInRange | main/models.py:72 | a cleaned sleep quality is in 1..10 or absent, and the field accepts exactly blank or the texts of 1..10 |
| Forms.CleanLogValues | main/forms.py:11-15 | when each field cleans to a value, the form yields exactly those values |
| Forms.CleanLogRoundTrip | main/forms.py:6-15 | submitting any acceptable diary values, written as the form renders them, cleans back to exactly those values |
| Forms.LogDateRoundTrip | main/models.py:62 | a rendered date is read back by the date field |
| Forms.LogSlotRoundTrip | main/models.py:63 | a stored slot's key, or a blank, is read back by the slot field |
| Forms.LogSeverityRoundTrip | main/models.py:64 | a valid severity's text is read back by the severity field |
| Forms.LogFrequencyRoundTrip | main/models.py:65 | a frequency's token is read back by the frequency field |
| Forms.LogDurationRoundTrip | main/models.py:66 | any integer's text is read back by the duration field |
| Forms.LogSleepQualityRoundTrip | main/models.py:72 | a valid sleep quality's text, or a blank, is read back by its field |
| Forms.LogNotesRoundTrip | main/models.py:67-73 | stripped symptom, trigger and note texts are read back unchanged |
| Forms.LogMassageRoundTrip | main/models.py:69-71 | stripped massage and mood texts are read back unchanged |
| Forms.LogTextRoundTrip | main/models.py:67-73 | a text field yields a stripped submitted text unchanged |
| Forms.LogTextStripped | main/models.py:67-73 | a cleaned text never begins or ends with white space |
| Forms.NewLog | main/views.py:82-84 | the saved diary belongs to the requesting user and is stamped with the creation instant |
| Forms.NewLogFields | main/forms.py:11-15 | the saved diary holds exactly the twelve cleaned values, every diary is rebuilt from its twelve fields, its user and its creation instant, and acceptable values make a valid row |
| Forms.CleanProfile | main/forms.py:59-67 | a valid profile form yields values that satisfy the profile's constraints, with stripped texts free of null characters; an invalid one names at least one field in error |
| Forms.CleanProfileAccepts | main/forms.py:59-67 | the profile form is valid iff each of its seven fields accepts its submitted value, and the fields in error are exactly those that do not |
| Forms.ProfileFieldCleaned | main/models.py:141-147 | each profile field's check is its model field's rule: a blank or a gender token, optional dates, a constitution type of at most 50 characters, and free texts; no text may hold a null character |
| Forms.ProfileTextStripped | main/models.py:144-147 | a cleaned profile text never begins or ends with white space |
| Forms.CleanProfileValues | main/forms.py:64-67 | when each profile field cleans to a value, the form yields exactly those values |
| Forms.ProfileGenderRoundTrip | main/models.py:141 | a gender's token, or a blank, is read back by the gender field |
| Forms.ProfileDatesRoundTrip | main/models.py:142-143 | a rendered date, or a blank, is read back by both optional date fields |
| Forms.ProfileTextsRoundTrip | main/models.py:144-147 | stripped profile texts are read back unchanged |
| Forms.CleanProfileRoundTrip | main/forms.py:59-67 | submitting any acceptable profile values, written as the form renders them, cleans back to exactly those values |
| Forms.ApplyProfile | main/forms.py:64-67 | saving the profile form keeps the profile's user and creation instant |
| Forms.ApplyProfileLaws | main/forms.py:64-67 | saving writes exactly the submitted seven values, saving the values already held changes nothing, and a later save replaces an earlier one entirely |
| Forms.CleanFilter | main/forms.py:88-105 | a valid filter names only a stored slot; an invalid one names a field in error |
| Forms.CleanFilterOptional | main/forms.py:88-105 | an empty filter submission is valid and selects nothing, and the filter is invalid iff a given field fails to parse |
| Views.CreateLog | main/views.py:76-91 | an anonymous request is sent to log in; a valid submission appends one diary owned by the user and stamped now, and changes nothing else; an invalid one reports errors |
| Views.CreateLogAccepts | main/views.py:79-86 | a logged-in submission creates a diary iff the form is valid, the errors are the form's, and the diary holds the cleaned values |
| Views.CreateLogRoundTrip | main/views.py:79-84 | submitting rendered acceptable values appends exactly the diary holding them |
| Views.CreateLogKeepsValid | main/views.py:79-84 | creating a diary for an existing user keeps the store consistent |
| Views.ListLogs | main/views.py:94-99 | the diary list holds each of the user's diaries as often as it is stored and nobody else's, newest date first |
| Views.ListLogsMembers | main/views.py:97 | a diary is listed iff it is stored and belongs to the user |
| Views.RecentLogs | main/views.py:61 | the helper shows the first five diaries of that list, or all of them when there are fewer |
| Views.RecentLogsAreNewest | main/views.py:61 | every diary the helper shows is the user's, and none is older than a diary of the list that it leaves out |
| Views.ActiveReminders | main/views.py:64 | the helper's reminders are exactly the user's active ones |
| Views.TinnitusHelper | main/views.py:57-73 | an anonymous visitor gets an empty page; a user gets their recent diaries and active reminders |
| Views.SetPreferenceSpec | main/views.py:113-122 | one `get_or_create`-and-update stores the requested reminder, keeps the key unique, and touches no row but the one with that user and slot |
| Views.SetPreferenceInPlace | main/views.py:113-122 | re-saving a reminder that is already stored changes nothing |
| Views.OnlyRewritesCompose | main/views.py:109-122 | the rows one step rewrites, followed by those the next step rewrites, are all that the two steps rewrite together |
| Views.SaveRemindersStep | main/views.py:109-122 | one pass of the loop stores its slot's request, and the remaining passes continue from there |
| Views.SaveRemindersSpec | main/views.py:109-122 | the loop never hits a duplicate, stores every requested reminder, keeps (user, slot) unique, and rewrites only the user's rows for the listed slots |
| Views.SaveRemindersInPlace | main/views.py:109-122 | when every requested reminder is already stored, the loop changes nothing |
| Views.SaveRemindersIdempotent | main/views.py:109-122 | submitting the same reminder settings twice gives the same table as submitting them once |
| Views.ReminderSettings | main/views.py:102-125 | an anonymous request is sent to log in; otherwise only the reminder table changes |
| Views.ReminderSettingsSpec | main/views.py:102-125 | for an existing user on a consistent store: the save succeeds; each slot's reminder is active iff its box was "on", with the posted message or ""; the user has one reminder per slot; other users' reminders stay in place; the store stays consistent |
| Views.AcupointList | main/views.py:134-147 | with no body part, or an empty one, every acupoint is listed; otherwise exactly those stored under that token |
| Views.AcupointListByPart | main/views.py:139-140 | filtering by a body part's token lists exactly the acupoints on that body part |
| Views.AcupointListUnknownPart | main/views.py:139-140 | a non-empty token that is no body part lists nothing |
| Views.AcupointDetail | main/views.py:150-154 | the page is a 404 iff no acupoint has that key, and otherwise shows an acupoint with that key |
| Views.AcupointDetailByKey | main/views.py:152 | on a consistent table the page is never ambiguous and shows exactly the acupoint with that key |
| Views.TimeSlotDetail | main/views.py:43-54 | the page is a 404 iff no slot has that name; otherwise it shows the slot and exactly the acupoints related to it |
| Views.TimeSlotDetailByName | main/views.py:45 | with unique slot names, every stored slot's page shows that slot, and a name that is no double-hour is a 404 |
| Views.GetOrCreateProfile | main/views.py:165 | `get_or_create` yields a table and a position holding a profile of the user |
| Views.GetOrCreateProfileSpec | main/views.py:165 | with one profile per user, `get_or_create` succeeds; the user then has exactly one profile; a blank one is appended only when they had none |
| Views.OverwriteProfile | main/views.py:168-170 | saving over the user's only profile keeps it their only profile and leaves the other rows in place |
| Views.Profile | main/views.py:162-177 | an anonymous request is sent to log in; otherwise the page shows or saves a profile of the requesting user and changes only the profile table; a GET shows no errors |
| Views.ProfileSpec | main/views.py:162-177 | with one profile per user the page never fails; the user ends with exactly one profile, the one shown or saved; other users' profiles stay in place; a valid POST saves exactly the cleaned values |
| Views.ProfileRevisit | main/views.py:165 | a second visit finds the profile the first one created and changes nothing |
| Views.ProfileKeepsValid | main/views.py:162-177 | the profile page keeps the store consistent for an existing user |
| MathFilters.Mul | main/templatetags/math_filters.py:5-11 | `mul` is the product of the converted operands, or 0 when either conversion fails |
| MathFilters.Sub | main/templatetags/math_filters.py:13-19 | `sub` is the difference of the converted operands, or 0 when either conversion fails |
| MathFilters.ToIntOfText | main/templatetags/math_filters.py:9 | a string holding an integer's text, padded with white space, converts to that integer |
| MathFilters.ToIntOfPlainText | main/templatetags/math_filters.py:9 | an integer's text converts back to it |
| MathFilters.ToIntOfBlank | main/templatetags/math_filters.py:10 | blank text and a lone sign fail to convert |
| MathFilters.FiltersOfText | main/templatetags/math_filters.py:8-17 | on two integers' texts, `mul` and `sub` compute their product and difference |
| MathFilters.MulCommutes | main/templatetags/math_filters.py:5-11 | `mul` gives the same result with its operands swapped, including the fallback |
| MathFilters.SubAntisymmetric | main/templatetags/math_filters.py:13-19 | swapping the operands of `sub` negates its result, including the fallback |
| MathFilters.FilterIdentities | main/templatetags/math_filters.py:8-17 | `sub(v, v)` is 0, and `mul(v, 1)` is the integer of `v`, or 0 when `v` does not convert |
| MathFilters.FiltersFallBack | main/templatetags/math_filters.py:10-19 | a failed conversion on either side makes both filters 0 |
| Seeding.Upsert | main/management/commands/init_data.py:182-201 | one entry: a duplicate name aborts with nothing changed; otherwise the entry's row then agrees with the entry, the event says created, updated or unchanged exactly as the row was missing, differed or agreed, and no other row changes |
| Seeding.UpsertAll | main/management/commands/init_data.py:182-201 | the loop keeps keys and names unique and touches only rows named by an entry |
| Seeding.UpsertAllSeeds | main/management/commands/init_data.py:182-201 | with distinct entry names, the loop fails iff some entry's name is held by two rows, and otherwise leaves every entry seeded |
| Seeding.UpsertAllAgain | main/management/commands/init_data.py:187-201 | on a table that already agrees with every entry, the loop changes nothing and reports every entry unchanged |
| Seeding.SeedTwice | main/management/commands/init_data.py:182-201 | running the loop a second time changes nothing and reports every entry unchanged |
| Seeding.UpsertAllKeeps | main/management/commands/init_data.py:272-291 | a field the entries never set keeps its stored value, and new rows get the entries' value |
| Seeding.FailedIsAnEntry | main/management/commands/init_data.py:183-186 | a failure always names one of the entries |
| Seeding.FramesKeepGet | main/management/commands/init_data.py:183-186 | looking up a name the loop did not touch finds what it found before |
| InitData.InitAdminUser | main/management/commands/init_data.py:25-31 | the administrator is created only when no user is called "admin", as a superuser under a fresh key; afterwards an "admin" user always exists |
| InitData.InitAdminKeepsValid | main/management/commands/init_data.py:25-31 | creating the administrator keeps the store consistent and every user |
| InitData.ReconcileSlotFieldsChanged | main/management/commands/init_data.py:190-196 | the field loop reports a change iff some listed field differed, and returns the row unchanged otherwise |
| InitData.ReconcileSlotLaws | main/management/commands/init_data.py:187-201 | reconciling a slot reports a change iff it disagreed with the entry, always leaves it agreeing, and keeps an agreeing row as it is |
| InitData.ReconcileAcupointFieldsChanged | main/management/commands/init_data.py:280-286 | the acupoint field loop reports a change iff some listed field differed, and returns the row unchanged otherwise |
| InitData.ReconcileAcupointLaws | main/management/commands/init_data.py:277-291 | reconciling an acupoint reports a change iff it disagreed with the entry, always leaves it agreeing, and keeps an agreeing row |
| InitData.TimeSlotsDataNames | main/management/commands/init_data.py:35-180 | the twelve entries are named in `TIME_CHOICES` order, so their names are distinct |
| InitData.TimeSlotsDataTiles | main/management/commands/init_data.py:35-180 | each entry ends where the next one starts, cyclically, and only 子时 crosses midnight |
| InitData.TimeSlotsDataCover | main/management/commands/init_data.py:35-180 | every time of day lies in exactly one entry, the one whose name `SlotNameAt` gives |
| InitData.ZiHours | main/management/commands/init_data.py:41-42 | the times from 23:00 to before 01:00 belong to 子时 |
| InitData.ChouHours | main/management/commands/init_data.py:53-54 | the times from 01:00 to before 03:00 belong to 丑时 |
| InitData.HaiHours | main/management/commands/init_data.py:173-174 | the times from 21:00 to before 23:00 belong to 亥时 |
| InitData.AcupointsDataNames | main/management/commands/init_data.py:205-270 | there are eight acupoint entries with distinct names, and none sets related slots |
| InitData.Handle | main/management/commands/init_data.py:11-23 | the command always leaves an administrator, and never touches diaries, reminders or profiles |
| InitData.HandleFrames | main/management/commands/init_data.py:11-23 | the command rewrites only slots and acupoints named by an entry, and a failure names a slot or acupoint entry |
| InitData.HandleSeedsSlots | main/management/commands/init_data.py:182-201 | on a consistent store every slot entry is seeded afterwards, with slot names still unique |
| InitData.HandleResolves | main/management/commands/init_data.py:11-23 | after the command, each time of day lies in exactly one stored slot, the one named by `SlotNameAt`, and both the home page and the API find it |
| InitData.HandleKeepsValid | main/management/commands/init_data.py:11-23 | the command keeps the store consistent |
| InitData.HandleFailsOnlyOnAcupoints | main/management/commands/init_data.py:272-276 | on a consistent store the command fails iff two stored acupoints share the name of an entry, and the failure then names an acupoint entry |
| InitData.HandleIdempotent | main/management/commands/init_data.py:11-23 | running the command again changes nothing and reports every entry unchanged |
| InitData.SeedAcupointsKeepsRelated | main/management/commands/init_data.py:272-291 | seeding keeps every stored acupoint's related slots and gives new acupoints none |
| InitData.SeededOnlyMatch | main/views.py:200-227 | on a seeded table the current slot is the one named by `SlotNameAt`, and the API reports its seeded fields |
| InitData.SeededZiSpansMidnight | main/views.py:207-210 | on a seeded table the API reports 子时 from 23:00 to before 01:00, across midnight |
| InitData.SeededChou | main/views.py:211-214 | on a seeded table the API reports 丑时 from 01:00 to before 03:00 |
| InitData.SeededHai | main/views.py:211-214 | on a seeded table the API reports 亥时 from 21:00 to before 23:00 |

## Left out

- Rendering, templates, flash messages, redirects and JSON serialisation are left out. Each view returns what it would render or save. `add_class` (main/templatetags/math_filters.py:21-24) renders a widget and is not modelled.
- `about`, `register`, authentication, the URL configuration and the admin are left out. They are framework plumbing, and the logged-in user is a parameter.
- The GET branch of `reminder_settings` builds the map from slot to reminder only for rendering, and is not modelled.
- `ReminderForm` (main/forms.py:46-56) is not used by any view, and is not modelled.
- The `updated_at` stamps (`auto_now`) are left out, because no view reads them. `created_at` is a parameter of the operation that creates the row.
- The clock is a parameter. The home page and the API read `timezone.now().time()`, which depends on the `USE_TZ`/`TIME_ZONE` settings; settings.py is not part of this model.
- Image files (`ImageField`) are opaque strings. Uploading and storage are left out.
- The seed command's output lines are `Seeding.Event` values, not text on stdout.
- The long advice texts of the seed tables (`description`, `health_tips`, `case_suggestions`, `food_recommendations`, and the acupoints' texts) are stood in for by distinct opaque strings. The slot names, Chinese names, meridians, organs and hours are the real ones.
- PyInt.ParseInt: Python's `int()` also accepts underscores between digits and non-ASCII decimal digits; the model accepts ASCII digits only. Its surrounding white space is Python's full `str.isspace` set, Unicode spaces included (`PyInt.IsSpace`).
- Forms.LogFieldCleaned: the duration accepts any integer text. The database's integer range and the `IntegerField`'s acceptance of texts such as "3.0" are left out. The `min="1"` widget attribute is only a browser hint and is not enforced by the form.
- MathFilters.ToInt: floats (`int(2.7)`) and other Python types are left out; the values are ints, strings, booleans and `None`.
- Views.ListLogs: `order_by('-date')` leaves the order of diaries with the same date to the database. The model fixes one such order: a stable sort of the table order.
- Views.AcupointDetail: `MultipleFound` models `MultipleObjectsReturned`, which a consistent table never raises, as `Views.AcupointDetailByKey` shows.
- Models.Db: Django does not enforce `choices` in the database, so a stored slot name, frequency, body part or gender outside its choice list is possible in the program but cannot be represented here. Rows are only written through the forms and the seed command, which produce values from the lists.
- Concurrency, transactions and races between two `get_or_create` calls are left out: each request runs alone.
- The filter form `TimeSlotFilterForm` is modelled as a cleaner only, because no view in main/views.py uses it.
