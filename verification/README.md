# Weekly timesheets, module access and helpdesk rules of a Django ERP

This project models the core rules of a small Django ERP in Dafny.

- **Weekly timesheet workflow.**
  - A user creates a sheet for a week.
  - They fill a grid of (project, task, activity) rows by day.
  - They submit the sheet. Privileged users approve it outright. The managers of the projects on the sheet sign off one after another, and the sheet is approved once every manager has signed.
  - A sheet can also be rejected, or its submission cancelled.
  - Saving the grid reconciles the posted cells with the stored entries: it removes duplicate entries, creates or updates each cell, and keeps an anchor entry on the week's first day so that each row survives.
- **Module access.**
  - Five menu flags per group (helpdesk, approvals, HE approvals, admin, reports) are kept in step with five custom permissions.
  - This happens through signals, the `sync_module_access_flags` and `create_groups` commands, and the data migrations 0006, 0008 and 0011.
  - The menu context processor ORs the flags of the user's groups, then adds the permissions the user holds.
  - Migration 0015 ensures a default `admin` user.
- **Public numbers.** Tasks and tickets get a sequential public number on save (the largest in use plus one). Migration 0004 of each app backfills existing rows in key order.
- **Projects.**
  - Which projects a user can see, and which they may log time against.
  - The per-month hour breakdown of a project.
  - The quick task creation form.
  - The task status update.
  - The migration of an issue's single colleague into a colleague set.
- **Helpdesk.** Ticket visibility and edit rights, comment threads with internal comments, the ticket form's project and assignee rules, and ticket creation.

Entities are immutable datatypes:
- the database is a set of sequences and maps;
- a view is a pure function from the store and the request to the store afterwards and an outcome;
- a management command or migration is a function from the rows before to the rows after.

Hours are integer hundredths, since the column is `DecimalField(5, 2)`. Dates are proleptic Gregorian `(year, month, day)` triples.

Modules:
- `Accounts`, `Projects`, `Timesheets`: the data model.
- `Lifecycle`: the transitions.
- `GridKeys`: the grid's field names and values.
- `Reconciler`: the grid save and the row actions.
- `GridView`: the detail page.
- `TimesheetActions`: the action dispatcher and the delete view.
- `ModuleAccess`, `GroupCommands`, `AccessMigrations`, `DefaultAdmin`: module access.
- `PublicIds`: public numbers.
- `Issues`: quick create, status update and the colleagues migration.
- `ProjectHours`: the hours page.
- `Helpdesk`: tickets and comments.
- `Wrappers`, `Text`, `Dates`, `Decimals`, `Assoc`: helpers.

Inputs the source draws from elsewhere become parameters:
- "today" for the start-date check;
- the password hash of the default admin, since hashing draws a random salt;
- the set of permission codenames that exist as rows;
- the order in which the database returns rows, taken as the order of the sequences.

## Model

| member | source | states |
|---|---|---|
| Projects.AssignableAreVisible | apps/projects/views.py:31-35 | Every project a non-client user may log time against is one they can see. |
| Projects.ClientSeesOnlyExternal | apps/projects/views.py:24-29 | A client without a global permission sees only external projects. |
| Projects.CompletedNeverAssignable | apps/timesheet/views.py:137-140 | A completed project never receives time, whoever the user. |
| Projects.AssignableAreOpenVisible | apps/timesheet/views.py:137-144 | For a user who is neither a client nor a holder of a global project permission, the projects open to their time are exactly the visible ones that are not completed. |
| Projects.ClientLogsTimeUnseen | apps/timesheet/views.py:137-144 | A client on the team of an open project closed to external access may log time against it, yet the project pages hide it from them. |
| Projects.InvolvedSeesProject | apps/projects/views.py:31-35 | A user who is not a client sees every project they are on the team of, manage or own. |
| Projects.MorePermsSeeMore | apps/projects/views.py:15-35 | Granting permissions never hides a project: with the same identity, role and superuser flag, more permissions see at least as many projects. |
| Projects.ManagerOf | apps/timesheet/views.py:298-300 | For a known project, the manager is exactly the project's manager field. A null or unknown project has none. |
| Projects.Members | apps/helpdesk/forms.py:16-22 | A project's members are its team plus its manager and owner when these are set. |
| Projects.FetchOf | apps/projects/views.py:341 | A lookup by key is a 404 on no row and a 500 (`MultipleObjectsReturned`) on two or more rows, unless the query is distinct. |
| Projects.JoinedRowsFound | apps/projects/views.py:23-35 | The join of a project with its team, filtered for an unprivileged user, yields some row exactly when the visibility rules let the user see the project. |
| Projects.JoinedRowsRepeat | apps/projects/views.py:23-35 | The filtered join yields more than one row exactly when the user passes through the project itself (manager or owner, or the client of an external project) and the team has two or more members. Then it yields one row per team member. |
| Projects.ProjectLookup | apps/projects/views.py:341 | The project lookup is a 404 exactly for a project the user cannot see. As written, it is a 500 exactly when an unprivileged manager, owner or external client opens a project whose team has two or more members. With `.distinct()` it never is. |
| Projects.ManagerOfTeamOfTwoCrashes | apps/projects/views.py:30-35 | A manager without a project permission who opens a project with a two-member team gets a 500 from the query as written and the project from the distinct query. |
| Timesheets.NewEntry | apps/timesheet/models.py:44-64 | A new entry sits in the slot it was made for, with the given hours. |
| Timesheets.EntriesOf | apps/timesheet/models.py:45 | An entry is in a sheet's list exactly when it is stored and points at the sheet. |
| Timesheets.EntriesOfExact | apps/timesheet/models.py:45 | A sheet's list keeps store order and holds each of the sheet's entries as often as the store does, so duplicates are kept. |
| Timesheets.Matching | apps/timesheet/views.py:440-446 | Every entry the filter keeps lies in the slot and in the store. |
| Timesheets.Outside | apps/timesheet/views.py:440-449 | Every entry kept outside a set of slots is stored and lies in none of them. This is the frame the grid save leaves alone. |
| Timesheets.MatchingAppend | apps/timesheet/views.py:440-446 | Filtering a concatenation filters each part. |
| Timesheets.OutsideAppend | apps/timesheet/views.py:440-449 | Excluding slots from a concatenation excludes them from each part. |
| Timesheets.MatchingExact | apps/timesheet/views.py:440-446 | The filter keeps every stored entry of the slot, in store order and as often as the store holds it. |
| Timesheets.OutsideExact | apps/timesheet/views.py:440-449 | Excluding slots keeps every stored entry outside them, in store order and as often as the store holds it. |
| Timesheets.OutsideNested | apps/timesheet/views.py:440-449 | Excluding a larger set of slots only removes more entries. |
| Timesheets.OutsideWiden | apps/timesheet/views.py:440-449 | Two stores that agree outside some slots also agree outside any larger set of slots. |
| Timesheets.MatchingOutside | apps/timesheet/views.py:440-446 | Excluding other slots does not change what a slot holds. |
| Timesheets.SameOutsideSameMatching | apps/timesheet/views.py:440-446 | Stores that agree outside some slots hold the same entries in every slot not among them. |
| Timesheets.CleanStartDate | apps/timesheet/forms.py:12-21 | A start date in a month earlier than today's is refused. Any other date, or an empty value, passes unchanged. |
| Timesheets.NextSheetId | apps/timesheet/models.py:17-42 | The next primary key is larger than every key in use. |
| Timesheets.NewSheet | apps/timesheet/views.py:113-117 | The created sheet belongs to the requester, starts on the given date and ends six days later. It starts as a draft with no approver, no sign-offs and no rejection reason. |
| Timesheets.CreateTimesheet | apps/timesheet/views.py:113-123 | Creation needs a date that passes the month check and a week the user does not already have; the unique pair is (user, start_date). On success the one new sheet is appended and uniqueness is kept. Any refusal leaves the sheets unchanged. |
| Lifecycle.ScopeIsManagerSet | apps/timesheet/views.py:264 | An actor has manager scope on a sheet exactly when they manage the project of one of its entries. |
| Lifecycle.Submit | apps/timesheet/views.py:269-279 | A sheet whose hours sum to zero is refused. Otherwise it becomes submitted with both approval fields cleared. The week and owner are kept, and the prior status is not consulted. |
| Lifecycle.Approve | apps/timesheet/views.py:280-309 | The owner is refused. A scoped manager adds their sign-off, and the sheet becomes approved, by them, exactly when the signers cover every manager of its entries; otherwise it is partially approved. A privileged actor approves outright and clears the sign-offs. Anyone else is refused. |
| Lifecycle.Reject | apps/timesheet/views.py:310-327 | The owner is refused, and so is anyone who is neither privileged nor a scoped manager. Otherwise the sheet is rejected with the posted reason (blank when none was posted) and both approval fields cleared. |
| Lifecycle.Cancel | apps/timesheet/views.py:328-340 | Only submitted or partially approved sheets can be cancelled, and only by the owner or a privileged actor. The sheet returns to draft with approvals and the reason cleared. |
| Lifecycle.CanApproveThenApproves | apps/timesheet/views.py:164-171 | Whenever the detail page offers approval, the approve action succeeds. |
| Lifecycle.CanApproveCharacterized | apps/timesheet/views.py:164-171 | The page offers approval exactly when approving would succeed and the sheet is submitted or partially approved. |
| Lifecycle.ActionsIgnoreStatus | apps/timesheet/views.py:269-327 | Whether submit, approve or reject succeeds, and what it produces, does not depend on the sheet's status. |
| Lifecycle.OwnerNeverSignsOff | apps/timesheet/views.py:281-283 | The owner can neither approve nor reject their own sheet, whatever permissions they hold. |
| Lifecycle.TransitionsAreCoherent | apps/timesheet/views.py:269-340 | Every transition yields a sheet satisfying the status/approval invariants, whatever sheet it starts from. Drafts and submitted sheets carry no sign-offs. |
| Lifecycle.NewSheetIsCoherent | apps/timesheet/views.py:113-117 | A freshly created sheet satisfies the status/approval invariants. |
| Lifecycle.CreateKeepsCoherent | apps/timesheet/views.py:113-123 | When every stored sheet is coherent, so is every sheet after a successful creation. |
| Lifecycle.SignOffsAccumulate | apps/timesheet/views.py:295-307 | Scoped managers signing in turn accumulate their ids. The sheet is approved exactly when every manager of its entries has signed, and it is approved by the last signer. |
| Lifecycle.TwoManagersApproveInTurn | apps/timesheet/views.py:295-307 | When a sheet with no sign-offs has exactly two managers, the first manager's approval makes it partially approved and the second's makes it approved, with the second manager as approver. |
| GridKeys.OptionalId | apps/timesheet/views.py:399-404 | A task or activity part reads as null when it is empty or `None`. Otherwise it is an integer, and non-numeric text fails. |
| GridKeys.CellHours | apps/timesheet/views.py:409-410 | Commas become points and whitespace is stripped. A blank value is zero hours; otherwise the text must parse as hours. |
| GridKeys.DecodeField | apps/timesheet/views.py:390-419 | Only a field starting with `hours_` that has at least five `_`-parts with parsable ids and value yields a cell. Extra parts are ignored. |
| GridKeys.IntTextIsNotNull | apps/timesheet/views.py:399-404 | The text of an integer is never read as a null id. |
| GridKeys.IdTextDecodes | apps/timesheet/views.py:399-404 | An id written by the page reads back as itself, and a null reads back as null. |
| GridKeys.DecimalTextChars | apps/timesheet/models.py:51 | Decimal text is digits, one point and an optional leading minus, ending in a digit. |
| GridKeys.HoursTextChars | apps/timesheet/views.py:409 | A rendered amount contains only digits, a point and a leading minus. |
| GridKeys.PlainTextIsKept | apps/timesheet/views.py:409 | Comma replacement and stripping leave such text unchanged. |
| GridKeys.HoursTextIsPlain | apps/timesheet/views.py:409 | A rendered amount has no comma, no surrounding space and is not blank. |
| GridKeys.DecodeFromParts | apps/timesheet/views.py:390-414 | A field decodes from its five key parts and its value alone. |
| GridKeys.EncodeKeyJoins | apps/timesheet/views.py:392 | The page's field name is the `_`-join of `hours` and the four parts. |
| GridKeys.EncodeKeySplits | apps/timesheet/views.py:393 | Splitting the field name on `_` gives back exactly its five parts. |
| GridKeys.CellHoursOfRendered | apps/timesheet/views.py:409-410 | A rendered amount reads back as the same hours. |
| GridKeys.DecodeEncode | apps/timesheet/views.py:390-414 | The field the page renders for a row, date and amount decodes to that row, date and amount. |
| GridKeys.DecodeEncodeBlank | apps/timesheet/views.py:409-410 | A cell left blank decodes as zero hours. |
| GridKeys.DecimalCommaAccepted | apps/timesheet/views.py:409-410 | A comma between two comma-free runs reads exactly as a point there, so `7,5` is read as `7.5`. |
| GridKeys.CellHoursOfPlain | apps/timesheet/views.py:409-410 | Comma-free text without surrounding space reads as the hours `float` gives it. |
| GridKeys.CellsOfWellFormed | apps/timesheet/views.py:414 | The cells of a group in the collected form have distinct date texts. |
| GridKeys.Record | apps/timesheet/views.py:414 | `grid_data[group][date] = hours` sets that cell and leaves every other group and date as it was. |
| GridKeys.Collect | apps/timesheet/views.py:390-419 | The collected form has distinct groups, each with distinct dates. |
| GridKeys.CollectKeepsLastWrite | apps/timesheet/views.py:390-419 | For every group and date, the collected form holds exactly the last decoded field's hours. Malformed fields are skipped and later fields win. |
| Reconciler.KeepFirst | apps/timesheet/views.py:447-449 | Removes every entry of the slot but the first. The rest of the store keeps its order. |
| Reconciler.Dedup | apps/timesheet/views.py:440-449 | Afterwards the slot holds at most one entry. It holds one exactly when it held one before, and that is the first one. Nothing else changes. |
| Reconciler.SetHours | apps/timesheet/views.py:451-459 | Every entry of the slot takes the new hours. Everything else is untouched. |
| Reconciler.Upsert | apps/timesheet/views.py:451-459 | On a slot with at most one entry, update_or_create leaves exactly one entry, with the given hours. Nothing else changes. |
| Reconciler.WriteCell | apps/timesheet/views.py:438-463 | After one cell the slot holds exactly one entry with the hours when the column can hold them. An amount it cannot hold is caught and only the dedup stays. Nothing outside the slot changes. |
| Reconciler.EnsureAnchor | apps/timesheet/views.py:426-435 | get_or_create fails when the slot holds two or more entries. It creates a 0-hour entry when the slot is empty, and otherwise leaves the store as it was. |
| Reconciler.Dated | apps/timesheet/views.py:440-446 | A cell's date text is read the way the date column reads it. The cells keep their order and hours. |
| Reconciler.WriteCellsFails | apps/timesheet/views.py:438-446 | Writing a group's cells fails exactly when one of its date texts does not parse. |
| Reconciler.CellSlotInjective | apps/timesheet/views.py:440-446 | Different groups or dates address different slots. |
| Reconciler.WriteCellsSpec | apps/timesheet/views.py:438-463 | Writing a group's cells changes nothing outside its cells. Each cell lands with the last amount written to its date, and no slot is emptied. |
| Reconciler.LastWriteDateOccurs | apps/timesheet/views.py:438 | A date with a last write is one of the cells' dates. |
| Reconciler.GroupSlotsOfGroup | apps/timesheet/views.py:422-463 | A group's save can touch only slots of its own row on this sheet. |
| Reconciler.SaveGroupSpec | apps/timesheet/views.py:422-463 | A group whose project is not allowed is skipped. Otherwise the anchor is ensured and the cells land. Nothing outside the group's slots changes, and no slot is emptied. |
| Reconciler.EnsureAnchorPolicies | apps/timesheet/views.py:428-435 | get_or_create and "create when absent" agree whenever the former does not fail. |
| Reconciler.DateGrid | apps/timesheet/views.py:422-446 | Reading the dates keeps the groups and their order. |
| Reconciler.SaveGridCrashKinds | apps/timesheet/views.py:383-463 | The grid save stops only on a duplicate anchor or on a date text the column refuses. |
| Reconciler.SaveGridFails | apps/timesheet/views.py:383-463 | With anchors created only when absent, the save fails exactly when an allowed group has a date text the column refuses. The atomic block leaves the store unchanged on failure. |
| Reconciler.SaveGridPolicies | apps/timesheet/views.py:428-435 | When get_or_create does not fail, it stores exactly what "create when absent" stores. |
| Reconciler.SaveGridFrame | apps/timesheet/views.py:383-463 | A successful save changes nothing outside the allowed groups' slots and never empties a slot. |
| Reconciler.SaveGridLands | apps/timesheet/views.py:421-463 | After a successful save every allowed group has its anchor, and every cell holds exactly one entry with the last amount written. |
| Reconciler.GroupUntouched | apps/timesheet/views.py:421-463 | Saving one group leaves another group's anchor and landed cells as they were. |
| Reconciler.GridSlotsOfGroups | apps/timesheet/views.py:421-435 | An anchor slot is never a slot of another group. |
| Reconciler.DuplicateAnchorCrashes | apps/timesheet/views.py:428-435 | As written, the save fails with MultipleObjectsReturned when an allowed group's anchor slot holds two entries. |
| Reconciler.StoredId | apps/timesheet/views.py:344-359 | An absent or empty id text stores NULL. Any other text must be an integer. |
| Reconciler.FilterId | apps/timesheet/views.py:364-374 | An absent filter value asks for NULL. A present one, even empty, must be an integer. |
| Reconciler.AddRow | apps/timesheet/views.py:341-360 | The row is added exactly when the sheet is editable, the three id texts read as ids and a non-empty project is allowed. Then one 0-hour entry on the start date is appended, with an empty task text meaning no task, even when the row already has one. A refusal changes nothing. |
| Reconciler.DropRow | apps/timesheet/views.py:368-374 | An entry survives exactly when it is not the sheet's entry in that row. Nothing grows. |
| Reconciler.DropRowCounts | apps/timesheet/views.py:368-374 | Every entry outside the row survives as often as the store holds it. |
| Reconciler.DropRowInOrder | apps/timesheet/views.py:368-374 | The surviving entries keep their store order. |
| Reconciler.DeleteRow | apps/timesheet/views.py:361-374 | The delete goes through exactly when the sheet is editable, the project and activity texts are integers (an empty one fails the filter) and the task text is empty or an integer. Then every entry of the row on this sheet is removed and nothing else. |
| Reconciler.AddRowTwiceThenSave | apps/timesheet/views.py:341-360 | Adding a row twice and then saving it fails under get_or_create. Creating the anchor only when absent saves the row. |
| Reconciler.AddThenDelete | apps/timesheet/views.py:341-374 | Deleting a row just added gives the store that deleting it before the add would give. |
| Reconciler.EntriesOfOutside | apps/timesheet/views.py:440-449 | Removing slots of one sheet leaves another sheet's entries as they were. |
| Reconciler.GridSlotsOfSheet | apps/timesheet/views.py:428-457 | Every slot the grid save touches belongs to the sheet being saved. |
| Reconciler.SaveGridOtherSheets | apps/timesheet/views.py:375-463 | Saving one sheet's grid leaves every other sheet's entries unchanged. |
| Reconciler.DropRowOtherSheets | apps/timesheet/views.py:369-374 | Deleting a row of one sheet leaves every other sheet's entries unchanged. |
| Reconciler.DateGridKeys | apps/timesheet/views.py:414-422 | After the dates are read, a collected form still has distinct groups. |
| Reconciler.SaveFormLands | apps/timesheet/views.py:375-463 | A posted form, when its save succeeds, lands every allowed group it names, with its anchor. |
| GridView.ShownEntries | apps/timesheet/views.py:146-153 | An entry is shown exactly when it is the sheet's and, on a restricted page, its project is managed by the viewer. |
| GridView.ShownEntriesCounts | apps/timesheet/views.py:146-153 | The page shows each entry it keeps as often as the store holds it. |
| GridView.ShownEntriesInOrder | apps/timesheet/views.py:146-153 | The page shows the entries in store order. |
| GridView.UnrestrictedSeesSheet | apps/timesheet/views.py:146-153 | Anyone the page does not restrict sees every entry of the sheet. |
| GridView.RestrictedSeesScope | apps/timesheet/views.py:155-162 | A restricted manager who reaches the page sees at least one entry. |
| GridView.NextCloser | apps/timesheet/views.py:183-185 | Each step of the day loop moves closer to the end date. |
| GridView.BeyondEnd | apps/timesheet/views.py:183 | Once past the end date, every later day is past it too. |
| GridView.WeekOfSeven | apps/timesheet/views.py:117 | A sheet ending six days after its start spans exactly seven days. |
| GridView.WeekDays | apps/timesheet/views.py:180-186 | The loop lists exactly the days from start to end, both included, one day apart. |
| GridView.RowKeys | apps/timesheet/views.py:197-203 | The rows are exactly the distinct (project, task, activity) keys of the shown entries, in first-appearance order. |
| GridView.CellHours | apps/timesheet/views.py:199-203 | A cell holds the hours of the last shown entry of that row and day. It is empty when there is none. |
| GridView.Display | apps/timesheet/views.py:211-212 | A cell displays nothing for zero and the amount otherwise. |
| GridView.BuildRow | apps/timesheet/views.py:206-221 | A row has one cell per day holding that day's hours, and its total is the sum of its days. |
| GridView.BuildGrid | apps/timesheet/views.py:205-223 | The grid has one row per row key, in order. |
| GridView.CellHoursOfSheet | apps/timesheet/views.py:199-203 | On the sheet's full list, a cell shows the last entry of its slot. |
| GridView.SavedCellShows | apps/timesheet/views.py:173-229 | After a grid save, a viewer who sees the whole sheet finds every cell given a storable amount showing the last amount given. |
| TimesheetActions.VisibleMayOperate | apps/timesheet/views.py:245-266 | Anyone the action queryset lets reach a sheet also passes the operate guard. |
| TimesheetActions.FindSheet | apps/timesheet/views.py:255 | Finds the sheet with that primary key, and none when no sheet has it. |
| TimesheetActions.Post | apps/timesheet/views.py:254-469 | Any outcome other than applied leaves the store unchanged. A sheet that is missing or outside the actor's queryset is a 404, and exactly those. The operate guard never turns away an actor who found the sheet. An unknown action changes nothing. Only grid edits crash: a non-numeric id in `add_row` or `delete_row` is a 500 from `int()`, the grid save crashes as its anchor policy and date texts dictate, and no redirect-with-message refusal is an id error. The anchor policy is a parameter: get_or_create as written, create-when-absent as corrected. |
| TimesheetActions.NonNumericProjectCrashes | apps/timesheet/views.py:348 | A non-numeric project id posted to `add_row` on an editable sheet the actor reaches is a 500, and nothing is written. |
| TimesheetActions.LockedGridIsKept | apps/timesheet/views.py:267 | A sheet that is neither a draft nor rejected keeps its entries, whatever is posted. |
| TimesheetActions.PostKeepsSheets | apps/timesheet/views.py:254-469 | Grid edits never touch the sheet rows. Transitions change only the sheet acted on, and never its id, owner or week. |
| TimesheetActions.PostKeepsUniqueness | apps/timesheet/models.py:39 | No action breaks the uniqueness of sheet ids and of (user, start_date). |
| TimesheetActions.AppendOtherSheet | apps/timesheet/views.py:353-360 | Adding a row leaves every other sheet's entries as they were. |
| TimesheetActions.PostKeepsOtherEntries | apps/timesheet/views.py:254-469 | Whatever the action, the entries of every other sheet are unchanged. |
| TimesheetActions.OfferedApprovalApplies | apps/timesheet/views.py:164-171 | When the detail page offers approval, posting approve goes through. |
| TimesheetActions.DropSheetEntries | apps/timesheet/models.py:45 | An entry survives exactly when it belongs to another sheet or none. |
| TimesheetActions.DropSheetEntriesCounts | apps/timesheet/models.py:45 | Every entry of another sheet survives as often as the store holds it. |
| TimesheetActions.DropSheetEntriesInOrder | apps/timesheet/models.py:45 | The surviving entries keep their store order. |
| TimesheetActions.DeleteSheet | apps/timesheet/views.py:125-130 | Only the owner reaches the sheet, and anyone else gets a 404. Deleting removes the sheet and, by cascade, its entries, and nothing else. |
| ModuleAccess.FlagOf | apps/core/models.py:115-121 | Each module codename names its flag. |
| ModuleAccess.CodenameInjective | apps/core/models.py:62-68 | The five flags have five distinct codenames, exactly the module permissions. |
| ModuleAccess.SyncOver | apps/core/models.py:122-131 | Each flag's permission is added when the flag is on and removed when it is off. A flag without a permission row is skipped, and other permissions are kept. |
| ModuleAccess.SyncPerms | apps/core/models.py:113-131 | Afterwards a group holds each existing module permission exactly when its flag is on. Every other permission is as it was. |
| ModuleAccess.SyncAgreed | apps/core/models.py:113-131 | Permissions already in step with the flags are left alone. |
| ModuleAccess.SyncIdempotent | apps/core/models.py:113-131 | Syncing twice is syncing once. |
| ModuleAccess.FlagsOf | apps/core/management/commands/sync_module_access_flags.py:21-24 | A flag is on exactly when the group holds its permission. |
| ModuleAccess.FlagsOfRoundTrip | apps/core/management/commands/sync_module_access_flags.py:21-26 | Flags read off the permissions sync back to the same permissions. |
| ModuleAccess.CreateGroup | apps/core/models.py:107-110 | A new group gets a record with every flag off and holds no permission. |
| ModuleAccess.SaveAccess | apps/core/models.py:134-136 | Saving a record stores its flags, and the signal brings the group's permissions in line. |
| ModuleAccess.Blank | apps/core/context_processors.py:24-26 | A record created for an existing group has every flag off. Its sync strips the group's module permissions and keeps the rest. |
| ModuleAccess.ScanGroups | apps/core/context_processors.py:21-31 | A flag is on after the loop exactly when some group of the user has it on. Each group without a record gets a blank one, and other groups are untouched. |
| ModuleAccess.MemberFlags | apps/core/context_processors.py:21-43 | A flag shows exactly when some group of the user has it on or the user holds its permission. |
| ModuleAccess.ContextFlags | apps/core/context_processors.py:4-45 | An anonymous visitor sees no module and changes nothing. A superuser sees every module and changes nothing. Anyone else sees the flags of their groups ORed with their permissions. |
| ModuleAccess.BlankGrantsNothing | apps/core/context_processors.py:24-31 | A group whose record had to be created contributes no flag. |
| ModuleAccess.GroupFlagShows | apps/core/context_processors.py:27-43 | A flag on in some group of a signed-in non-superuser always shows. |
| ModuleAccess.SyncedMenuMatchesPerms | apps/core/context_processors.py:21-43 | When each of the user's groups has a record in step with its permissions, the menus show exactly the modules whose permission the user holds. |
| GroupCommands.SyncGroup | apps/core/management/commands/sync_module_access_flags.py:20-26 | For one record, each flag becomes whether the group holds its permission, and the group's permissions do not change. |
| GroupCommands.SyncCommand | apps/core/management/commands/sync_module_access_flags.py:9-29 | No group gains or loses a permission. Every record ends in step with its group's permissions, and groups without a record are untouched. |
| GroupCommands.SyncCommandIdempotent | apps/core/management/commands/sync_module_access_flags.py:9-29 | Running the command twice is running it once. |
| GroupCommands.SyncCommandAgrees | apps/core/management/commands/sync_module_access_flags.py:20-26 | After the command, flags and module permissions agree for every permission that exists. |
| GroupCommands.Target | apps/core/management/commands/create_groups.py:82-107 | The administrator grant is every permission row. A listed grant is its codenames that exist, and a missing one is skipped. |
| GroupCommands.RebuildGroup | apps/core/management/commands/create_groups.py:75-121 | The group is found or created by name. Its permissions become its target and its flags follow them, minus the module permissions a newly created record strips from an existing group. No other group changes. |
| GroupCommands.RunTableStep | apps/core/management/commands/create_groups.py:75-121 | Rebuilding a later group does not disturb earlier ones. |
| GroupCommands.RunTable | apps/core/management/commands/create_groups.py:75-121 | After the loop, groups outside the table are untouched and every listed group exists with a record. |
| GroupCommands.GroupTableDistinct | apps/core/management/commands/create_groups.py:14-73 | The default table names each group once. |
| GroupCommands.CreateGroupsKeys | apps/core/management/commands/create_groups.py:75-76 | Every listed group exists afterwards, unlisted ones are untouched, and a rerun never adds a group of the same name. |
| GroupCommands.RunTableGrant | apps/core/management/commands/create_groups.py:82-121 | A listed group that is new or already had a record ends with exactly its grant's permissions. |
| GroupCommands.OnlyAdministradorGetsAll | apps/core/management/commands/create_groups.py:82-85 | Administrador is the only group granted everything. |
| GroupCommands.AdministradorGetsAll | apps/core/management/commands/create_groups.py:82-85 | Administrador ends with every permission row when it is new or already had a record. |
| GroupCommands.ListedGroupRebuilt | apps/core/management/commands/create_groups.py:86-121 | A listed group that is new or already had a record ends with exactly its existing listed codenames, and its flags follow its module permissions. |
| GroupCommands.RunTableSettlesAt | apps/core/management/commands/create_groups.py:75-121 | A listed group comes out of a second run as it came out of the first. |
| GroupCommands.RunTableSettles | apps/core/management/commands/create_groups.py:75-121 | A second run over a table reproduces the first. |
| GroupCommands.CreateGroupsSettles | apps/core/management/commands/create_groups.py:75-121 | After one run the command changes nothing: it settles on its second run. |
| GroupCommands.FirstRunDropsModules | apps/core/management/commands/create_groups.py:109-121 | A listed group that existed without a record loses its listed module permissions on the first run. |
| AccessMigrations.Ensured | apps/core/migrations/0006_populate_module_access.py:23 | On the historical model, a missing record is created with every flag off and the permissions untouched. An existing record is kept. |
| AccessMigrations.SetFromPerm | apps/core/migrations/0006_populate_module_access.py:24-27 | When the permission exists, the flag becomes whether the group holds it. Otherwise it keeps its value. |
| AccessMigrations.Populate | apps/core/migrations/0006_populate_module_access.py:3-28 | Every group ends with a record and keeps its permissions. The three read flags follow the permissions that exist, and the other two are kept. |
| AccessMigrations.PopulateIdempotent | apps/core/migrations/0006_populate_module_access.py:3-28 | Populating twice is populating once. |
| AccessMigrations.PopulateAgrees | apps/core/migrations/0006_populate_module_access.py:22-27 | Afterwards helpdesk, approvals and admin agree with the permissions that exist. |
| AccessMigrations.SyncReports | apps/core/migrations/0008_sync_reports_flag.py:3-22 | Every group ends with a record, and Administrador and Recursos Humanos get reports on. When access_reports exists, a group holds it exactly when its reports flag is on. |
| AccessMigrations.SyncReportsIdempotent | apps/core/migrations/0008_sync_reports_flag.py:3-22 | Running 0008 twice is running it once. |
| AccessMigrations.CopyFlags | apps/core/migrations/0011_copy_approvals_to_he.py:4-6 | Every record with approvals on gets approvals_he on. Nothing else changes. |
| AccessMigrations.ReverseCopy | apps/core/migrations/0011_copy_approvals_to_he.py:9-11 | Every record gets approvals_he off. Nothing else changes. |
| AccessMigrations.CopyImpliesHe | apps/core/migrations/0011_copy_approvals_to_he.py:4-6 | After the copy, approvals on implies approvals_he on. |
| AccessMigrations.ReverseUndoesCopy | apps/core/migrations/0011_copy_approvals_to_he.py:4-11 | Reversing after the copy equals reversing alone. |
| AccessMigrations.CopyIdempotent | apps/core/migrations/0011_copy_approvals_to_he.py:4-6 | Copying twice is copying once. |
| DefaultAdmin.WithDefaults | apps/core/migrations/0015_create_default_admin.py:22-26 | Setting each default yields a row with all defaults and the same password. A row that already has them is unchanged. |
| DefaultAdmin.CreateDefaultAdmin | apps/core/migrations/0015_create_default_admin.py:5-29 | `admin` exists afterwards with every default, and no other user changes. A new admin gets the hash and is saved. An existing one keeps its password and is saved exactly when some default differed. |
| DefaultAdmin.CreateDefaultAdminIdempotent | apps/core/migrations/0015_create_default_admin.py:5-29 | A second run changes and saves nothing. |
| PublicIds.MaxPublicId | apps/helpdesk/models.py:54 | The aggregate is at least every number in use, and it is one of them or 0 when none is set. |
| PublicIds.NumberOnSave | apps/projects/models.py:110-115 | A row with a number keeps it. One without gets a number above every number in use, which is 1 in an unnumbered table. |
| PublicIds.Insert | apps/helpdesk/models.py:51-56 | Saving a new unnumbered row keeps the numbers unique. |
| PublicIds.InsertIncreases | apps/projects/models.py:110-115 | Consecutive saves hand out consecutive numbers. |
| PublicIds.Backfill | apps/projects/migrations/0004_task_public_id.py:4-12 | Walking rows in key order, the k-th unnumbered row gets k. Numbered rows and keys are kept, and so is the order. |
| PublicIds.NullsBeforeGrows | apps/projects/migrations/0004_task_public_id.py:9-11 | A later unnumbered row has counted more unnumbered rows before it. |
| PublicIds.BackfillDistinct | apps/helpdesk/migrations/0004_ticket_public_id.py:4-12 | Two rows the backfill numbers never get the same number. |
| PublicIds.AllNullsNumbered | apps/projects/migrations/0004_task_public_id.py:27-32 | When every row is unnumbered, as right after the column is added, exactly i rows before position i lack a number, so the i-th row gets i + 1. |
| PublicIds.Unpopulate | apps/projects/migrations/0004_task_public_id.py:15-17 | The reverse step clears every number and keeps the keys. |
| PublicIds.UnnumberedGetPositions | apps/projects/migrations/0004_task_public_id.py:7-12 | Rows that all start unnumbered come out of the backfill numbered 1..n in key order. |
| PublicIds.CountingIsUnique | apps/projects/models.py:102 | Numbering by position satisfies the unique constraint. |
| PublicIds.RoundTrip | apps/helpdesk/migrations/0004_ticket_public_id.py:4-17 | Reversing and reapplying the migration numbers the rows 1..n in key order. |
| Issues.ConcatInOrder | apps/projects/views.py:267-284 | Joining two field-ordered error lists, the first wholly earlier, stays in order. |
| Issues.ErrorAt | apps/projects/views.py:267-284 | The error at a position is the one checked there. |
| Issues.Collect | apps/projects/views.py:267-284 | The collected errors are exactly those of the failed checks, each once and in field order. |
| Issues.Errors | apps/projects/views.py:267-297 | A check's error appears exactly when that check failed, in field order. |
| Issues.QuickErrors | apps/projects/views.py:256-297 | Every check runs and none stops the others. The title is stripped and required, the project must be known, the choice fields must be valid after their fallbacks, and the dates must parse. |
| Issues.AssigneeOf | apps/projects/views.py:315-321 | The issue is assigned to the posted user when that user exists, and to no one otherwise. |
| Issues.AcceptableIffNoErrors | apps/projects/views.py:267-301 | A form shows no error exactly when it is acceptable field by field. |
| Issues.Inserted | apps/projects/views.py:303-313 | The inserted issue names the posted project, the stripped title, the fallbacks and the parsed dates. The actor is its creator and it has no assignee. |
| Issues.QuickCreate | apps/projects/views.py:256-324 | A non-numeric project crashes before anything is written. A rejected form reports every collected error, and there is at least one. |
| Issues.QuickCreateRejects | apps/projects/views.py:256-324 | The form is sent back exactly when the project id is numeric and some check fails. |
| Issues.QuickCreateWrites | apps/projects/views.py:256-324 | An issue is written exactly for an acceptable form: the built row, assigned to the posted user when that id names one. The request crashes after the insert exactly when the assignee id is not a number. |
| Issues.ErrorsCollected | apps/projects/views.py:267-301 | A form with no title and a bad priority reports both, in order, and writes nothing. |
| Issues.UnknownAssigneeIgnored | apps/projects/views.py:315-321 | An unknown assignee is dropped silently and the issue is still written. |
| Issues.ReachableTaskIsVisible | apps/projects/views.py:118-133 | A task the update view reaches belongs to a project the user can see. |
| Issues.TaskLookup | apps/projects/views.py:119-136 | The task lookup is a 404 exactly for a task out of reach. As written, it is a 500 exactly when an unprivileged manager, owner or external client reaches a task whose project has two or more team members. |
| Issues.UpdateStatus | apps/projects/views.py:119-141 | An out-of-reach task is a 404, and a task the query as written finds more than once is a 500. Both change nothing. Otherwise the task takes the posted status when it is one of the choices and is otherwise unchanged, and no other row changes. |
| Issues.TeamOfTwoStatusCrash | apps/projects/views.py:130-136 | The manager of a project with a two-member team and no global permission gets a 500 when moving its task as written. With `.distinct()` the status is applied. |
| Issues.DistinctUpdateReachesTask | apps/projects/views.py:119-141 | With `.distinct()` the update never crashes: it goes through exactly for a task the user reaches. |
| Issues.UpdateStatusIdempotent | apps/projects/views.py:135-141 | Posting the same status twice is posting it once. |
| Issues.CopyColleagues | apps/projects/migrations/0009_issue_colleagues.py:5-12 | Every issue keeps its colleagues and gains its single colleague when one is set. Nothing else changes. |
| Issues.ColleagueCopied | apps/projects/migrations/0009_issue_colleagues.py:10-12 | A set colleague is in the issue's set afterwards. |
| Issues.NullColleagueUnaffected | apps/projects/migrations/0009_issue_colleagues.py:11 | An issue without a colleague is left as it was. |
| Issues.CopyColleaguesIdempotent | apps/projects/migrations/0009_issue_colleagues.py:5-12 | Copying twice is copying once. |
| Issues.DropColleague | apps/projects/migrations/0009_issue_colleagues.py:33-36 | Dropping the column keeps each issue's set. |
| Issues.MigrationKeepsColleague | apps/projects/migrations/0009_issue_colleagues.py:21-36 | After the whole migration, no issue has lost its former colleague. |
| ProjectHours.EntriesOf | apps/projects/views.py:344-346 | An entry is listed exactly when it is logged against the project. |
| ProjectHours.EntriesOfCounts | apps/projects/views.py:344-346 | Each entry is listed as often as the log holds it under the project, so duplicates are kept. |
| ProjectHours.EntriesOfInOrder | apps/projects/views.py:344-346 | The listing keeps the log's order. |
| ProjectHours.HoursQuery | apps/projects/views.py:340-359 | The page is a 404 exactly when the project is not visible to the user, and a 500 exactly when the project lookup repeats the project. Otherwise it lists the project's entries. |
| ProjectHours.StrLessTotal | apps/projects/views.py:389 | Username comparison is a strict total order. |
| ProjectHours.StrLessTrans | apps/projects/views.py:389 | Username comparison is transitive. |
| ProjectHours.Charges | apps/projects/views.py:380-385 | Each entry charges its hours to its owner's username, or to `-` when it has no owner. |
| ProjectHours.SumPut | apps/projects/views.py:384-386 | Writing a value into the dictionary moves its sum by the new value minus the old. |
| ProjectHours.HoursAbsent | apps/projects/views.py:380-385 | A name with no charge has summed nothing. |
| ProjectHours.Tally | apps/projects/views.py:380-385 | The dictionary has each name once. |
| ProjectHours.TallyNames | apps/projects/views.py:380-385 | A name is in the dictionary exactly when some charge is made under it, with the sum of that name's hours. |
| ProjectHours.TallyTotal | apps/projects/views.py:384-386 | The dictionary's values add up to all the hours. |
| ProjectHours.PerUser | apps/projects/views.py:380-386 | The month's users are exactly those with an entry, each once, with the sum of their hours. The sums add up to the month's total. |
| ProjectHours.NamesOfCharges | apps/projects/views.py:380-385 | A name has a charge exactly when some entry counts under it. |
| ProjectHours.InsertUser | apps/projects/views.py:389 | Inserting into a sorted user list keeps it sorted and adds exactly that pair. |
| ProjectHours.SortUsers | apps/projects/views.py:389 | The users sort by hours descending and then name ascending. The result has the same pairs and the same sum. |
| ProjectHours.DistinctTail | apps/projects/views.py:389 | The tail of a list with distinct names has distinct names. |
| ProjectHours.HeadKeyFresh | apps/projects/views.py:389 | The first name is not among the rest however they are rearranged. |
| ProjectHours.SortedUsersPairwise | apps/projects/views.py:389 | A list sorted pair by pair is sorted throughout. |
| ProjectHours.MonthsUpTo | apps/projects/views.py:371-378 | The months of the first entries are distinct, and exactly those with an entry among them. |
| ProjectHours.MonthsOf | apps/projects/views.py:371-378 | The grouped keys are distinct, and exactly the months with an entry. |
| ProjectHours.InsertMonth | apps/projects/views.py:392-393 | Inserting into a newest-first list keeps it newest first and adds exactly that month. |
| ProjectHours.SortMonths | apps/projects/views.py:392-393 | The months sort newest first and are the same months. |
| ProjectHours.InMonth | apps/projects/views.py:371-378 | A month's entries are the listed entries of that month, in listing order and each as often as listed. |
| ProjectHours.GroupOf | apps/projects/views.py:371-388 | A month's group holds its month's entries in order and with their multiplicity. Its per-user list is sorted, and its total is both the sum of its entries' hours and the sum of the per-user sums. |
| ProjectHours.PerUserSums | apps/projects/views.py:380-385 | Each per-user pair of a month is a user with an entry that month and the sum of their hours in it. |
| ProjectHours.PerUserCovers | apps/projects/views.py:380-385 | Every user with an entry in a month has a pair in its list. |
| ProjectHours.GroupsFor | apps/projects/views.py:371-393 | The groups of the given months, in that order. |
| ProjectHours.KeysPairwise | apps/projects/views.py:392-393 | Keys sorted month by month are sorted throughout. |
| ProjectHours.MonthGroups | apps/projects/views.py:361-401 | There is one group for exactly each month with an entry, newest first, made of that month's entries. |
| ProjectHours.MonthsCovered | apps/projects/views.py:371-393 | The groups built for the months cover exactly the months with an entry. |
| ProjectHours.KeysDistinct | apps/projects/views.py:371-393 | No two month groups share a key. |
| ProjectHours.InGroupMonth | apps/projects/views.py:371-378 | An entry in a group falls in the group's month. |
| ProjectHours.EntryInOneGroup | apps/projects/views.py:371-393 | Every listed entry is in exactly one month group. |
| ProjectHours.PageCount | apps/projects/views.py:338 | The paginator has at least one page and just enough pages of 50 to hold the listing. |
| ProjectHours.PageNumber | apps/projects/views.py:338 | An absent or empty page value asks for page 1 and `last` for the last page. Any other text that is not an integer is a 404. |
| ProjectHours.PageNumberOfRendered | apps/projects/views.py:338 | A page link, the number written out, asks for that page. |
| ProjectHours.Slice | apps/projects/views.py:338 | Page k holds the listed entries from position 50(k-1) on, 50 of them on every page but the last. |
| ProjectHours.Page | apps/projects/views.py:338 | A page number below 1 or past the last page is a 404. Otherwise the page is that slice of the listing. |
| ProjectHours.PagesUpToPrefix | apps/projects/views.py:338 | The first k pages, read in order, are the listing up to position 50k. |
| ProjectHours.PagesCoverListing | apps/projects/views.py:338 | All pages read in order are the listing: every entry is on exactly one page, in its place. |
| ProjectHours.ShortListingIsOnePage | apps/projects/views.py:338 | A listing of at most 50 entries is one page, shown whole when no page is asked for. |
| ProjectHours.HoursPage | apps/projects/views.py:338-364 | The month breakdown is a 500 exactly when the project lookup repeats the project. It is a 404 exactly when the project is not visible, or when the lookup succeeds and the page does not exist. Otherwise it groups the entries of the requested page only. |
| ProjectHours.TeamOfTwoHoursCrash | apps/projects/views.py:340-341 | A manager without a project permission cannot open the hours of a project with a two-member team as written: the page is a 500. With `.distinct()` the first page opens. |
| ProjectHours.DistinctHoursPageOpens | apps/projects/views.py:338-364 | With `.distinct()` the page never crashes: it opens exactly for a visible project and an existing page. |
| ProjectHours.HoursPageShowsOnlyThePage | apps/projects/views.py:361-378 | Every entry a month group shows is on the requested page and logged against the project, so a month split across pages is summed on each page separately. |
| ProjectHours.GroupedEntryOnPage | apps/projects/views.py:371-378 | An entry of a month group is one of the grouped entries. |
| ProjectHours.PageWithinListing | apps/projects/views.py:338 | An entry on a page is a listed entry. |
| Helpdesk.ParsePriority | apps/helpdesk/models.py:17-21 | A stored code names a priority exactly when it is that priority's code. |
| Helpdesk.ParseStatus | apps/helpdesk/models.py:23-27 | A stored code names a status exactly when it is that status's code. |
| Helpdesk.Label | apps/helpdesk/models.py:48-49 | The label is `#`, the public number or the key when the number is missing or zero, ` - ` and the title. The number reads back from the label. |
| Helpdesk.LabelNumber | apps/helpdesk/models.py:49 | The digits the label writes read back as its number. |
| Helpdesk.Visible | apps/helpdesk/views.py:20-32 | A client sees the tickets they opened. A collaborator sees those they opened or are assigned. Anyone else sees every ticket. The list keeps the tickets' order, each as often as stored. |
| Helpdesk.TicketList | apps/helpdesk/views.py:9-32 | Without the helpdesk permission the list is a 403. With it, the list shows the visible tickets. |
| Helpdesk.Find | apps/helpdesk/views.py:48-56 | The lookup finds the ticket with the key when it passes the filter, and is a 404 otherwise. |
| Helpdesk.DetailLookup | apps/helpdesk/views.py:44-56 | The detail page is a 403 without the permission. Otherwise it finds exactly a visible ticket with the key. |
| Helpdesk.EditLookup | apps/helpdesk/views.py:82-94 | The edit page is a 403 without the permission. Otherwise it finds the ticket only for superusers, staff, managers or its creator. |
| Helpdesk.DetailAgreesWithList | apps/helpdesk/views.py:20-56 | The detail page opens exactly the tickets the list shows. |
| Helpdesk.CreatorSeesAndEdits | apps/helpdesk/views.py:48-94 | Whoever opened a ticket may see it and edit it. |
| Helpdesk.ClientViewsOwnOnly | apps/helpdesk/views.py:48-94 | A client sees only their own tickets, even as a superuser, yet a superuser client may edit every ticket. |
| Helpdesk.AssigneeViewsButCannotEdit | apps/helpdesk/views.py:54-94 | A plain collaborator assigned someone else's ticket sees it but may not edit it. |
| Helpdesk.Thread | apps/helpdesk/views.py:61-64 | Managers and superusers see every comment of the ticket. Others see exactly its public ones. The thread keeps the comments' order, each as often as stored. |
| Helpdesk.PostComment | apps/helpdesk/views.py:67-79 | The ticket is looked up as for the detail page. Blank content, or content holding a NUL character, re-renders the page. Otherwise the comment goes on that ticket under the poster, with the internal flag forced off for clients. |
| Helpdesk.ClientCommentIsPublic | apps/helpdesk/views.py:75-76 | A client's comment is seen by every reader of the thread. |
| Helpdesk.InternalCommentHiddenFromItsAuthor | apps/helpdesk/views.py:61-77 | A collaborator may post an internal comment, yet does not see it in the thread afterwards. |
| Helpdesk.RowsOf | apps/helpdesk/models.py:39 | Each ticket gives its key and public number, in order. |
| Helpdesk.NextNumberIsFresh | apps/helpdesk/models.py:51-55 | The number `save()` hands an unnumbered ticket exceeds every number in use. |
| Helpdesk.CreateTicket | apps/helpdesk/views.py:40-42 | The new ticket is opened by the requester with the form's fields and starts open. It takes a public number of at least 1, above every number in use. |
| Helpdesk.UpdateTicket | apps/helpdesk/models.py:51-56 | An edit changes the form's fields and never the key, author or status. A numbered ticket keeps its number. An unnumbered one is numbered on this save, above every number in use. |
| Helpdesk.CreateKeepsNumbersUnique | apps/helpdesk/models.py:39-55 | Opening a ticket keeps public numbers unique. |
| Helpdesk.EditKeepsNumbersUnique | apps/helpdesk/models.py:39-55 | Editing a ticket in place keeps public numbers unique, whether or not the edit numbers it. |
| Helpdesk.StatusStaysOpen | apps/helpdesk/models.py:35 | No form moves a ticket's status, so it stays open through any edit. |
| Helpdesk.TicketFormInit | apps/helpdesk/forms.py:24-51 | A posted non-numeric project crashes the form. Otherwise the assignee choices are exactly the project's members, and there are none without a known project. |
| Helpdesk.CleanProject | apps/helpdesk/forms.py:28-29 | The project is required and must be one of the choices. |
| Helpdesk.OfferedProjectAccepted | apps/helpdesk/forms.py:28-29 | Every project choice, posted back as its key, is accepted. |
| Helpdesk.ChoiceIsAssignableToMembers | apps/helpdesk/forms.py:28-29 | A project the form offers is one its members may log time against. |
| Helpdesk.CleanAssignee | apps/helpdesk/forms.py:32-42 | The assignee is optional, and when given must be one of the choices. |
| Helpdesk.ValidateTicketForm | apps/helpdesk/forms.py:24-60 | The form crashes, reports field errors, or is valid with both fields clean. Being valid means the project is a choice and the assignee is blank or a member of it. |
| Helpdesk.AssigneeIsMember | apps/helpdesk/forms.py:32-42 | A valid form's assignee is a member of its project. |
| Helpdesk.AssignedToCheckRedundant | apps/helpdesk/forms.py:53-60 | The `clean_assigned_to` check never rejects an assignee that passed its field. |
| Dates.RankOrder | apps/timesheet/views.py:183 | Date comparison agrees with the integer rank. |
| Dates.Next | apps/timesheet/views.py:185 | The next day is a valid date after the given one. |
| Dates.NextIsImmediate | apps/timesheet/views.py:185 | No date lies strictly between a day and the next. |
| Dates.AddDays | apps/timesheet/views.py:117 | Adding days gives a valid date, strictly later than the start when at least one day is added. |
| Dates.AddDaysOrdered | apps/timesheet/views.py:117 | Adding more days gives a later date. |
| Dates.Padded | apps/projects/views.py:371-378 | A number below 10^w is written with exactly w characters, all digits, whose value is the number. |
| Dates.ParseDate | apps/timesheet/views.py:440-446 | A parsed date is a valid calendar date within Python's year range; non-strict reading accepts unpadded month and day. |
| Dates.ParseDateText | apps/timesheet/views.py:440-446 | Year, month and day fields of a valid date, joined by `-`, read back as that date. |
| Dates.ParseFormatDate | apps/timesheet/views.py:440-446 | A rendered date reads back as itself. |
| Decimals.MagnitudeOfDecimal | apps/timesheet/views.py:410 | Digits, a point and one or two digits read as their exact value in hundredths. |
| Decimals.FormatHoursParts | apps/timesheet/models.py:51 | A rendered amount is a digit run, a point and two digits, worth the amount's magnitude. |
| Decimals.ParseDecimalText | apps/timesheet/views.py:410 | Well-formed decimal text reads as its magnitude, negated after a leading minus. |
| Decimals.ParseFormatHours | apps/timesheet/views.py:409-410 | Every rendered amount reads back as itself. |

## Left out

- Templates, redirects, flash messages, JSON responses and debug `print`s: the model keeps only the outcome kind and the store afterwards.
- Pagination of the ticket list: the model's list is the whole queryset.
- Database ordering clauses (`-date`, `-created_at`, and `TimeEntry.Meta.ordering = ['date', 'project']` at apps/timesheet/models.py:62): the order of the input sequences stands for the order the database returns. The grid's row order (GridView.RowKeys) and the entry `.first()` keeps (Reconciler.KeepFirst) follow the store sequence, and Reconciler.AddRow appends to it, so the store does not stay in `date, project` order.
- Concurrency: `transaction.atomic` and races between concurrent saves, including two saves computing the same next public number, are left out. Each request is modelled alone, and the atomic block is modelled as all-or-nothing.
- The historical migration models: data migrations do not fire signals, so 0006 and 0008 are modelled without the permission sync. The reverse steps of 0006, 0008, 0009 and 0015 are no-ops and are not modelled.
- Permission caching in `has_perm`: permissions are read fresh on every check.
- Python `float` parsing: hours are exact hundredths. Exponents, `inf`, `nan` and more than two decimals are treated as failures.
- Decimals.ParseHours: the 999.99 bound of the `DecimalField(5, 2)` column is modelled as a failed write that the per-cell handler skips. Rounding of three-decimal input by the column is not modelled.
- Dates.AddDays: Python's `OverflowError` past year 9999 is not modelled, because years are unbounded.
- Dates.ParseDate: in strict mode it stands for the quick-create form's `datetime.fromisoformat(raw).date()` (apps/projects/views.py:290, 295) but reads the plain `YYYY-MM-DD` form only. In non-strict mode it refuses a trailing newline and non-ASCII digits, which Django's `parse_date` accepts. On Python 3.11 and later `parse_date` first tries `date.fromisoformat`, which also accepts the basic form `20250107` and week dates such as `2025-W02-2`; the model refuses those too, so such a grid cell fails the whole save where the source would store it. glibc's unpadded-year rendering is not modelled.
- Issues.DateField: a date with a time part or an offset (`2025-01-07T10:00`, `2025-01-07 10:00:00+03:00`), and the other ISO 8601 forms `datetime.fromisoformat` accepts, are refused. Issues.QuickErrors and Issues.QuickCreate therefore report a bad date where the source keeps the date part.
- Reconciler.AddRow and Reconciler.SaveGrid: task and activity ids are not checked to exist. The source stores the posted ids, and a dangling one fails the foreign-key constraint (apps/timesheet/models.py:46-47) at commit and rolls the request back. The model lets the write through.
- Text: whitespace means the ASCII whitespace set and digits mean ASCII digits. Python's `str.strip()` and `int()` also accept other Unicode whitespace and digits, which the model refuses.
- The `Issue` model is not part of this model; only `Task` is. Its choice lists (type, status, priority) are parameters.
- Ticket form fields other than project and assignee (title, description, priority, category, attachment) pass through unchecked. Attachments and categories are left out.
- Issues.QuickErrors: the `int()` crash on a non-numeric project is modelled only in Issues.QuickCreate. QuickErrors has no precondition, but its result is meaningful only for a form that does not crash.
- The other views that look a project up through the same query (detail, edit, delete, tasks, kanban and risks) are not part of this model, although they share the repeated-row crash. The project list's `total_hours` annotation over the same join is not modelled either.
- ProjectHours.HoursQuery: the `TimeEntry.objects.none()` branch cannot be reached, because `get_project` raises the 404 first. It is kept as written and never taken.
- ProjectHours: `e.hours or 0` is modelled as the hours themselves, because the column is non-null with default 0. The aggregate `total_hours` and `hours_per_user` of the page context are left out.
- The superuser test in the comment filter is covered by `is_manager()`, so it adds nothing and is folded into it.
- Overflow of primary keys and public numbers past the database's integer width is left out.

## Findings

| source | as written | input that shows it | evidently intended | confidence | as-written member | corrected member |
|---|---|---|---|---|---|---|
| apps/timesheet/views.py:428-435 | The grid save ensures the row's anchor with `get_or_create`. This raises `MultipleObjectsReturned`, rolling back the whole save, when the anchor slot already holds two entries. | Post `add_row` twice for the same project, task and activity, then `save_grid` with that row. `add_row` appends a 0-hour anchor each time, with no uniqueness on `TimeEntry`. | Create the anchor only when the slot is empty, as the comment says ("ensure anchor entry exists"). The cell dedup below already tolerates duplicates. | not executed | Reconciler.DuplicateAnchorCrashes, Reconciler.AddRowTwiceThenSave | Reconciler.SaveGridLands, Reconciler.SaveGridFails |
| apps/projects/views.py:30-35 | The project query ORs a test on the `team` many-to-many field with tests on the project's own fields, and the task query does the same through the task's project. Neither calls `.distinct()`, so the join yields one row per team member. The lookups by key then raise `MultipleObjectsReturned`, a 500: `get_object_or_404` in the hours page and `get_object()` in the status update. | A manager (user 1) without a project permission opens the hours of project 7, whose manager is 1 and whose team is {2, 3}, or posts a status for one of its tasks. An external project's client hits the same case. | The lookup finds the project or task once, as the timesheet views do by adding `.distinct()` to the same pattern (apps/timesheet/views.py:144, 243, 249). | not executed | Projects.ManagerOfTeamOfTwoCrashes, ProjectHours.TeamOfTwoHoursCrash, Issues.TeamOfTwoStatusCrash | ProjectHours.DistinctHoursPageOpens, Issues.DistinctUpdateReachesTask |

The action dispatcher (`TimesheetActions.Post`) takes the anchor policy as a parameter, so its lemmas hold for the code as written and as corrected. In the same way the hours page and the status update take the join policy (`Projects.JoinPolicy`): `KeepDuplicates` as written, `Distinct` as corrected.

Approve, reject and submit check no status (apps/timesheet/views.py:269-327), and the model follows the code (`Lifecycle.ActionsIgnoreStatus`). Only the detail page's `_can_approve` consults the status (`Lifecycle.CanApproveCharacterized`).
