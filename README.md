# lineops core, modelled in Dafny

lineops is a Django back office for a telephony pool. It tracks the
company's employees, its SIM cards and the phone lines bound to them, and
the allocations that hand a line to an employee. This project models the
core of that system and proves properties about the model:

- **Allocation engine.**
  - Allocating a line enforces, in this order: the employee exists and is
    live, the line exists, the employee holds at most two active
    allocations, and the line has no active allocation. Then it creates the
    allocation and marks the line `ALLOCATED`.
  - Releasing an allocation clears its active flag, stamps the time and the
    releasing user, and marks the line `AVAILABLE`.
- **Models and their database constraints.**
  - Employees are soft-deleted through both the instance and the queryset.
    The default manager hides deleted rows. E-mail and employee id are each
    unique.
  - SIM cards (unique ICCID) and phone lines (unique number) are modelled.
    Each line is bound one-to-one to a SIM card, which it protects from
    deletion.
  - Allocations protect their employee and line. They lose their
    `allocated_by`/`released_by` user when that user is deleted. They are
    ordered newest first.
  - System users come from a manager that normalizes the e-mail and sets the
    staff and superuser flags.
- **The two allocation forms.** These are the telephony assignment form and
  the combined registration form. Each runs per-field hooks and then
  `clean`, with three actions: `new`, `existing` and `change_status`. The
  status-change guard keeps a line `ALLOCATED` exactly when it has an active
  allocation.
- **The spreadsheet import.** A file format is chosen by its suffix. Rows
  are normalized, then each row is imported in its own transaction as an
  employee or a SIM card with an optional line. The import keeps a summary
  of counters and per-row errors.
- **The upload form's file guard**, on extension and size.
- **The dashboard and the telecom overview.** They show counters, per-status
  counts built from GROUP BY queries, the negociador table and the daily
  indicators.

### How the Dafny maps to the system

- The database is a value `Store.Db`, with one table per model and the
  allocations as a sequence whose positions are their primary keys.
- Where the source mutates objects in place, the model uses classes with
  `modifies` clauses and is proved against the pure functions:
  - `Store.Database` holds the tables;
  - `AllocationForms.BoundForm` holds a form's `cleaned_data` and its
    errors.
- The loops in the import and in the dashboard are methods with `while`
  loops: `UploadService.IngestRows`, `DashboardViews.FillCounts` and
  `DashboardViews.BuildNegociadorData`.
- The clock is a `now` parameter, and `date.today()` is a `today` parameter.
- What the database returns in an unspecified order comes in as a parameter
  constrained by a predicate:
  - a GROUP BY result, constrained by `Aggregation.IsGroupBy`;
  - the order in which a queryset is iterated.

### Where the sources disagree

- `release_line` writes `released_by`, a field that `allocations/models.py`
  does not declare. The migration
  `allocations/migrations/0003_lineallocation_released_by.py` adds it as a
  nullable foreign key to the user, with `SET_NULL`. The model includes the
  field as the migration defines it.
- `CombinedRegistrationForm.__init__` looks up `SystemUser.Role.SUPER`, but
  the user model defines only `ADMIN` and `OPERATOR`. See "## Left out".

## Model

| member | source | states |
|---|---|---|
| AllocationService.ErrorMessage | core/services/allocation_service.py:26-37 | Each refusal has the source's full text. A missing employee or line gives Django's "matching query does not exist" text for its model. The capacity text is "O funcionário", the employee's name, then " já possui 2 linhas alocadas ativas.". The exclusivity text is "A linha", the line's number, then " já está alocada.". A repeated release gives "A alocação já foi liberada.". |
| AllocationService.ErrorMessageInjective | core/services/allocation_service.py:26-37 | Two refusals with the same text are the same refusal, including the name or number they carry. |
| AllocationService.Allocate | core/services/allocation_service.py:15-49 | Each refusal, in the source's order: a missing or soft-deleted employee, a missing line, two or more active allocations, a line already actively allocated. It succeeds exactly when none applies. Success appends, at the next key, the row `LineAllocation.objects.create` builds: active, unreleased, with no releasing user, with the given allocating user, and created and allocated at now. Only that line changes, and it becomes `ALLOCATED`. Every other table and row is unchanged. |
| AllocationService.AllocatePreservesInvariant | core/services/allocation_service.py:23-47 | A successful allocation keeps three properties: no employee above two active allocations, no line with two active allocations, and a line `ALLOCATED` exactly when it has an active allocation. |
| AllocationService.AllocateKeepsValid | core/services/allocation_service.py:39-44 | A successful allocation keeps every table constraint and every foreign key valid, given a valid acting user. |
| AllocationService.Release | core/services/allocation_service.py:53-65 | The released row is the old row with `released_at` = now, `is_active` false and `released_by` = the user. Every other field of it is kept. Its line becomes `AVAILABLE`, and nothing else changes. |
| AllocationService.ReleaseActiveCount | core/services/allocation_service.py:56-59 | Releasing lowers the employee's active count by one if the allocation was active, and otherwise leaves it unchanged. |
| AllocationService.ReleasePreservesInvariant | core/services/allocation_service.py:53-65 | Releasing an active allocation keeps capacity, exclusivity and status consistency. |
| AllocationService.ReleaseKeepsValid | core/services/allocation_service.py:53-65 | Releasing keeps every table constraint and foreign key valid. The released allocation's line exists. |
| AllocationService.ReleaseOfStaleAllocationBreaksStatus | core/services/allocation_service.py:53-65 | The release has no guard on `is_active`. Releasing an inactive allocation whose line has a newer active allocation leaves the line `AVAILABLE` while it is actively allocated. |
| AllocationService.DoubleReleaseIsReachable | core/services/allocation_service.py:53-65 | A concrete history: allocate, release, reallocate to another employee, release the first allocation again. The history ends in a broken status invariant, and every step is accepted by the engine. |
| AllocationService.ReleaseActive | core/services/allocation_service.py:53-65 | The corrected release refuses exactly the inactive allocations, with `NotActive`. Otherwise it is the source's release. |
| AllocationService.ReleaseActivePreservesInvariant | core/services/allocation_service.py:53-65 | Every accepted corrected release keeps the engine invariant. |
| AllocationService.ActiveMeansLineAllocated | core/services/allocation_service.py:46-47 | Under the invariant, an active allocation's line is `ALLOCATED`, and an `ALLOCATED` line has an active allocation. An inactive allocation may have an `ALLOCATED` line, because the line can be allocated again. |
| AllocationService.ReallocateAfterRelease | core/services/allocation_service.py:15-65 | An eligible allocation succeeds. After its release, the same employee can get the same line again. This adds a second row and keeps the released one with its release time. The line ends `ALLOCATED` and the invariant holds. |
| AllocationService.AllocateLine | core/services/allocation_service.py:15-49 | On the store, the result and the new state are those of `Allocate`. An error leaves the store unchanged, as the transaction rollback does. The invariant is preserved. |
| AllocationService.ReleaseLine | core/services/allocation_service.py:53-65 | On the store, the new state is that of `Release`, and the returned allocation is the released row. Releasing an active allocation keeps the invariant. |
| Store.DeleteEmployees | allocations/models.py:10-11 | A hard delete is refused exactly when any allocation references one of the employees (`PROTECT`). Otherwise exactly those rows go. |
| Store.DeleteEmployeesKeepsValid | allocations/models.py:10-11 | A permitted hard delete of employees keeps every constraint and foreign key. |
| Store.DeletePhoneLines | allocations/models.py:12-13 | Deleting lines is refused exactly when any allocation references one of them. Otherwise exactly those rows go. |
| Store.DeletePhoneLinesKeepsValid | allocations/models.py:12-13 | A permitted delete of lines keeps every constraint and foreign key. |
| Store.DeleteSims | telecom/models.py:43-44 | Deleting SIM cards is refused exactly when a line is bound to one of them. Otherwise only those SIM rows go, and validity is kept. |
| Store.DeleteUser | allocations/models.py:18-20 | Deleting a user removes only that user. Every allocation keeps its place, but no longer names the user as allocator or releaser (`SET_NULL`). |
| Store.DeleteUserKeepsValid | allocations/models.py:18-20 | Deleting a user keeps every constraint and foreign key. |
| Store.Database.DeleteEmployee | employees/models.py:45-48 | `Employee.delete` soft-deletes one row. The row stays, hidden from the default manager, with `updated_at` stamped. Validity is kept. |
| Store.Database.DeleteEmployeeQuerySet | employees/models.py:5-7 | The queryset delete soft-deletes the selected live employees, returns their number and keeps every row. The live set loses exactly the selection. |
| Store.Database.HardDeleteEmployees | allocations/models.py:10-11 | A hard delete through `all_objects` is all or nothing: it is refused with the store unchanged when protected. |
| EmployeeModels.NewEmployee | employees/models.py:23-43 | A new employee has the given fields and status, `INACTIVE` when none is given. It is not deleted and is stamped with now. |
| EmployeeModels.EmployeeStr | employees/models.py:50-51 | The text is the full name followed by the employee id in parentheses. |
| EmployeeModels.Objects | employees/models.py:10-12 | The default manager shows exactly the rows that are not soft-deleted, unchanged. |
| EmployeeModels.SaveEmployee | employees/models.py:24-27 | A save fails exactly when another row has the same employee id or the same e-mail. Soft-deleted rows count, as a unique index counts them. On success the row is stored under its old key, or under a fresh key when it is new. Other rows are unchanged. |
| EmployeeModels.SaveEmployeeKeepsUnique | employees/models.py:24-27 | Every successful save keeps both uniqueness constraints. |
| EmployeeModels.SoftDelete | employees/models.py:45-48 | Only the row's `is_deleted` and `updated_at` change. The row leaves the live set but stays in the table. |
| EmployeeModels.Targets | employees/models.py:10-12 | The rows a `Employee.objects` queryset delete reaches are exactly the selected rows that are live. |
| EmployeeModels.QuerySetDelete | employees/models.py:5-7 | The update touches only the targets and counts them: `is_deleted` is set and `updated_at` stamped. The live set loses exactly the selection. |
| EmployeeModels.QuerySetDeleteKeepsUnique | employees/models.py:5-7 | A queryset delete keeps both uniqueness constraints. |
| TelecomModels.SimStatusChoicesComplete | telecom/models.py:5-9 | The SIM status choices list every status once. |
| TelecomModels.ParseLineStatus | telecom/models.py:35-39 | A string parses to a line status exactly when it is that status's stored value. |
| TelecomModels.NewSimCard | telecom/models.py:11-22 | A new SIM card has the given fields and status, `AVAILABLE` by default. It has no activation time, is not deleted and is stamped with now. |
| TelecomModels.NewPhoneLine | telecom/models.py:41-54 | A new line is bound to the given SIM card with status `AVAILABLE` by default. It is not deleted and is stamped with now. |
| TelecomModels.SimCardStr | telecom/models.py:24-25 | The text is the ICCID, " - ", then the status's stored value. |
| TelecomModels.PhoneLineStr | telecom/models.py:56-57 | The text is the phone number, " - ", then the status's stored value. |
| TelecomModels.PhoneLineStrNamesStatus | telecom/models.py:56-57 | The status can be read back from the text: what follows the number and " - " parses to the line's status. |
| TelecomModels.SaveSimCard | telecom/models.py:11 | A save fails exactly when another row has the ICCID. Success stores the card under its old or a fresh key and leaves the other rows unchanged. |
| TelecomModels.SavePhoneLine | telecom/models.py:41-44 | A save fails exactly in three cases: another row has the number, another line holds the SIM card (one-to-one), or the SIM card does not exist. Otherwise the row is stored and the others kept. |
| TelecomModels.SaveSimCardKeepsUnique | telecom/models.py:11 | A successful save keeps ICCIDs unique. |
| TelecomModels.SavePhoneLineKeepsConstraints | telecom/models.py:41-44 | A successful save keeps numbers unique, each SIM card bound at most once, and every line's SIM card existing. |
| TelecomModels.DeleteSimCards | telecom/models.py:43-44 | Deleting SIM cards is refused exactly when a line protects one of them. Otherwise only those rows go, and the lines still reference existing cards. |
| AllocationModels.NewAllocation | allocations/models.py:9-23 | A new allocation names its employee, line and allocating user. It is active, unreleased, and created and allocated at now. |
| AllocationModels.AllocationStr | allocations/models.py:32-33 | The text is the employee's text, " - ", then the line's text. |
| AllocationModels.InsertByNewest | allocations/models.py:26 | Inserting into a newest-first list keeps it newest first, and adds exactly the one allocation. |
| AllocationModels.OrderByNewest | allocations/models.py:26 | The `-allocated_at` ordering is newest first and a permutation of its input. |
| AllocationModels.ActiveCountPositive | core/services/allocation_service.py:23-25 | An employee's active count is positive exactly when the employee has an active allocation. |
| AllocationModels.ActiveCountAppend | core/services/allocation_service.py:39-44 | Appending an allocation raises an employee's active count by one exactly when that allocation is active and theirs. |
| AllocationModels.ActiveCountUpdate | core/services/allocation_service.py:56-59 | Replacing one allocation changes an employee's active count by the difference the old and new rows make. |
| AllocationModels.OnUserDeleted | allocations/migrations/0003_lineallocation_released_by.py:12-21 | Deleting a user clears the user from `allocated_by` and `released_by` and changes nothing else. Afterwards no allocation names the user. |
| UserModels.UserStr | users/models.py:52-53 | The text is the e-mail, " - ", then the role. |
| UserModels.NormalizeEmail | users/models.py:11 | An address without "@" is kept as given. Otherwise the address is stripped, and everything after its last "@" is lowercased while the local part is kept. |
| UserModels.CreateUserRow | users/models.py:8-15 | An empty e-mail is refused with the source's message. Otherwise creation fails exactly when the normalized e-mail is taken. A new user gets a fresh key with the normalized e-mail and the given password. The role defaults to `operator`, and the flags are true only when given true. |
| UserModels.SetDefault | users/models.py:18-19 | `setdefault` keeps a given value and supplies the default only when the key is absent. |
| UserModels.CreateUser | users/models.py:17-20 | An empty e-mail is refused. Otherwise creation fails exactly when the normalized e-mail is taken. A created user has the normalized e-mail. Its staff and superuser flags are set only when passed true, and its role is `operator` when none is given. |
| UserModels.CreateSuperuser | users/models.py:22-29 | An explicit `is_staff=False` is refused first. Then an explicit `is_superuser=False` is refused. Any created user is both staff and superuser. |
| UserModels.SuperuserIsUserWithBothFlags | users/models.py:22-29 | Unless a flag is explicitly false, creating a superuser is creating a user with both flags set. |
| UserModels.CreateUserRowKeepsUnique | users/models.py:39 | A created user keeps e-mails unique. |
| AllocationForms.Get | allocations/forms.py:148 | `cleaned.get` yields the stored value, or `None` when the field is absent. |
| AllocationForms.OrEmpty | allocations/forms.py:265-267 | `cleaned.get(f) or ""` keeps a truthy value and turns anything falsy into the empty text. |
| AllocationForms.AddError | allocations/forms.py:253 | `add_error` appends the error and removes the field from the cleaned data, keeping every other field. |
| AllocationForms.Missing | allocations/forms.py:251-253 | The missing fields are exactly the required fields whose value is falsy. |
| AllocationForms.RequireAllReportsMissing | allocations/forms.py:251-253 | The required-field loop appends one error per missing field, in field order, and removes exactly those fields from the cleaned data. |
| AllocationForms.CleanIccid | allocations/forms.py:226-234 | The hook fails exactly for the action `new` with a non-empty ICCID that a live SIM card already has, and fails with the source's message. Otherwise it returns the value unchanged. |
| AllocationForms.CleanPhoneNumber | allocations/forms.py:236-244 | The hook fails exactly for the action `new` with a non-empty number that a live line already has. Otherwise it returns the value unchanged. |
| AllocationForms.RunHooks | allocations/forms.py:226-244 | The hooks only remove fields. For any action but `new` they change nothing. |
| AllocationForms.FirstActiveForLine | allocations/forms.py:280-284 | `.first()` finds an allocation exactly when the line has an active one. What it finds is an active allocation of that line, and no other is newer. |
| AllocationForms.FilterActiveForLine | allocations/forms.py:280-281 | The filter keeps exactly the active allocations of the line. It is empty exactly when there is none. |
| AllocationForms.StatusGuard | allocations/forms.py:279-307 | With a line and a status chosen, the guard adds no error exactly when the line's having an active allocation matches the chosen status being `ALLOCATED`. Otherwise it adds one error, on `status_line`. Without both chosen it does nothing. |
| AllocationForms.TelephonyNewRequiresFields | allocations/forms.py:250-256 | For `new`: after the hooks, one error per missing field among number, ICCID and carrier, in that order, and the three line fields are cleared. |
| AllocationForms.TelephonyExistingChecks | allocations/forms.py:257-269 | For `existing`: an employee error exactly when no employee is chosen. A line error exactly when no line is chosen or the chosen line is not `AVAILABLE`. The status fields are cleared. |
| AllocationForms.ChangeStatusGuard | allocations/forms.py:270-313 | For `change_status` with a line and a status: no error is added exactly when the line's active allocation and the chosen `ALLOCATED` agree. The line and employee fields are cleared. |
| AllocationForms.TelephonyChangeStatusRequiresFields | allocations/forms.py:270-276 | For `change_status`: a line error is added exactly when no line is chosen. With no status chosen, exactly the two required-field errors are added and the guard adds nothing. The line and employee fields are cleared. |
| AllocationForms.HolderName | allocations/forms.py:290-294 | The guard names the allocation's employee by full name, and "usuário desconhecido" when the allocation has no employee. |
| AllocationForms.TelephonyClean | allocations/forms.py:246-315 | `clean` only appends errors. An action other than `new`, `existing` and `change_status` changes nothing. What each action adds is stated by the rows for `new`, `existing` and `change_status`. |
| AllocationForms.TelephonyValidate | allocations/forms.py:226-315 | Full validation only appends errors. For any action but `new` the hooks do nothing, so it is `clean` alone. |
| AllocationForms.AcceptedStatusChangeKeepsConsistency | allocations/forms.py:279-307 | Applying a status change the form accepts keeps every line `ALLOCATED` exactly when it has an active allocation. |
| AllocationForms.CombinedClean | allocations/forms.py:146-166 | Without an action, or with an unknown one, nothing changes. For `new`, see the next row. For `existing` the single error is a missing line. For `change_status` there is one error for a missing line and then one for a missing status, with the source's messages. The errors are only appended, and the cleaned data keeps only fields it had, with their values. |
| AllocationForms.CombinedNewRequiresFields | allocations/forms.py:153-156 | For `new`: one error per missing number, ICCID or carrier, in that order. |
| AllocationForms.CombinedValidate | allocations/forms.py:126-166 | Full validation only appends errors. For any action but `new` the hooks do nothing, so it is `clean` alone. |
| AllocationForms.BoundForm.constructor | allocations/forms.py:169-213 | A bound form starts with the submitted data and no errors. |
| AllocationForms.BoundForm.AddErrorTo | allocations/forms.py:253 | In place, the form's state becomes that of `add_error`. |
| AllocationForms.BoundForm.RequireFields | allocations/forms.py:251-253 | The loop over required fields leaves the form as the required-field function does, so each missing field gets its error in order. |
| AllocationForms.BoundForm.ValidateTelephonyAssignment | allocations/forms.py:226-315 | In place, the form ends as the hooks followed by `TelephonyAssignmentForm.clean` leave it. |
| AllocationForms.BoundForm.ValidateCombinedRegistration | allocations/forms.py:126-166 | In place, the form ends as the hooks followed by `CombinedRegistrationForm.clean` leave it. |
| UploadService.UploadFormat | core/services/upload_service.py:55-64 | A file is read as CSV exactly when its lowercased suffix is `.csv`, and as XLSX exactly when it is `.xlsx`. Otherwise it is refused with the source's message. |
| UploadService.Stringify | core/services/upload_service.py:107-110 | `None` becomes the empty text, and any other value is stripped. The result has no surrounding whitespace. |
| UploadService.NormalizeRowLastWins | core/services/upload_service.py:99-104 | A column is present exactly when some non-`None` header normalizes to it. Its value is the stringified value under the last such header. |
| UploadService.NormalizeRow | core/services/upload_service.py:99-104 | The row's columns are exactly the normalized names of the headers that are not `None`. |
| UploadService.MissingColumns | core/services/upload_service.py:196 | The missing list holds exactly the required columns that are absent or empty, in their required order. |
| UploadService.EnsureRequired | core/services/upload_service.py:195-199 | A row is refused exactly when a required column is absent or empty. The message lists the missing columns joined by ", ". |
| UploadService.NormalizeEmployeeStatus | core/services/upload_service.py:202-216 | An empty status is `inactive`. Otherwise the slugified key `ativo` or `active` gives active, and `inativo` or `inactive` gives inactive. Anything else is refused with the source's message. |
| UploadService.NormalizeSimStatus | core/services/upload_service.py:219-233 | An empty status is `AVAILABLE`. Otherwise each status is read from its English value or its Portuguese alias after slugifying. Anything else is refused with the source's message. |
| UploadService.NormalizersIgnoreCase | core/services/upload_service.py:206 | Both normalizers give the same answer for a status and its lowercase form. |
| UploadService.EmployeeStatusWord | core/services/upload_service.py:42-45 | Any capitalisation of `active`/`ativo` or `inactive`/`inativo` is read as that status. |
| UploadService.SimStatusWord | core/services/upload_service.py:47-52 | Any capitalisation of a SIM status value or its Portuguese alias is read as that status. |
| UploadService.EmployeeStatusRoundTrip | core/services/upload_service.py:39-45 | Each employee status's stored value and its display label both import back as that status. |
| UploadService.SimStatusRoundTrip | core/services/upload_service.py:40 | Each SIM status's stored value imports back as that status. |
| UploadService.Teams | core/services/upload_service.py:142-144 | The team is the first non-empty of `teams`, `team` and `department`. It is empty exactly when all three are. |
| UploadService.UpsertEmployee | core/services/upload_service.py:139-161 | Missing required columns raise the required-columns error. Then a missing team raises the team error, and a bad status raises the status error. While employee ids are unique, the upsert succeeds exactly when none of these applies and no other employee holds the row's e-mail. Success writes the row's name, e-mail, team and status under its employee id. The row is live and soft-deleted rows are included. It is created exactly when no row had that id, and the keys gain only its key. Only the employees table and only that row change. |
| UploadService.SaveSimRow | core/services/upload_service.py:169-177 | The SIM upsert by ICCID writes carrier and status and revives the row. It is created exactly when no card had the ICCID. The other cards are kept. It cannot fail while ICCIDs are unique. |
| UploadService.SaveLineRow | core/services/upload_service.py:183-192 | The line upsert by number binds the line to the card as an `AVAILABLE`, live line. It fails exactly when another line holds the card, the card is missing, or the number is duplicated. |
| UploadService.UpsertSimcard | core/services/upload_service.py:164-192 | Missing columns raise the required-columns error before anything is counted, and a bad status raises the status error. While ICCIDs are unique, the card is counted exactly when neither applies. A counted card is saved, and the counter records whether it was created. The row then succeeds exactly when it has no phone number or the line upsert accepts the line for that card. On success the card carries the ICCID, and with a phone number a live `AVAILABLE` line with that number is bound to it. Employees, allocations and users stay unchanged. |
| UploadService.RowError | core/services/upload_service.py:134 | A row's error is "Linha", its spreadsheet line number, ": ", then the message. |
| Common.NatToString | core/services/upload_service.py:134 | The line number is written as a non-empty text of decimal digits. |
| Common.NatToStringRoundTrip | core/services/upload_service.py:134 | The decimal text of a number reads back as that number. |
| Common.NatToStringInjective | core/services/upload_service.py:134 | Different line numbers give different texts. |
| UploadService.BumpEmployee | core/services/upload_service.py:158-161 | The four create/update counters together rise by one: the employees' created counter when the row was created, and their updated counter otherwise. Every other field is kept. |
| UploadService.BumpSim | core/services/upload_service.py:178-181 | A counted card raises the SIM cards' created or updated counter by one, as it was created or not, and so the four counters together by one. An uncounted row changes nothing. |
| UploadService.IngestRow | core/services/upload_service.py:116-134 | A blank row changes nothing. An employee row that upserts is committed: processed, with its created or updated counter raised. One that fails leaves the database and adds one error naming its line. A SIM row raises its counter when the card was counted. It is committed when the upsert succeeds, and otherwise adds one error naming its line and leaves the database. A row of any other type adds the type error. Allocations and users are never touched. |
| UploadService.Ingest | core/services/upload_service.py:113-136 | The import keeps the table invariants and never touches allocations or users. |
| UploadService.IngestRows | core/services/upload_service.py:113-136 | The loop over the rows leaves the store and returns the summary as the recursive import does. |
| UploadService.IngestAccountsEveryRow | core/services/upload_service.py:116-134 | Processed rows plus errors equal the number of non-blank rows. |
| UploadService.IngestHasErrorsIffRowRefused | core/services/upload_service.py:25-26 | `has_errors` holds after an import exactly when some non-blank row was not processed. |
| UploadService.IngestErrorsNameTheirRows | core/services/upload_service.py:116-134 | The errors name, in increasing order, distinct non-blank rows by their spreadsheet line: the first data row is line 2. |
| UploadService.IngestImportsEmployeeSheet | core/services/upload_service.py:113-161 | A sheet of ready employee rows with distinct ids and e-mails is imported whole, as long as no other employee holds those e-mails. Every row is processed and counted and none is reported. Each row's employee is then in the table with its id and e-mail, and every other row is the one that was there. |
| UploadService.UpsertedNeverBehindProcessed | core/services/upload_service.py:130-181 | As written, the created and updated counters add up to at least the processed rows. |
| UploadService.IngestRowCountsAhead | core/services/upload_service.py:178-192 | As written, one row can raise the counters by more than it raises the processed count. |
| UploadService.ReimportSimUpsertFails | core/services/upload_service.py:175-192 | Card S1 is already bound to line 111. Re-importing S1 with the new number 222 counts S1 as updated. Then the line upsert is refused, because S1 already has a line (one-to-one), and the row fails. |
| UploadService.SimCounterOutlivesRollback | core/services/upload_service.py:178-192 | That import ends with no processed row and one error, yet with one updated SIM card counted. |
| UploadService.IngestRowCommitted | core/services/upload_service.py:120-134 | The corrected row step counts a created or updated row only when the row commits. The counters move exactly with the processed count. |
| UploadService.IngestCommitted | core/services/upload_service.py:113-136 | The corrected import keeps the table invariants. |
| UploadService.CommittedCountersMatchProcessed | core/services/upload_service.py:113-136 | In the corrected import, the counters add up to exactly the processed rows. |
| UploadService.CommittedSameDatabase | core/services/upload_service.py:113-136 | The corrected import leaves the same database, the same errors and the same processed count as the source's. |
| UploadService.ImportFreesAllocatedLine | core/services/upload_service.py:183-192 | Importing a SIM row with the number of an actively allocated line sets that line `AVAILABLE` while its allocation stays active. |
| SlugText.Slugify | core/services/upload_service.py:206 | The slug has only lowercase, digit, `_` and `-` characters, no doubled hyphen, and neither a leading nor a trailing `-` or `_`. |
| SlugText.StatusKey | core/services/upload_service.py:206 | The status key has no hyphen and only lowercase, digit and `_` characters. |
| SlugText.StatusKeyIgnoresCase | core/services/upload_service.py:206 | Lowercasing the raw status first does not change its key. |
| SlugText.SlugifyOfWord | core/services/upload_service.py:206 | A word of letters slugifies to its lowercase form. |
| SlugText.StatusKeyOfWord | core/services/upload_service.py:206 | A word of letters has its lowercase form as status key. |
| SlugText.CollapseHasNoDoubleHyphen | core/services/upload_service.py:206 | Collapsing runs of hyphens and spaces leaves no two hyphens in a row. |
| SlugText.CollapseGivesSlugChars | core/services/upload_service.py:206 | Collapsing a lowercase word-or-separator text leaves only slug characters. |
| Common.PathSuffix | config/forms.py:15 | The suffix is non-empty exactly when the last path component has a dot that is neither its first nor its last character. It is then that component from its last dot on. |
| Common.PathSuffixOfCsv | config/forms.py:15 | `in/a.csv` has the suffix `.csv`. |
| Common.PathSuffixOfDotFile | config/forms.py:15 | A file name that starts with its only dot, as `.bashrc`, has no suffix. |
| Common.PathSuffixOfDottedDirectory | config/forms.py:15 | A dot in a directory name, as in `v1.2/data`, gives no suffix. |
| Common.Strip | core/services/upload_service.py:110 | The stripped text is the input with leading and trailing whitespace cut off. It has no surrounding whitespace, and only whitespace was removed from each end. |
| Common.DayOf | dashboard/views.py:78 | A time's day is the one whose 24 hours contain it. |
| ConfigForms.CleanFile | config/forms.py:13-21 | A file is accepted exactly when its lowercased suffix is `.csv` or `.xlsx` and it is at most 25 MB. Accepted files are returned unchanged. The extension error comes before the size error. |
| ConfigForms.SizeLimitInclusive | config/forms.py:11-20 | A file of exactly 25 MB passes the size check. One more byte fails it once the extension is acceptable. |
| ConfigForms.AcceptedFileIsDispatched | config/forms.py:15-16 | Exactly the names the form accepts are ones the import can read. |
| Aggregation.ToMap | dashboard/views.py:109-114 | The dictionary filled from the GROUP BY rows has exactly their statuses as keys. |
| Aggregation.CountsList | dashboard/views.py:123-131 | The status list has one entry per choice, in the choices' order, under the choice's label. |
| Aggregation.GroupLookup | dashboard/views.py:125 | For a true GROUP BY result, `get(value, 0)` is the number of live rows with that status. |
| Aggregation.CountsListCounts | dashboard/views.py:123-131 | Each entry of the status list counts the live rows with that choice's status. |
| Aggregation.CountsListAddsUp | dashboard/views.py:123-131 | When the choices cover every status, the entries add up to the number of live rows. |
| Aggregation.SumGroupsPartition | dashboard/views.py:123-131 | The counts of distinct statuses add up to the number of rows having one of them. |
| Aggregation.CountDistinct | dashboard/views.py:35-39 | Counting along a duplicate-free iteration order gives the size of the matching set. |
| DashboardViews.DashboardCounters | dashboard/views.py:17-25 | `available_lines` is total lines minus active allocations. The counters are bounded by their tables, and the allocated counter counts the active allocations. |
| DashboardViews.ActiveTotalCounts | dashboard/views.py:21-23 | The active total is the number of active allocations. |
| DashboardViews.AvailableLinesAreFree | dashboard/views.py:24 | Under the engine invariant, with no soft-deleted line actively allocated, the available counter is the number of live lines that are not `ALLOCATED`. |
| DashboardViews.AvailableNumbersWithinFree | dashboard/views.py:73-75 | Under the same conditions, the `AVAILABLE` lines are at most the available counter. |
| DashboardViews.AvailableLinesCanBeNegative | dashboard/views.py:24 | Once an allocated line is soft-deleted, the available counter can be negative even though the engine invariant holds. |
| DashboardViews.FillCounts | dashboard/views.py:109-121 | The loop that fills the `defaultdict` builds the dictionary of the GROUP BY rows, with later rows winning. |
| DashboardViews.BuildStatusCounts | dashboard/views.py:105-131 | Each list has one entry per choice, in order, counting that status's live rows (0 when none). The SIM list adds up to the SIM counter and the line list to the line counter. |
| DashboardViews.ChoicesCoverStatuses | dashboard/views.py:126 | The status choices are distinct and cover every status a row can have. |
| DashboardViews.BuildNegociadorData | dashboard/views.py:33-51 | One row per live employee, in iteration order. Each row holds the team, the name, the status label and "-" placeholders, and is flagged exactly when the employee has no active allocation. |
| DashboardViews.NegociadorRowOf | dashboard/views.py:40-50 | The supervisor is the employee's team, the negociador the full name and the status the status label. `carteira`, `unidade` and `pa` are "-". `sem_whats` holds exactly when the employee has no active allocation. |
| DashboardViews.SemWhats | dashboard/views.py:61-65 | The uncovered employees are at most the live employees. |
| DashboardViews.FlaggedRowsMatchSemWhats | dashboard/views.py:44-65 | The number of flagged table rows equals the `sem_whats` query's count. |
| DashboardViews.Indicators | dashboard/views.py:69-71 | The B2B and B2C indicators are the constant 0. |
| DashboardViews.IndicatorsWithinCounters | dashboard/views.py:56-99 | People logged in equals the active-employee counter. The day's uncovered total equals the uncovered employees. Delivered is at most the active allocations. New lines are at most the live lines. |
| DashboardViews.EngineKeepsReleasedIffInactive | core/services/allocation_service.py:39-59 | Allocation and release keep every allocation released exactly when it is inactive. |
| DashboardViews.DeliveredAndReconnectedDisjoint | dashboard/views.py:77-83 | While released means inactive, delivered and reconnected together count at most the day's allocations. |
| TelecomViews.StatusCounts | telecom/views.py:39-54 | The comprehensions give one entry per SIM choice and one per line choice. |
| TelecomViews.OverviewContext | telecom/views.py:26-37 | `available_lines` is total lines minus active allocations, and the totals are bounded by their tables. |
| TelecomViews.OverviewStatusCounts | telecom/views.py:39-54 | Each status list counts that status's live rows per choice, in order, and adds up to its page total. |
| TelecomViews.OverviewAgreesWithDashboard | telecom/views.py:26-54 | The overview reports the dashboard's four totals and the same status lists. |
| TelecomViews.OverviewAvailableAreFree | telecom/views.py:34-35 | Under the engine invariant, the overview's available lines are the live lines not `ALLOCATED`. |

## Left out

- Concurrency is not modelled: `select_for_update`, row locks and parallel requests. Each service call and each imported row is one atomic step. A refused step leaves the database as it was, which is how the model handles `transaction.atomic`.
- Reading the files is not modelled: `_parse_csv` and `_parse_xlsx`, the CSV reader, openpyxl, and file I/O. The import starts from the rows these functions yield, as header/value pairs that `NormalizeRow` turns into rows.
- Text handling is ASCII only: `slugify`'s NFKD normalisation, `str.lower` and `str.strip`. The decomposition is written out for the Latin-1 block only; other non-ASCII characters are dropped, and no other Unicode case mapping or whitespace is modelled.
- Password hashing (`set_password`) is not modelled. The user row keeps the given password value instead.
- `perc_sem_whats` is not modelled because it is a floating-point percentage. The date text `strftime("%d/%m/%Y")` is not modelled either.
- `UploadSummary.to_dict` is not modelled. It only copies the summary into a dictionary.
- `max_length` limits on character fields are not modelled. They are length checks the database and forms enforce outside the core logic.
- `CombinedRegistrationForm.__init__` is not modelled: its widget classes and its supervisor choices. It filters users by `SystemUser.Role.SUPER`, which users/models.py does not define, so as written it raises before any validation. The model starts from the bound data.
- `TelephonyAssignmentForm.__init__` is not modelled. It sets widget classes and the queryset order only.
- The form field declarations are not modelled. Their querysets (active live employees, available live lines) are not modelled: what a field yields comes in as cleaned data.
- The views' HTTP handling, templates, admin, URLs, mixins and `allocations/services.py` are not modelled. They are outside the core.
- `auto_now`/`auto_now_add` are modelled by passing `now` to the operations that create or save a row. `timezone.now()` and `date.today()` are parameters.
- `DashboardViews.BuildNegociadorData`: the order of `Employee.objects.filter(is_deleted=False)` is a parameter, a duplicate-free listing of the live employees, because the queryset has no ordering.
- `Aggregation.IsGroupBy`: the database's GROUP BY result is a parameter that meets this predicate, because the database computes it and returns it in no fixed order.
- `UserModels.NormalizeEmail` models Django's `BaseUserManager.normalize_email`, which is not part of this repository.
- `AllocationService.ReleaseLine` keeps the source's unguarded release. The corrected release `AllocationService.ReleaseActive` is a separate function; see "## Findings".
- `UploadService.Ingest`: its own contract states only that the tables stay valid and that allocations and users are untouched. What a row imports is stated by `UploadService.IngestRow`. What a whole import does is stated by the lemmas on it, which cover the row counts and errors, and for a sheet of employee rows the employees imported.
- The database's own error text is abstracted. A unique or one-to-one constraint failure carries a fixed stand-in text in SQLite's wording, such as "UNIQUE constraint failed: iccid". The real text comes from the database backend and ends up in the row's import error, so the exact error text is not modelled.
- `UploadService.IngestRows` follows the source's counters, including the one described under "## Findings". The corrected counting is `UploadService.IngestRowCommitted`.

## Findings

| source | as written | input that shows it | evidently intended | confidence | as-written member | corrected member |
|---|---|---|---|---|---|---|
| core/services/allocation_service.py:53-65 | `release_line` releases any allocation, including one already released, and sets its line `AVAILABLE` | Allocate line 1 to employee 1, release it, allocate line 1 to employee 2, then release the first allocation again: line 1 becomes `AVAILABLE` while employee 2's allocation of it is active | Only an active allocation is released, so a line is `ALLOCATED` exactly when it has an active allocation | not executed | AllocationService.DoubleReleaseIsReachable | AllocationService.ReleaseActivePreservesInvariant |
| core/services/upload_service.py:175-192 | `_upsert_simcard` bumps `simcards_created`/`simcards_updated` before the phone-line upsert, and the counters live outside the row's transaction, so a row whose line upsert fails is rolled back but stays counted | Card S1 is bound to line 111. Import S1 again with the phone number 222: the card is counted, then the line upsert is refused because S1 already has a line. The summary shows 0 processed rows, 1 error and 1 updated SIM card | A row is counted as created or updated only when it commits, so the counters add up to the processed rows | not executed | UploadService.SimCounterOutlivesRollback | UploadService.CommittedCountersMatchProcessed |

### Observations

These behaviours follow from the code as written. The model keeps them as
they are, and lemmas state them:

- Importing a SIM row whose phone number belongs to an actively allocated
  line resets that line to `AVAILABLE`, while its allocation stays active
  (`UploadService.ImportFreesAllocatedLine`).
- The dashboard's `available_lines` subtracts every active allocation from
  the live lines only. It goes negative once an allocated line is
  soft-deleted (`DashboardViews.AvailableLinesCanBeNegative`).
