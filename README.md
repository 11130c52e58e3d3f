# Sistema Agraria — a Dafny model of its page logic

Sistema Agraria is a browser application for an agricultural school. Its pages keep their data in the browser:

- the login page and password recovery;
- user administration;
- teaching environments (huerta, granja, ...);
- the activity register and its query page;
- the inventory of products and stock movements;
- the sales cart and checkout, and the sales query page;
- the shell: page name, navigation per role and dashboard counts;
- shared UI components: pagination, a data table and field validation.

This project models the rules behind those pages in Dafny 4.11 and proves what they promise.

- **Modules.** Each page is one module: `Auth`, `Users`, `Environments`, `Activities`, `ActivityQuery`, `Inventory`, `Sales`, `SalesQuery`, `Shell` and `Components`. They share four more:
  - `Records`: the stored entities and the form maps;
  - `Text`: JavaScript string behaviour (`trim`, `toLowerCase`, `includes`, `<` on strings, `parseInt`, `split('/').pop()`, the e-mail pattern);
  - `Sorting`: a stable sort with a comparator key and direction;
  - `Common`: `Option`, `Filter`, `FindIndex`, the `max(ids, 0) + 1` id rule, first-occurrence de-duplication.
- **What changes in place.** A page object whose fields the source updates becomes a `class`, for example `Inventory.InventoryModule`, `Sales.SalesModule`, `Components.DataTable` and `Auth.PasswordRecovery`. Its methods are proved equal to pure specification functions on the old state, for example `StockMovement`, `AddToCart`, `Checkout` and `Upsert`. The properties the pages promise are then lemmas about those functions.
- **Loops.** A source loop that updates variables becomes a `while` loop with invariants:
  - the required-field checks;
  - the pagination window;
  - the environment migration;
  - the checkout's inventory decrement.
- **Storage.** Stored collections are constructor parameters. Absent storage is `None`, and unreadable storage is `Stored.Unreadable` where the code branches on it.
- **Data.** Dates are ISO `yyyy-mm-dd` texts compared as strings. "Now", "today" and the session clock are parameters. Money is `real` on the sales page and integer cents on the sales query page.

## Model

| member | source | states |
|---|---|---|
| Auth.DefaultUsers | assets/js/auth.js:39-96 | four seeded accounts with ids 1-4, all active: admin, area head, animal and plant teacher |
| Auth.SessionLifetime | assets/js/auth.js:124-130 | a session is valid iff `now < timestamp + 86400000` (strict); it is valid up to its creation time and invalid at exactly 24 h |
| Auth.FindUserById | assets/js/auth.js:110 | the first account with that id, or none exists |
| Auth.SessionUser | assets/js/auth.js:105-122 | an account is restored only from a parsed, unexpired session naming an active account of the list; such a session restores one whenever its id names only active accounts |
| Auth.Login | assets/js/auth.js:158-196 | refused before lookup iff the trimmed user name or the password is empty; a login is the first account matching name (ignoring case), exact password and `active`; bad credentials iff none matches |
| Auth.AdminLogsIn | assets/js/auth.js:160-185 | the seeded admin logs in with ` ADMIN ` / `admin123` (the name is trimmed and compared ignoring case) |
| Auth.PaddedPasswordRefused | assets/js/auth.js:183 | the password is not trimmed: ` admin123` is refused |
| Auth.ProfesorTipo | assets/js/auth.js:398-405 | `animal` iff the role is `profesor_animal`, `vegetal` iff `profesor_vegetal`, none for every other role and for nobody logged in |
| Auth.RolesExclusive | assets/js/auth.js:386-400 | with nobody logged in every role predicate is false; no account is of two role kinds |
| Auth.RequireAuth | assets/js/auth.js:408-414 | true iff someone is logged in |
| Auth.RequireAdmin | assets/js/auth.js:416-422 | true iff an administrator is logged in, and then `requireAuth` holds too |
| Auth.SetPassword | assets/js/auth.js:346-347 | only the chosen account's password changes; the list keeps its length |
| Auth.RecoveryNext | assets/js/auth.js:287-352 | a button press keeps the dialog's invariant: from step 2 on, an account of the list is selected |
| Auth.RecoveryAdvances | assets/js/auth.js:298-329 | the step never skips; step 1 advances iff the name is not blank and some account has it (ignoring case); step 2 advances iff the trimmed answer equals the stored one ignoring case |
| Auth.RecoveryChangesOnePassword | assets/js/auth.js:331-348 | passwords change only in step 3, with a new password of at least 6 characters equal to its confirmation, and only the selected account's password |
| Auth.AuthSystem.constructor | assets/js/auth.js:3-8 | the saved accounts, or the seeded ones when none are saved; nobody logged in |
| Auth.AuthSystem.CheckSession | assets/js/auth.js:105-122 | no stored session changes nothing; a restorable one logs its account in and redirects only from the login page; anything else clears the session |
| Auth.AuthSystem.CreateSession | assets/js/auth.js:132-143 | stores id, name, role, time and remember-me, and logs the account in |
| Auth.AuthSystem.ClearSession | assets/js/auth.js:145-148 | forgets the session and logs out |
| Auth.AuthSystem.HandleLogin | assets/js/auth.js:158-196 | the outcome is `Login`; only a successful login creates a session |
| Auth.PasswordRecovery.constructor | assets/js/auth.js:280-285 | the dialog starts at step 1 with no account selected |
| Auth.PasswordRecovery.Next | assets/js/auth.js:287-352 | one press is `RecoveryNext` on the dialog state and the account list |
| Users.RequiredFields | assets/js/users.js:404-408 | the eight fields always come first, and `password` is required iff creating |
| Users.ValidFormRequired | assets/js/users.js:404-415 | with no field flagged, none of the eight is blank, and a created account has a password |
| Users.ValidFormGuarantees | assets/js/users.js:399-466 | a valid form has the eight fields filled and a well-formed e-mail; its password has at least 6 characters, or is empty while editing |
| Users.OwnValuesNotTaken | assets/js/users.js:424-457 | an account edited with its own user name, document or e-mail is not refused as a duplicate |
| Users.GenerateUserId | assets/js/users.js:503-505 | above every existing id, and at least 1 |
| Users.FromForm | assets/js/users.js:360-383 | the record takes the form's names, document and e-mail; `active` iff the form says `"true"` |
| Users.UpsertEdits | assets/js/users.js:362-376 | an edit replaces only the first record with the edited id; that record keeps id and creation time, and keeps the old password when the form's is empty |
| Users.UpsertEditGone | assets/js/users.js:373-376 | editing an account no longer in the list changes nothing |
| Users.UpsertCreates | assets/js/users.js:377-384 | a new account is appended with a fresh id, the form's password and `active` iff `"true"` |
| Users.EditKeepsDistinguished | assets/js/users.js:424-457 | an edit that passes the three duplicate checks keeps ids and non-empty user names, documents and e-mails unique |
| Users.CreateKeepsDistinguished | assets/js/users.js:424-457 | a create that passes the three duplicate checks keeps ids and non-empty user names, documents and e-mails unique |
| Users.UpsertKeepsDistinguished | assets/js/users.js:342-397 | saving a valid form never makes two accounts share an id, or a non-empty user name, document or e-mail |
| Users.StoredPasswordLength | assets/js/users.js:360-384 | after a valid save every record is unchanged, keeps its old password, or has one of at least 6 characters |
| Users.Delete | assets/js/users.js:514-536 | deleting one's own account or an unconfirmed delete changes nothing; otherwise exactly the records with that id go and all others stay |
| Users.DeleteRemoves | assets/js/users.js:527-528 | a confirmed delete of another account leaves no record with that id |
| Users.SeedUsers | assets/js/users.js:73-125 | two seeded accounts, ids 1 and 2, the first an administrator, with unique keys |
| Users.UsersModule.constructor | assets/js/users.js:73-125 | the saved accounts or the seeded ones; no account under edit |
| Users.UsersModule.ShowUserModal | assets/js/users.js:251-271 | the given account becomes the one under edit (none to create) |
| Users.UsersModule.CloseUserModal | assets/js/users.js:323-340 | no account is under edit |
| Users.UsersModule.EditUser | assets/js/users.js:507-512 | the first account with that id comes under edit; an unknown id changes nothing |
| Users.UsersModule.ValidateUserForm | assets/js/users.js:399-466 | the verdict is true iff the fields are filled, the e-mail is well formed, no other account has the user name, document or e-mail, and a given password has at least 6 characters |
| Users.UsersModule.HandleUserSubmit | assets/js/users.js:342-397 | an invalid form changes nothing; a valid one is `Upsert` and closes the form |
| Users.UsersModule.DeleteUser | assets/js/users.js:514-536 | the list becomes `Delete` of it |
| Text.EmailIff | assets/js/users.js:498-501 | the e-mail test holds iff the text is a run, `@`, a run, `.` and a run, each run non-empty and free of `@` and white space |
| Text.SpacedEmailInvalid | assets/js/users.js:499 | no text with a space is a valid e-mail |
| Environments.NormalizedShape | assets/js/environments.js:149-152 | a normalised name is lower case and neither starts nor ends with white space |
| Environments.StripProf | assets/js/environments.js:151 | a text not starting with `prof` after its leading white space is left as it is |
| Environments.StripAfterProf | assets/js/environments.js:151 | after `prof`, one optional dot and the following white space go |
| Environments.LongerWordStripped | assets/js/environments.js:151 | the pattern has no word boundary: `prof` followed by any other letter (`professor`) is cut as well |
| Environments.TitleIgnored | assets/js/environments.js:149-155 | `Prof. <name>` normalises to the same as `<name>` |
| Environments.Visible | assets/js/environments.js:142-158 | a professor sees exactly the environments of their kind assigned to them by id or by normalised name; everyone else sees all |
| Environments.ProfessorSeesOwnKind | assets/js/environments.js:146-156 | an animal-kind teacher sees only `animal` environments |
| Environments.ByType | assets/js/environments.js:494-496 | exactly the environments of that kind, each as often as stored |
| Environments.WithTeacher | assets/js/environments.js:357-365 | the chosen option's text becomes both the responsible name and the responsible teacher |
| Environments.NameTakenAt | assets/js/environments.js:419-423 | true iff another environment, not the one under edit, has the name ignoring case |
| Environments.EnvironmentsModule.ValidateEnvironmentForm | assets/js/environments.js:404-431 | the verdict is true iff the six fields are filled and no other environment has the name ignoring case |
| Environments.FromForm | assets/js/environments.js:357-386 | the record takes the form's name, the given id and times, and as responsible the id `parseInt` reads from the selected option |
| Environments.Submit | assets/js/environments.js:367-370 | an invalid form changes nothing |
| Environments.SubmitCreates | assets/js/environments.js:382-389 | a valid create appends one environment whose id is above every existing id |
| Environments.SubmitEdits | assets/js/environments.js:372-381 | a valid edit replaces only the first record with the edited id, keeping id and creation time |
| Environments.SubmitKeepsDistinguished | assets/js/environments.js:345-431 | saving never makes two environments share an id or a name (ignoring case) |
| Environments.Delete | assets/js/environments.js:474-487 | an unconfirmed delete changes nothing; a confirmed one removes exactly the records with that id |
| Environments.ProfessorRole | assets/js/environments.js:573-575 | a teacher role exists exactly for the kinds `animal` and `vegetal` |
| Environments.FirstWithRole | assets/js/environments.js:576 | the first account with the role, or none has it |
| Environments.ByName | assets/js/environments.js:568-571 | the first account whose normalised full name is the normalised display name, or none has it |
| Environments.ByKind | assets/js/environments.js:591 | the account found by kind is a teacher of the environment's kind; none found means no such teacher |
| Environments.Assignee | assets/js/environments.js:580-598 | the account found by name wins; otherwise the first teacher of the kind |
| Environments.MigrateOne | assets/js/environments.js:579-599 | an environment that has a responsible id, or finds nobody, is unchanged; id, name and kind never change |
| Environments.MigrateOneAssigns | assets/js/environments.js:582-597 | an environment without a responsible gets the found account's id and full name, and that account matches by name or by kind |
| Environments.MigrateOneIdempotent | assets/js/environments.js:580 | with non-zero account ids, migrating twice is migrating once |
| Environments.MigrateAll | assets/js/environments.js:579-600 | every environment is migrated on its own, in place |
| Environments.MigratesIff | assets/js/environments.js:578-601 | `changed` is set iff some environment lacked a responsible and found one |
| Environments.NoAccountsNoMigration | assets/js/environments.js:563-564 | with no stored accounts nothing changes |
| Environments.SeedEnvironments | assets/js/environments.js:84-128 | three sample environments, ids 1-3 |
| Environments.EnvironmentsModule.constructor | assets/js/environments.js:75-131 | stored environments are migrated with the stored accounts; with none stored, the samples |
| Environments.EnvironmentsModule.MigrateEnvironmentsUsers | assets/js/environments.js:561-605 | unreadable accounts change nothing; otherwise the list is `MigrateAll`, and `changed` says whether anything was assigned |
| Environments.EnvironmentsModule.AssignResponsibles | assets/js/environments.js:579-600 | the loop leaves `MigrateAll` of the list and reports whether it changed |
| Environments.EnvironmentsModule.AssignOne | assets/js/environments.js:580-599 | the environment at the position is replaced by its migration and nothing else changes; the result says whether it needed one |
| Environments.EnvironmentsModule.ShowEnvironmentModal | assets/js/environments.js:255-271 | area heads and teachers cannot open the form; otherwise the environment given (none to create) is under edit |
| Environments.EnvironmentsModule.HandleEnvironmentSubmit | assets/js/environments.js:345-402 | saved iff the mapped form is valid; the list becomes `Submit`, and a save closes the form |
| Environments.EnvironmentsModule.DeleteEnvironment | assets/js/environments.js:474-487 | the list becomes `Delete` of it |
| Activities.ActivitiesModule.ValidateActivityForm | assets/js/activities.js:262-302 | the verdict is true iff the eleven fields are filled, the date is not after today and a numeric duration lies in [15, 480] |
| Activities.ValidFormGuarantees | assets/js/activities.js:262-302 | a valid form has every required field non-blank, a date not after today, and a numeric duration in [15, 480] |
| Activities.BlankFieldInvalid | assets/js/activities.js:273-278 | one blank required field makes the form invalid whatever else it holds |
| Activities.DurationBounds | assets/js/activities.js:292-299 | a whole-number duration is refused iff it is below 15 or above 480 |
| Activities.SeedActivities | assets/js/activities.js:105-142 | two sample activities, ids 1 and 2 |
| Activities.LoadActivities | assets/js/activities.js:99-145 | the stored activities, or the samples |
| Activities.GenerateActivityId | assets/js/activities.js:519-521 | above every existing id, and at least 1 |
| Activities.FormEnvironment | assets/js/activities.js:238 | the environment found has the id `parseInt` reads from the form; none found means none has it |
| Activities.Overlay | assets/js/activities.js:429-434 | the edited record keeps its id and takes the update time |
| Activities.OverlayEmpty | assets/js/activities.js:429-434 | an empty form changes only the update time |
| Activities.OverlayCompose | assets/js/activities.js:429-434 | two edits in a row are one edit with the union of the forms, the later winning |
| Activities.OverlayIdempotent | assets/js/activities.js:429-434 | the same edit twice is the edit once |
| Activities.NewActivity | assets/js/activities.js:237-246 | the new record has the given id and times, the form's environment id, and the found environment's name |
| Activities.Register | assets/js/activities.js:220-250 | an invalid form changes nothing; a valid one puts one record at the head and keeps the rest in order |
| Activities.RegisterFreshId | assets/js/activities.js:244-248 | the new record's id is `max(ids, 0) + 1`, used by no earlier record |
| Activities.Edit | assets/js/activities.js:413-445 | with nothing under edit nothing changes; otherwise only the first record with the edited id becomes the overlay; ids stay the same |
| Activities.EditReplacesFirst | assets/js/activities.js:428-435 | an edit of a listed activity replaces exactly that record |
| Activities.Delete | assets/js/activities.js:398-411 | an unconfirmed delete changes nothing; a confirmed one removes exactly the records with that id |
| Activities.ByEnvironment | assets/js/activities.js:558-560 | exactly the records stored under that environment id, each as often as stored |
| Activities.ByEnvironmentInOrder | assets/js/activities.js:558-560 | the records keep their stored order: the list for `a + b` is that of `a` followed by that of `b`, and one record is listed iff stored under that id |
| Activities.ByEnvironmentStrict | assets/js/activities.js:559 | the id is compared strictly: a number does not find records that store it as text |
| Activities.ActivitiesModule.constructor | assets/js/activities.js:7-145 | the stored or sample activities and the stored environments; nothing under edit |
| Activities.ActivitiesModule.HandleActivitySubmit | assets/js/activities.js:220-260 | registered iff the form is valid; the list becomes `Register` |
| Activities.ActivitiesModule.BeginEdit | assets/js/activities.js:378-396 | the first record with that id comes under edit and the page is editing; an unknown id changes nothing |
| Activities.ActivitiesModule.CloseEditModal | assets/js/activities.js:459-470 | no record is under edit and the page is not editing |
| Activities.ActivitiesModule.HandleEditActivitySubmit | assets/js/activities.js:413-445 | the list becomes `Edit` of the record under edit; when that record was found the modal closes, leaving no record under edit, and otherwise nothing else changes |
| Activities.ActivitiesModule.DeleteActivity | assets/js/activities.js:398-411 | the list becomes `Delete` |
| Records.CheckRequired | assets/js/activities.js:273-278 | the loop flags exactly the absent or blank fields, in order, and is valid iff none is |
| Records.MissingOfEmpty | assets/js/environments.js:411-416 | no field is flagged iff every listed field is present and not blank |
| Records.ValueText | assets/js/activity-query.js:465 | a stored number is written as text that `parseInt` reads back |
| ActivityQuery.AddEntry | assets/js/activity-query.js:142-144 | a non-blank value is stored trimmed; a blank one is skipped |
| ActivityQuery.CollectFiltersSound | assets/js/activity-query.js:141-145 | every collected criterion is non-empty and is the trimmed value of a submitted entry with that key |
| ActivityQuery.CollectFiltersComplete | assets/js/activity-query.js:141-145 | every submitted entry with a non-blank value leaves a criterion |
| ActivityQuery.CollectFiltersLastWins | assets/js/activity-query.js:143 | the last entry for a key decides its criterion |
| ActivityQuery.CollectFilters | assets/js/activity-query.js:141-145 | no criterion is blank: a field left empty sets no filter |
| ActivityQuery.FormActivityFailsEnvironmentFilter | assets/js/activity-query.js:155-158 | as written, an activity registered through the form (id stored as `"1"`) fails the filter for environment 1 |
| ActivityQuery.EnvironmentMatchesExtends | assets/js/activity-query.js:155-158 | the corrected criterion keeps all that the written one keeps, agrees with it on numeric ids, and also keeps ids stored as the text of the chosen number |
| ActivityQuery.MatchesOthersIff | assets/js/activity-query.js:160-218 | the nine criteria besides the environment hold iff each set one is met: exact type, teacher, year and division, group/title/description containing the text ignoring case, and the inclusive date range |
| ActivityQuery.MatchesIff | assets/js/activity-query.js:152-220 | as written, an activity is kept iff a set environment criterion parses and the stored id is that very number, and every other set criterion is met |
| ActivityQuery.MatchesIntendedExtends | assets/js/activity-query.js:155-158 | the corrected predicate keeps every activity the written one keeps, and exactly the same ones when the id is stored as a number |
| ActivityQuery.NoCriteriaKeepsAll | assets/js/activity-query.js:152-220 | with no criteria every activity is kept |
| ActivityQuery.FilterActivities | assets/js/activity-query.js:153-220 | exactly the activities matching as written are kept |
| ActivityQuery.FilterIntended | assets/js/activity-query.js:153-220 | exactly the activities matching with the corrected environment criterion are kept |
| ActivityQuery.FilterActivitiesInOrder | assets/js/activity-query.js:153 | the filter works piece by piece and keeps one activity exactly when it matches, so the kept activities are in stored order |
| ActivityQuery.FilterIntendedInOrder | assets/js/activity-query.js:153 | the corrected filter keeps stored order in the same way |
| ActivityQuery.NewestFirstSpec | assets/js/activity-query.js:222-227 | sorting holds the same activities, each as often, with no earlier date and time before a later one |
| ActivityQuery.ResultsSpec | assets/js/activity-query.js:152-227 | the results, as written, are a permutation of the matching activities, ordered by date and time, newest first |
| ActivityQuery.ResultsIntendedSpec | assets/js/activity-query.js:152-227 | with the corrected environment criterion, the results are a permutation of the matching activities, newest first |
| ActivityQuery.ResultsIntendedExtends | assets/js/activity-query.js:155-158 | every activity the written filter shows, the corrected filter shows too |
| ActivityQuery.Results | assets/js/activity-query.js:152-227 | the page shows at most the stored activities, and only ones every set criterion, as written, accepts |
| ActivityQuery.ResultsIntended | assets/js/activity-query.js:152-227 | the corrected results are at most the stored activities, and only ones the corrected criteria accept |
| ActivityQuery.NewestFirstMembers | assets/js/activity-query.js:222-227 | ordering newest first keeps the number of results and adds no activity |
| ActivityQuery.Teachers | assets/js/activity-query.js:120 | one teacher per activity, in order |
| ActivityQuery.TeacherOptionsSpec | assets/js/activity-query.js:115-131 | the options are the activities' teachers, each once, in order of first appearance |
| ActivityQuery.TeacherOptions | assets/js/activity-query.js:115-131 | every teacher of an activity is offered, and none twice |
| ActivityQuery.TypeLabel | assets/js/activity-query.js:489-496 | an unknown kind is shown as it is |
| ActivityQuery.OptionalText | assets/js/activity-query.js:457 | a present text is written as it is |
| ActivityQuery.ActivityRows | assets/js/activity-query.js:454-467 | one CSV line per result, in order |
| ActivityQuery.ActivitiesCsv | assets/js/activity-query.js:440-468 | there is no export iff there are no results |
| ActivityQuery.ActivitiesCsvShape | assets/js/activity-query.js:447-468 | the export is the twelve-column header line, a new line, and one line per result |
| ActivityQuery.ReadDoubled | assets/js/activity-query.js:460 | a text with its quotes doubled reads back as the text |
| ActivityQuery.DoubledColumnReadsBack | assets/js/activity-query.js:460 | a description column (quoted, quotes doubled) reads back as the description |
| ActivityQuery.TitleWithQuoteUnreadable | assets/js/activity-query.js:459 | a title holding a quote is written without doubling it, so the column does not read back |
| ActivityQuery.ActivityQueryModule.constructor | assets/js/activity-query.js:7-35 | the stored activities and environments; no criteria, no results |
| ActivityQuery.ActivityQueryModule.ApplyFilters | assets/js/activity-query.js:152-228 | the results become the activities matching as written (strict numeric environment id), newest first |
| ActivityQuery.ActivityQueryModule.HandleFilterSubmit | assets/js/activity-query.js:133-150 | the criteria are collected from the entries, then the results computed from them |
| ActivityQuery.ActivityQueryModule.ClearFilters | assets/js/activity-query.js:418-438 | no criteria and no results remain |
| Inventory.SeedProducts | assets/js/inventory.js:55-101 | five sample products, ids 1-5 |
| Inventory.SeedMovements | assets/js/inventory.js:113-134 | two sample movements, ids 1 and 2 |
| Inventory.LoadLedger | assets/js/inventory.js:47-138 | the stored or sample products and movements; each next id is `max(ids, 0) + 1` (6 and 3 for the samples); every id is below its next id |
| Inventory.CurrentUserName | assets/js/inventory.js:498-504 | never empty: the account's user name, else `Usuario` |
| Inventory.FindProduct | assets/js/inventory.js:208 | the first product with that id, or none has it |
| Inventory.NewStock | assets/js/inventory.js:221-231 | `entrada` adds, `salida` subtracts, `ajuste` sets, any other type keeps the stock |
| Inventory.StockMovementRefusals | assets/js/inventory.js:203-218 | a refused movement changes nothing; it lacks fields iff type or reason is empty, or the id or quantity is 0 or does not parse; the product is not found iff no product has the id |
| Inventory.StockMovementEffect | assets/js/inventory.js:220-245 | a recorded movement changes only the chosen product's stock, by `NewStock`; it prepends one record with the next id, that product's id and name, and advances the id by 1 |
| Inventory.SalidaKeepsStockNonNegative | assets/js/inventory.js:215-226 | a recorded `salida` never takes the stock below 0 |
| Inventory.NegativeEntradaLowersStock | assets/js/inventory.js:203 | a negative quantity passes the check: an `entrada` of -5 lowers the stock |
| Inventory.StockMovementKeepsValid | assets/js/inventory.js:234-245 | every id stays below its next id |
| Inventory.StockMovement | assets/js/inventory.js:197-245 | a refused movement changes nothing; no movement adds or removes a product or an id; a recorded one is prepended with the next movement id and the form's product and quantity |
| Inventory.NameTakenAt | assets/js/inventory.js:276 | true iff a product has the name ignoring case |
| Inventory.AddProductEffect | assets/js/inventory.js:262-322 | a refused add changes nothing; it lacks fields iff name, category or unit is empty or the price is negative; it is a duplicate iff a product already has the name ignoring case; an added product is appended with the next id, and an `entrada`/`Stock inicial` movement is prepended iff its initial stock is positive |
| Inventory.AddProductKeepsInvariants | assets/js/inventory.js:262-306 | adding keeps ids below the next ids and product names distinct ignoring case |
| Inventory.AddProduct | assets/js/inventory.js:262-322 | a refused product changes nothing; an added one has a name no product has, takes the next product id and is appended |
| Inventory.EditPrice | assets/js/inventory.js:465-477 | an accepted positive price replaces the price of the first product with that id and nothing else; a cancelled, non-numeric or non-positive price, or an unknown id, changes nothing |
| Inventory.EditPriceKeepsInvariants | assets/js/inventory.js:465-477 | editing a price changes only prices, so ids stay below the next id and names stay distinct |
| Inventory.EditPriceIdempotent | assets/js/inventory.js:471 | editing the same price twice is editing it once |
| Inventory.DeleteProduct | assets/js/inventory.js:479-488 | an unconfirmed delete changes nothing; a confirmed one removes exactly the products with that id |
| Inventory.StatusRank | assets/js/inventory.js:443-451 | the three statuses are ranked 0-2 |
| Inventory.StockStatusMonotone | assets/js/inventory.js:443-451 | for stock of at least 0, more stock never gives a worse status, and `Stock OK` stays `Stock OK` |
| Inventory.CategoryName | assets/js/inventory.js:453-463 | a known category has its label; any other is shown as it is |
| Inventory.InventoryModule.constructor | assets/js/inventory.js:47-138 | the page holds `LoadLedger` |
| Inventory.InventoryModule.HandleStockMovement | assets/js/inventory.js:197-260 | the ledger and outcome are `StockMovement` of the old ledger |
| Inventory.InventoryModule.HandleAddProduct | assets/js/inventory.js:262-322 | the ledger and outcome are `AddProduct` of the old ledger |
| Inventory.InventoryModule.EditProduct | assets/js/inventory.js:465-477 | the products become `EditPrice` of the old ones: only the first product with that id gets the accepted positive price; movements and ids are unchanged |
| Inventory.InventoryModule.RemoveProduct | assets/js/inventory.js:479-488 | the products become `DeleteProduct`; movements and ids are unchanged |
| Sales.FromInventory | assets/js/sales.js:39-46 | an inventory product keeps id, name and stock; its price becomes the default price |
| Sales.LoadSaleProducts | assets/js/sales.js:33-59 | inventory products are mapped; unreadable inventory gives none; without inventory the legacy products or none |
| Sales.FindSaleProduct | assets/js/sales.js:206 | the first product with that id, or none has it |
| Sales.FindLine | assets/js/sales.js:222 | the first cart line of that product, or there is none |
| Sales.Available | assets/js/sales.js:211-214 | what may still be added plus what is in the cart is the stock |
| Sales.Bump | assets/js/sales.js:226-228 | the line gains the units, takes the new price, and its subtotal is quantity times price |
| Sales.AddToCartRefusals | assets/js/sales.js:189-204 | a refused request leaves the cart as it was; no product, a bad quantity and a bad price are refused exactly as checked, in that order |
| Sales.AddToCartAccepts | assets/js/sales.js:206-239 | a well-formed request is refused iff the product is unknown or it exceeds the stock left after the cart; an accepted one merges its line |
| Sales.MergeLineShape | assets/js/sales.js:222-239 | a product already in the cart gets its units added to its line; otherwise one line is appended |
| Sales.MergeLineCounts | assets/js/sales.js:222-239 | the cart's units grow by exactly the request for that product and not at all for others |
| Sales.AddToCartKeepsInvariants | assets/js/sales.js:179-246 | adding keeps one line per product, every subtotal equal to quantity times price, and every product within its stock |
| Sales.MergeLine | assets/js/sales.js:222-239 | the cart grows by at most one line, every existing line keeps its product, and a new line holds the chosen product and quantity |
| Sales.AddToCart | assets/js/sales.js:179-246 | a refusal leaves the cart as it was; an accepted request has a positive quantity and adds at most one line |
| Sales.AddToCartKeepsQuantitiesPositive | assets/js/sales.js:189-239 | adding keeps every line's quantity positive |
| Sales.SpliceStart | assets/js/sales.js:249 | `splice`'s start: a non-negative index as it is, a negative one counted from the end, one before the start clamped to 0 |
| Sales.RemoveLine | assets/js/sales.js:248-249 | `splice(i, 1)`: the line at i goes, a negative i counts from the end, an i before the start removes the first line, an i past the end removes nothing |
| Sales.RemoveLineKeepsInvariants | assets/js/sales.js:248-249 | removing keeps one line per product, consistent subtotals and every product within stock |
| Sales.RemoveLineSubtotal | assets/js/sales.js:248-249 | removing a line lowers the subtotal by exactly its subtotal |
| Sales.RemoveLineKeepsQuantitiesPositive | assets/js/sales.js:248-249 | removing keeps every line's quantity positive |
| Sales.AppendLineSubtotal | assets/js/sales.js:231-238 | a new line raises the subtotal by its quantity times its price |
| Sales.EffectiveStock | assets/js/sales.js:149-156 | shown only for products with a stock, and then exactly `max(0, stock - units in the cart)`: never below 0 or below that difference, and equal to one of them |
| Sales.StockRefusalMatchesShownStock | assets/js/sales.js:150-156 | while the cart is within stock, a request is refused for stock iff it exceeds the stock shown |
| Sales.SubtotalConcat | assets/js/sales.js:302 | the subtotal adds up over a split of the cart |
| Sales.SubtotalNonNegative | assets/js/sales.js:302 | a cart of non-negative line subtotals has a non-negative subtotal |
| Sales.Tax | assets/js/sales.js:303 | the 21% tax of a non-negative subtotal lies between zero and the subtotal, strictly for a positive one |
| Sales.Total | assets/js/sales.js:304 | the total is the subtotal plus 21%, never below a non-negative subtotal |
| Sales.GenerateSaleId | assets/js/sales.js:673-675 | above every sale id, and at least 1 |
| Sales.FirstMovementId | assets/js/sales.js:375 | above every stored movement id |
| Sales.ApplyLine | assets/js/sales.js:378-392 | one line keeps the number of products |
| Sales.ApplyLinesStocks | assets/js/sales.js:377-393 | checkout keeps stocks at 0 or above, never raises one, and keeps product ids and names |
| Sales.ApplyLineMovement | assets/js/sales.js:378-392 | one line either changes no movement or prepends one `salida`/`Venta` movement with the next id and the line's quantity |
| Sales.ApplyLinesKeepsMovements | assets/js/sales.js:377-393 | the stored movements stay, behind at most one new movement per line |
| Sales.ApplyLinesMovements | assets/js/sales.js:382-391 | the new movements are `salida`/`Venta`, with consecutive ids, newest first |
| Sales.SingleLineExact | assets/js/sales.js:380-381 | one line with enough stock takes out exactly its quantity |
| Sales.ApplyLines | assets/js/sales.js:377-393 | the inventory update keeps the number of products |
| Sales.ApplyLineExact | assets/js/sales.js:378-381 | one line lowers, clamped at zero, exactly the first product with its id, and no product changes id |
| Sales.InCartNonNegative | assets/js/sales.js:380 | a cart of positive quantities holds a non-negative amount of every product |
| Sales.ApplyLinesExact | assets/js/sales.js:377-393 | for a cart of positive quantities, each product's new stock is its old stock less everything the cart holds of it, clamped at zero, and products sharing an earlier product's id keep their stock |
| Sales.CreatedBy | assets/js/sales.js:362 | a sale names an account iff someone is logged in |
| Sales.CheckoutEffect | assets/js/sales.js:325-424 | a refused checkout changes nothing, with an invalid form or an empty cart exactly as checked; a sale is prepended with a fresh id, the cart's lines, subtotal and total `subtotal * 1.21`; the cart empties and the products are re-read from the inventory |
| Sales.Checkout | assets/js/sales.js:325-424 | a refused checkout changes nothing; a registered sale needs a non-empty cart, holds its lines, comes first among the sales and empties the cart |
| Sales.CheckoutStocks | assets/js/sales.js:370-396 | a registered sale lowers each inventory product's stock by exactly what the cart held of it, clamped at zero |
| Sales.SalesModule.constructor | assets/js/sales.js:26-60 | the stored sales and `LoadSaleProducts`; an empty cart |
| Sales.SalesModule.AddProductToSale | assets/js/sales.js:179-246 | the cart and outcome are `AddToCart`; nothing else changes |
| Sales.SalesModule.RemoveProductFromSale | assets/js/sales.js:248-254 | the cart becomes `RemoveLine` of it |
| Sales.SalesModule.ValidateSaleForm | assets/js/sales.js:426-453 | the verdict is true iff date, customer and payment method are filled and the date is not after today |
| Sales.SalesModule.DecrementInventory | assets/js/sales.js:370-396 | the loop leaves `ApplyLines` of the stored inventory, with movement ids from `max + 1` |
| Sales.SalesModule.HandleSaleSubmit | assets/js/sales.js:325-424 | the page state and outcome are `Checkout` of the old state |
| SalesQuery.SeedSales | assets/js/sales-query.js:54-118 | five sample sales, ids 1-5 |
| SalesQuery.SeedSalesConsistent | assets/js/sales-query.js:54-118 | in every sample the tax and total agree with the subtotal |
| SalesQuery.GetFilters | assets/js/sales-query.js:246-255 | the customer text is lower-cased; a missing minimum is 0; a missing or zero maximum is no bound |
| SalesQuery.MatchesIff | assets/js/sales-query.js:257-275 | a sale matches iff its date is within the set bounds (as strings), its lower-cased customer contains the text, it sold the product when one is set, and its total is between the bounds |
| SalesQuery.EmptyFormMatchesAll | assets/js/sales-query.js:246-275 | an empty form lets every sale with a total of at least 0 through |
| SalesQuery.FilterSales | assets/js/sales-query.js:240 | exactly the matching sales are kept |
| SalesQuery.FilterSalesInOrder | assets/js/sales-query.js:240 | the matching sales keep their stored order: those of `a + b` are those of `a` followed by those of `b`, and one sale is kept iff it matches |
| SalesQuery.ChooseDirection | assets/js/sales-query.js:278-285 | a given direction is used; otherwise the same column flips it and a new column starts ascending |
| SalesQuery.ToggleTwice | assets/js/sales-query.js:280-281 | two clicks on the same column restore the direction |
| SalesQuery.UnknownFieldKeepsOrder | assets/js/sales-query.js:317-318 | sorting on an unknown column leaves the order as it was |
| SalesQuery.KeyOf | assets/js/sales-query.js:292-318 | an unknown column reads 0 for every sale; the customer column is a text as long as the customer's name; the count and amount columns are numbers |
| SalesQuery.SearchResults | assets/js/sales-query.js:238-324 | the results are a permutation of the matching sales, ordered on the column in the direction |
| SalesQuery.SaleNames | assets/js/sales-query.js:127-129 | one name per sold product, in order |
| SalesQuery.AllProductNamesIn | assets/js/sales-query.js:125-130 | a name is collected iff some sale sold it |
| SalesQuery.ProductOptionsSpec | assets/js/sales-query.js:123-147 | the options are exactly the sold names, strictly increasing (so without repeats) |
| SalesQuery.Fixed2Reads | assets/js/sales-query.js:535-537 | `toFixed(2)` of cents: `parseInt` reads back the whole units, and the text ends in a point and the two cent digits |
| SalesQuery.SaleRows | assets/js/sales-query.js:530-538 | one CSV line per result, in order |
| SalesQuery.SalesCsv | assets/js/sales-query.js:521-539 | there is no export iff there are no results |
| SalesQuery.SalesCsvLines | assets/js/sales-query.js:528-539 | sales without line breaks export as the header and exactly one line per sale |
| SalesQuery.SalesCsvHeader | assets/js/sales-query.js:527-529 | the export starts with the seven-column header line |
| SalesQuery.EscapeHtml | assets/js/sales-query.js:574-583 | the escaped text holds none of `< > " '` |
| SalesQuery.EscapePlainText | assets/js/sales-query.js:582 | a text without `& < > " '` is unchanged |
| SalesQuery.EscapeRoundTrip | assets/js/sales-query.js:574-583 | reading the entities back gives the original text |
| SalesQuery.SalesQueryModule.constructor | assets/js/sales-query.js:7-14 | the stored or sample sales; the sort starts on the date, newest first |
| SalesQuery.SalesQueryModule.SortResults | assets/js/sales-query.js:277-328 | the column and `ChooseDirection` are recorded and the results sorted on them |
| SalesQuery.SalesQueryModule.PerformSearch | assets/js/sales-query.js:238-244 | the results become the matching sales, sorted on the current column and direction |
| Sorting.SortBy | assets/js/sales-query.js:289-324 | the sort is a permutation |
| Sorting.SortBySorted | assets/js/sales-query.js:289-324 | the sorted results are ordered on the key in the direction |
| Sorting.SortByEqualKeys | assets/js/sales-query.js:317-318 | when every key is equal the order is kept (the sort is stable) |
| Sorting.InsertStable | assets/js/sales-query.js:289-324 | inserting a record puts it in front of the records with its key and leaves every key's records in their order |
| Sorting.SortByStable | assets/js/sales-query.js:289-324 | for every key, the records with that key come out in the order they went in (the sort is stable) |
| Sorting.SortByKeepsSorted | assets/js/components.js:481-486 | sorting ordered rows again changes nothing |
| Shell.CurrentPageShape | assets/js/main.js:56-60 | the page name is never empty and never holds `/` |
| Shell.RootIsIndex | assets/js/main.js:58-59 | a path ending in `/` is the `index` page |
| Shell.HtmlPage | assets/js/main.js:56-60 | `<dir>/<name>.html` is the page `name` when the name has no `/` or `.` |
| Text.LastSegment | assets/js/main.js:58 | `split('/').pop()`: the longest suffix without `/`, preceded by a `/` unless it is the whole path |
| Text.IndexOf | assets/js/main.js:58 | `replace('.html', '')` acts on the first occurrence, or on none |
| Shell.NavVisibility | assets/js/main.js:529-572 | nothing happens iff nobody is logged in; the visible links are some of the eight, always with the dashboard |
| Shell.NavByRole | assets/js/main.js:544-571 | admins see all eight; area heads see dashboard, sales, sales query and inventory; teachers see dashboard and environments; any other role sees all eight |
| Shell.NavPageRules | assets/js/main.js:544-571 | sales are shown iff the account is not a teacher; environments iff not an area head; users only to admins and unknown roles |
| Shell.ActiveUsers | assets/js/main.js:414 | at most the number of accounts; all iff every account is active; none iff none is |
| Shell.ActiveUsersAppend | assets/js/main.js:414 | the active count adds up over a split of the accounts |
| Shell.UserEnvironments | assets/js/main.js:402 | zero iff no environment names the account as responsible |
| Shell.OwnEnvironmentIds | assets/js/main.js:386-388 | exactly the ids of the teacher's own environments of their kind |
| Shell.UserActivities | assets/js/main.js:381-399 | at most the number of activities |
| Shell.UserActivitiesIff | assets/js/main.js:386-394 | a teacher's count is zero iff no activity is of their kind and either in one of their environments (numeric id) or taught under their normalised name |
| Shell.TitledTeacherCounted | assets/js/main.js:391 | an activity of the teacher's kind whose teacher is `Prof. <their name>` is counted |
| Shell.DashboardStats | assets/js/main.js:364-422 | the counts are bounded by their collections, the environments count is the collection's length, and a non-teacher's activity count is 0 |
| Shell.StoredOr | assets/js/main.js:505-513 | the parsed value when present, the default when absent, empty or unreadable |
| Components.TotalPages | assets/js/components.js:276 | the page count is `ceil(items / perPage)`: enough pages, but no empty last one, and 0 iff no items |
| Components.Range | assets/js/components.js:315 | the consecutive numbers from start to end |
| Components.PagesInRange | assets/js/components.js:305-324 | every page shown is in [1, total], and they are consecutive |
| Components.AtMostFive | assets/js/components.js:307-313 | at most five pages are shown |
| Components.WindowHoldsCurrent | assets/js/components.js:307-321 | for a current page in range, `min(5, total)` pages are shown and the current one is among them |
| Components.GeneratePageNumbers | assets/js/components.js:305-324 | the loop emits the window's pages in order, marking exactly the current one active |
| Components.WindowStart | assets/js/components.js:308-312 | the window starts at page 1 or later, and not after the current page |
| Components.WindowEnd | assets/js/components.js:309 | the window ends at the last page or before, spans at most five pages and reaches the current page when it exists |
| Components.Click | assets/js/components.js:280-298 | a click fires iff the link is not disabled and its page is not 0 and not the current one, and then goes to that page |
| Components.ClickStaysInRange | assets/js/components.js:276-298 | from a page in range, a click goes to another page in range; the current page's own link does nothing |
| Components.CellText | assets/js/components.js:461 | a missing cell reads as `undefined` |
| Components.SearchRows | assets/js/components.js:459-463 | exactly the rows where some column's text contains the query, ignoring case |
| Components.EmptySearchKeepsAll | assets/js/components.js:458-463 | an empty query keeps every row when there is a column |
| Components.PageOf | assets/js/components.js:416-418 | with pagination at most `n` rows, the rows from `(page-1)*n` on; without it all rows |
| Components.RowOnItsPage | assets/js/components.js:416-418 | row k is on page `k / n + 1`, at position `k % n`, and that page exists |
| Components.PageLength | assets/js/components.js:416-418 | a page holds the rows from `(page - 1) * n` to `page * n`, cut at the end of the data |
| Components.DirectionToggles | assets/js/components.js:474-480 | a click on the sorted column flips the direction (twice restores it); another column starts ascending |
| Components.DataTable.constructor | assets/js/components.js:402-413 | page 1, all rows, no sort column, ascending |
| Components.DataTable.PageData | assets/js/components.js:415-418 | the rows shown are `PageOf` the current rows and page |
| Components.DataTable.Search | assets/js/components.js:457-466 | the rows become the search of the original data, and the page 1 |
| Components.DataTable.SortClick | assets/js/components.js:472-489 | the column is recorded, the direction is `NextDirection`, and the rows are a permutation of the old ones ordered on the column |
| Components.DataTable.PageClick | assets/js/components.js:494-506 | the page changes only to a fired click's page, and only while pagination shows (more rows than fit a page) |
| Components.ValidateField | assets/js/components.js:162-211 | the field is valid iff no message is set |
| Components.ValidateFieldIff | assets/js/components.js:169-199 | a field is invalid iff it is required and blank, or a non-empty e-mail has the wrong shape, or a non-empty password is shorter than 6, or a confirmation differs from its original |
| Components.ConfirmMessageWins | assets/js/components.js:193-198 | a mismatched confirmation shows the mismatch message, whatever failed before |
| Components.TwoDigits | assets/js/components.js:378-379 | `padStart(2, '0')` of a day or month: two digits reading back the number |
| Components.FormatDate | assets/js/components.js:376-392 | a fixed text exactly for the three known formats; any other is the locale's (not modelled) |
| Components.DayFirstReadsBack | assets/js/components.js:383-384 | `dd/mm/yyyy` holds the day, the month and the year at their places |
| Components.YearFirstReadsBack | assets/js/components.js:385-386 | `yyyy-mm-dd` holds the year, the month and the day at their places |
| Components.MonthFirstReadsBack | assets/js/components.js:387-388 | `mm/dd/yyyy` holds the month, the day and the year at their places |
| Common.NextId | assets/js/users.js:503-505 | `max(ids, 0) + 1`: at least 1, above every id, and one more than an existing id unless 1 |
| Common.FilterMultiset | assets/js/users.js:528 | a filter keeps each wanted record as often as it is stored and adds nothing |
| Common.Filter | assets/js/users.js:528 | the kept records are records of the input that satisfy the condition, every satisfying one is kept, and they are as many as the satisfying records |
| Common.FilterConcat | assets/js/activities.js:559 | filtering a joined list is filtering each part and joining the results |
| Common.FilterOne | assets/js/activities.js:559 | one record is kept exactly when it satisfies the condition |
| Common.FindIndex | assets/js/activities.js:428 | the index found is that of the first item satisfying the condition, and none is found only when no item does |
| Common.Distinct | assets/js/activity-query.js:120 | the distinct values are the values of the input, each exactly once |
| Common.DistinctFirstOccurrenceOrder | assets/js/activity-query.js:120 | distinct values keep the order of their first occurrence |
| Common.SeqMax | assets/js/sales.js:375 | the maximum is an element of the list and no element exceeds it |
| Text.ParseIntOfIntToString | assets/js/activities.js:238 | `parseInt` reads back the text of any integer |
| Text.ToLowerIdempotent | assets/js/auth.js:182 | lower-casing twice is lower-casing once |
| Text.TrimIdempotent | assets/js/activity-query.js:142-143 | trimming twice is trimming once |
| Text.TrimShape | assets/js/activity-query.js:142-143 | the trimmed text is the part of the input after its leading white space, with no white space at either end |
| Text.TrimKeepsTrimmed | assets/js/activity-query.js:142-143 | a text with no white space at its ends is left as it is |
| Text.BlankIffTrimEmpty | assets/js/activities.js:274 | a text is blank exactly when trimming leaves nothing |
| Text.ToLower | assets/js/auth.js:182 | lower-casing keeps the length and maps each character on its own |
| Text.ContainsEmpty | assets/js/activity-query.js:186 | every text contains the empty text |
| Text.ParseIntIsNumber | assets/js/activities.js:294 | `parseInt` gives a number exactly when, after leading white space, a digit comes first or right after a sign |
| Text.ParseIntOfNat | assets/js/activities.js:238 | the decimal text of a natural number parses back to it |
| Text.ParseIntOfNegative | assets/js/activities.js:238 | the decimal text of a negative number parses back to it |
| Text.LexLessIrreflexive | assets/js/sales-query.js:321 | no text is below itself in `<` |
| Text.LexLessTransitive | assets/js/sales-query.js:321 | `<` on texts is transitive |
| Text.LexLessTotal | assets/js/sales-query.js:321 | of two different texts one is below the other |
| Text.NotLexLessIff | assets/js/sales-query.js:321-322 | a text not below another is at or above it |

## Left out

- Rendering is not modelled: HTML templates, `innerHTML`, class toggles, modals, focus, scrolling, event binding and the header user info. They hold no logic.
- Storage is not modelled: `localStorage` and JSON parse/stringify. Stored collections are constructor parameters and class fields. A parse failure appears only where the code branches on it: the session, the user list in the migration, sales from the inventory, and `getStoredData`.
- Clocks are not modelled: `new Date()`, `toISOString` and `toDateString`. "Now", "today" and the session clock are parameters.
- Date values are ISO texts compared as strings. The activity and sale date checks compare against the end of today, and the activity query compares `new Date(...)` values. For well-formed `yyyy-mm-dd` texts both reduce to the string order. Malformed dates (`NaN` comparisons) and time zones are not modelled.
- Timing is not modelled: `setTimeout`, the simulated one-second login delay and `debounce`. None of them affects the outcome.
- Floating point is not modelled:
  - sales amounts are `real`, so rounding of `0.21 * subtotal` is not modelled;
  - sales-query amounts are integer cents, so `toFixed(2)` is exact;
  - quantities are integers where the page reads `parseFloat`;
  - `Intl` currency formatting is left out.
- Dialogs are inputs: `alert`, `confirm` and `prompt` results are boolean or optional inputs, and the printed receipts are left out. The exports are the returned CSV text, not a Blob download.
- `todayActivities`, `monthSales` and `userSales` of the dashboard are left out. They depend on the clock and on `Date` parsing, and sales and activities carry no `userId`. The non-teacher activity count is modelled as 0 for the same reason.
- Shell.DashboardStats: requires a logged-in account. The source's `currentUser?.id` with nobody logged in is not modelled.
- `sortTable`'s `localeCompare`/`parseFloat` sort of table rows in the DOM is left out. It depends on the locale and the DOM.
- Regular expressions are not executed. The e-mail pattern and the `prof.` title pattern are predicates stating the same shape.
- `toLowerCase` is modelled on ASCII and Latin-1 letters only. Other Unicode case mappings are left out.
- Users.UsersModule: the contact fields (address, locality, party, postal code, phones) are carried by no rule, so `User` leaves them out. `isEditing` always equals "an account is under edit", so only the latter is kept.
- The `user.rol`/`user.nombre` checks in inventory.js:31-42 and sales-query.js:31-42 read fields no stored account has. These dead branches are not modelled. `Inventory.CurrentUserName` uses the user name.
- Components.DataTable.SortClick: a missing cell sorts as the empty text, and number cells are integers. In the source `undefined` compares false both ways, which is no order at all.
- Components.TotalPages: requires at least one item per page. The page components are only built with a positive page size, and a zero size would mean dividing by zero.
- Components.FormatDate: takes the day, month and year of a valid date instead of parsing a date text. The locale format of the default case is `None`.
- Sales.CheckoutEffect: a form field named `id` overriding the sale id through `...saleData` is not modelled; the sale keeps its generated id.
- A stored text that parses to something other than the expected shape is not modelled. `Absent` stands for both falsy results of `getItem`: a missing key and an empty text.
- Aliasing is not modelled. An activity or environment under edit is a copy of the record, so edits through a shared object reference are not modelled.
- Sales.Checkout: the `try`/`catch` around the inventory update (sales.js:370-407) is not modelled. A stored inventory that fails to parse would leave the inventory unchanged and still register the sale. The model always applies the update.
- Sales.ApplyLinesExact, Sales.CheckoutStocks: require every cart quantity to be positive. `Sales.AddToCartKeepsQuantitiesPositive` and `Sales.RemoveLineKeepsQuantitiesPositive` show the cart keeps that.
- Activities.ActivitiesModule.constructor: the fallback to `environmentsModule.getEnvironments()` when no environments are stored (activities.js:94-96) is not modelled. The environment list is a constructor parameter either way.
- Activities.ActivitiesModule.CloseEditModal: the early return when the modal element is absent (activities.js:461) is not modelled. The page always has the modal, so the edit state is always cleared.
- Text.ParseInt: the `0x`/`0X` prefix that `parseInt` without a radix reads as hexadecimal is not modelled. Such a text parses as `0`, as if the radix were 10.
- The `prof` title is also stripped from longer words (`Environments.LongerWordStripped`). A search in the data table re-filters the original data, so it undoes an earlier sort (`Components.DataTable.Search`). The dashboard counts an activity by environment only when its environment id is a number (`Shell.CountsForProfessor`). These are behaviours of the source, modelled as written.

## Findings

| source | as written | input that shows it | evidently intended | confidence | as-written member | corrected member |
|---|---|---|---|---|---|---|
| assets/js/activity-query.js:155-158 | the environment criterion keeps an activity only when `activity.environmentId === parseInt(criterion)`, a strict comparison with a number | an activity registered through the activity form, whose `environmentId` is the form's text `"1"`, with the criterion `"1"` | the activity of the chosen environment is kept whether its id was stored as a number or as text | medium, not executed | ActivityQuery.FormActivityFailsEnvironmentFilter | ActivityQuery.EnvironmentMatchesExtends |
