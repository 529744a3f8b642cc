# Crime reporting registry — a Dafny model

The system is a terminal application for reporting and tracking crimes. It
keeps four tables in a relational store: `citizens`, `officers`, `cases` and
`case_updates`. Citizens register and report crimes. Officers register, are
assigned to cases, change a case's status and add progress notes. A shell of
nested menus reads the user's input and calls one registry operation per
action.

This project models the registry and the decisions of the shell:

- **Tables.** Each table is a class: `CitizenTable`, `OfficerTable`,
  `CaseTable` and `CaseUpdateTable`. Each holds its rows as a map from the
  integer key to a record, plus `nextId`, the next value of the key
  sequence. An insert returns `nextId` as the fresh key and stores exactly
  the given columns under it. Updates and deletes change at most the row
  whose key matches. On success they report `true` whether or not a row
  matched.
- **Failures.** `fault` says whether the connection was missing or the
  statement raised. A foreign-key violation is one such case. On a fault a
  write reports failure and the table is unchanged: that is the rollback.
- **Partial updates.** `update_citizen` and `update_officer` build a `SET`
  list and a parameter list by appending, one truthy argument at a time
  (`BuildUpdate`). The model runs the finished statement on the map
  (`ExecuteUpdate`). It proves that the result is the reference patch
  `Patched`: every truthy argument replaces its column and every other
  column keeps its value. With nothing truthy, the operation reports `false`
  and writes nothing. No update the officer builder can produce touches the
  badge number.
- **Selects.** The selects are pure functions over the maps:
  - the inner join with `citizens` (a case whose citizen is gone is not
    listed);
  - the left join with `officers` (the officer's name is absent when there
    is no such officer);
  - `ORDER BY <key>` ascending, `ORDER BY <key> DESC`, and
    `ORDER BY <timestamp> DESC`;
  - the case-insensitive containment filters.

  Each comes with a completeness lemma: every row that qualifies is listed.
- **Display rules.** Three rules from the listings are modelled:
  - the case listing's choice of columns for its two row shapes;
  - the "N/A" station cell;
  - the 40-character note preview.
- **Shell.** The shell actions receive the texts the user typed, already
  stripped, and decide which operation runs:
  - the fields required by each form;
  - the menu choice that maps to a status;
  - the exact `"DELETE"` confirmation;
  - the filter of `view_citizen_cases`.

  Ids typed in the shell are handed to the store as text. The store reads
  them as integer keys (`Sql.ParseKey`). A text it cannot read makes the
  statement raise.

Module layout:

- `text.dfy` (`Text`): lower-casing, substring search, and decimal
  rendering.
- `sql.dfy` (`Sql`): nullable values, Python truthiness, statement
  parameters, and the store's text-to-key cast.
- `ordering.dfy` (`Ordering`): the keys of a table in order, filters that
  keep order, and a stable newest-first sort.
- `citizen_ops.dfy`, `officer_ops.dfy`, `case_ops.dfy` and
  `case_update_ops.dfy`: one module per operations file.
- `menu.dfy` (`Menu`): the shell.

Three points where the model states only what the code does:

- `add_case` names no status column, so the column default decides a new
  case's status. The schema is not modelled, so `CaseTable` takes that
  default as a constructor parameter (`defaultStatus`).
- The shell warns that deleting a citizen also deletes that citizen's cases
  (`ui/menu.py:278`). The code issues only `DELETE FROM citizens`, so the
  model removes only the citizen. `CaseOps.DeletedCitizenCasesHidden` shows
  that the inner join then hides the citizen's cases.
- The shell warns that deleting a case also deletes its updates
  (`ui/menu.py:628`). The code issues only `DELETE FROM cases`, so the model
  removes only the case. Its notes stay in `case_updates`, and
  `get_updates_by_case` for that case id still lists them.

## Model

| member | source | states |
|---|---|---|
| Text.SubstringAt | operations/case_ops.py:245-249 | The containment search used for `ILIKE '%x%'` holds exactly when the pattern occurs at some position of the text. |
| Text.ContainsIgnoringCase | operations/case_ops.py:245-249 | Definition of `text ILIKE '%pattern%'`: the lower-cased pattern occurs in the lower-cased text. |
| Text.ContainsIgnoringCaseFacts | operations/case_ops.py:294-298 | The match does not depend on the case of either side, an empty pattern matches every text, and every text matches itself. |
| Text.DigitsRoundTrip | ui/menu.py:203 | Reading back the decimal digits of `str(n)` gives `n`. |
| Text.NoLeadingZero | ui/menu.py:203 | `str(n)` of a natural number starts with `0` only for `n == 0`. |
| Text.DecimalString | ui/menu.py:203 | Definition of Python's `str()` of an integer: a minus sign for a negative value, then the decimal digits without a leading zero. |
| Sql.Truthy | operations/citizen_ops.py:162-173 | Definition of the `if full_name:` tests: an optional text is truthy when it is neither `None` nor empty. |
| Sql.BlankToNone | ui/menu.py:126-127 | `s or None`: the result is `None` exactly when the input is empty, and otherwise it is the same, truthy, text. |
| Sql.ParseKey | operations/citizen_ops.py:115-116 | Definition of the store's cast of a typed id to an integer key; a text the cast accepts is never empty. |
| Sql.ParseKeyAccepted | operations/citizen_ops.py:115-116 | Accepted texts are an optional sign followed by decimal digits only, and a text of digits denotes its decimal value. |
| Sql.ParseKeyOfDecimal | ui/menu.py:203 | The store reads the text `str(n)` back as the key `n`. |
| Sql.DecimalStringInjective | ui/menu.py:203 | Two keys with the same `str()` are equal. |
| Ordering.KeysAscending | operations/citizen_ops.py:76 | `ORDER BY id`: every key exactly once, in strictly increasing order. |
| Ordering.KeysDescending | operations/case_ops.py:94 | `ORDER BY id DESC`: every key exactly once, in strictly decreasing order. |
| Ordering.Where | operations/case_ops.py:195 | A `WHERE` filter keeps exactly the elements that satisfy it, and a decreasing input stays decreasing. |
| Ordering.SortNewestFirst | operations/case_ops.py:196 | The sort is a rearrangement: the result has the same multiset of elements as the input, and every element is still timed. |
| Ordering.SortNewestFirstCorrect | operations/case_ops.py:196 | `ORDER BY time DESC`: timestamps do not increase along the result, and distinct input gives distinct output. |
| CitizenOps.HasChange | operations/citizen_ops.py:176-179 | Definition of the `if not updates` test, negated: some argument is truthy. |
| CitizenOps.Patched | operations/citizen_ops.py:158-186 | Reference definition of the updated row: each truthy argument replaces its column, every other column keeps the stored value. |
| CitizenOps.Chosen | operations/citizen_ops.py:162-173 | Definition of the `if` chain: the columns, in order, whose argument is truthy. |
| CitizenOps.ChosenMembers | operations/citizen_ops.py:162-173 | A column is in the `SET` list exactly when its argument is truthy (both directions). |
| CitizenOps.BindsAppend | operations/citizen_ops.py:163-164 | Appending a column and its argument together keeps the two lists aligned. |
| CitizenOps.BuildUpdate | operations/citizen_ops.py:158-182 | The appends build the chosen columns in the order full name, phone, email, address, with aligned values, and the list is empty exactly when no argument is truthy. |
| CitizenOps.SetColumn | operations/citizen_ops.py:185 | Definition of one `column = %s` assignment: that column of the row takes the bound text. |
| CitizenOps.Assign | operations/citizen_ops.py:185-186 | Definition of the `SET` list's effect on the keyed row: its assignments applied left to right with their bound values. |
| CitizenOps.ExecuteUpdate | operations/citizen_ops.py:185-186 | The statement keeps the table's keys and changes no row other than the one whose key is the last parameter. |
| CitizenOps.UpdateStatementEffect | operations/citizen_ops.py:182-186 | The finished parameter list is the chosen values followed by the key, and running it gives the table with only that row patched (unchanged if the key is absent). |
| CitizenOps.AssignIsSteps | operations/citizen_ops.py:162-173 | Assigning the chosen columns left to right equals considering every column in turn and writing it when truthy. |
| CitizenOps.AssignChosen | operations/citizen_ops.py:162-173 | Over the four columns, the assignment gives exactly `Patched`: truthy arguments overwrite and the rest keep the stored value. |
| CitizenOps.ChosenAllColumns | operations/citizen_ops.py:162-173 | The `SET` list is the truthy columns in source order. |
| CitizenOps.GetAllCitizens | operations/citizen_ops.py:76 | One row per citizen with its stored columns, in strictly increasing key order. |
| CitizenOps.GetAllCitizensComplete | operations/citizen_ops.py:62-94 | Every stored citizen appears in the listing. |
| CitizenOps.GetCitizenById | operations/citizen_ops.py:115-124 | The stored row when the key exists, `None` exactly when it does not. |
| CitizenOps.CitizenTable.AddCitizen | operations/citizen_ops.py:6-58 | Success exactly without a fault: stores the four given columns under the fresh key `nextId` and returns it; on a fault, returns `None` and leaves the table unchanged. |
| CitizenOps.CitizenTable.UpdateCitizen | operations/citizen_ops.py:136-204 | `true` exactly when there is a truthy argument and no fault; then only the matching row is patched, otherwise nothing changes. |
| CitizenOps.CitizenTable.DeleteCitizen | operations/citizen_ops.py:208-244 | `true` exactly without a fault, whether or not the key existed; only that key is removed. |
| OfficerOps.HasChange | operations/officer_ops.py:177-180 | Definition of the `if not updates` test, negated: some argument is truthy. |
| OfficerOps.Patched | operations/officer_ops.py:159-187 | Reference definition of the updated row: each truthy argument replaces its column, every other column keeps the stored value. |
| OfficerOps.Chosen | operations/officer_ops.py:163-174 | Definition of the `if` chain: the columns, in order, whose argument is truthy. |
| OfficerOps.ChosenMembers | operations/officer_ops.py:163-174 | A column is in the `SET` list exactly when its argument is truthy. |
| OfficerOps.BindsAppend | operations/officer_ops.py:164-165 | Appending a column and its argument together keeps the two lists aligned. |
| OfficerOps.BuildUpdate | operations/officer_ops.py:159-183 | The appends build the chosen columns in the order name, rank, phone, station, with aligned values, and the list is empty exactly when no argument is truthy. |
| OfficerOps.SetColumn | operations/officer_ops.py:186 | Definition of one `column = %s` assignment: that column of the row takes the bound text. |
| OfficerOps.Assign | operations/officer_ops.py:186-187 | Definition of the `SET` list's effect on the keyed row: its assignments applied left to right with their bound values. |
| OfficerOps.ExecuteUpdate | operations/officer_ops.py:186-187 | The statement keeps the keys and changes no row other than the keyed one. |
| OfficerOps.AssignKeepsBadge | operations/officer_ops.py:163-174 | No `SET` list over the updatable columns changes a badge number. |
| OfficerOps.ExecuteKeepsBadges | operations/officer_ops.py:183-187 | Whatever update statement runs, every officer keeps their badge number. |
| OfficerOps.UpdateStatementEffect | operations/officer_ops.py:183-187 | Running the built statement gives the table with only the keyed row patched. |
| OfficerOps.AssignIsSteps | operations/officer_ops.py:163-174 | Assigning the chosen columns left to right equals considering every column in turn. |
| OfficerOps.AssignChosen | operations/officer_ops.py:163-174 | Over the four columns, the assignment gives exactly `Patched`, which keeps the badge number. |
| OfficerOps.ChosenAllColumns | operations/officer_ops.py:163-174 | The `SET` list is the truthy columns in source order. |
| OfficerOps.GetAllOfficers | operations/officer_ops.py:77 | One row per officer with its stored columns, in strictly increasing key order. |
| OfficerOps.GetAllOfficersComplete | operations/officer_ops.py:63-95 | Every stored officer appears in the listing. |
| OfficerOps.GetOfficerById | operations/officer_ops.py:116-125 | The stored row when the key exists, `None` exactly when it does not. |
| OfficerOps.StationCell | operations/officer_ops.py:269 | The station when it is truthy, otherwise "N/A"; the cell is never blank. |
| OfficerOps.OfficerTable.AddOfficer | operations/officer_ops.py:6-59 | Stores the five given columns under the fresh key and returns it; on a fault, `None` and no change. |
| OfficerOps.OfficerTable.UpdateOfficer | operations/officer_ops.py:137-205 | `true` exactly when something is truthy and there is no fault; then only the keyed row is patched; keys and every badge number are kept. |
| OfficerOps.OfficerTable.DeleteOfficer | operations/officer_ops.py:209-245 | `true` exactly without a fault, even when no officer matched; only that key is removed. |
| CaseOps.AssignedOfficer | operations/case_ops.py:93 | The left join: the officer's row exactly when the case names an officer that exists. |
| CaseOps.Joined | operations/case_ops.py:92 | Definition of the inner join: a case takes part while its citizen exists. |
| CaseOps.OfficerName | operations/case_ops.py:90-93 | Definition of the `o.full_name` column of the left join: the assigned officer's name, or `NULL`. |
| CaseOps.OfficerBadge | operations/case_ops.py:141-144 | Definition of the `o.badge_number` column of the left join: the assigned officer's badge, or `NULL`. |
| CaseOps.SummaryOf | operations/case_ops.py:82-93 | Definition of the `get_all_cases` select list: the case's columns, the citizen's name and the left-joined officer's name. |
| CaseOps.BriefOf | operations/case_ops.py:186-194 | Definition of a filter's select list: case id, crime type, location, status, report time and the citizen's name. |
| CaseOps.JoinedIds | operations/case_ops.py:91-94 | Exactly the cases whose citizen exists, in strictly decreasing key order. |
| CaseOps.GetAllCases | operations/case_ops.py:81-95 | Every row is a case whose citizen exists, carrying its columns, the citizen's name and the left-joined officer's name; the rows are in strictly decreasing `case_id` order. |
| CaseOps.GetAllCasesComplete | operations/case_ops.py:91-94 | Every case whose citizen exists is listed. |
| CaseOps.SummaryOfficerName | operations/case_ops.py:90-93 | The officer name is present exactly when the assigned officer exists, and is then that officer's name. |
| CaseOps.DeletedCitizenCasesHidden | operations/case_ops.py:92 | Once a citizen is deleted, none of their cases is listed. |
| CaseOps.DeletedOfficerNotShown | operations/case_ops.py:93 | Once an officer is deleted, every case assigned to them that joins a citizen is still listed, and each such row has no officer name. |
| CaseOps.MissingOfficerNotShown | operations/case_ops.py:90-93 | For any officer table that lacks the officer, every case assigned to them that joins a citizen is listed, and each such row has no officer name (the `LEFT JOIN officers` gives NULL). |
| CaseOps.GetCaseById | operations/case_ops.py:135-156 | Some exactly when the case exists and its citizen exists; then it holds the case's columns, the citizen's name and phone, and the assigned officer's name and badge, which are present exactly when that officer exists. |
| CaseOps.FilteredIds | operations/case_ops.py:193-196 | Exactly the joined cases that pass the filter, each once, with `reported_at` not increasing. |
| CaseOps.Filter | operations/case_ops.py:185-199 | Every row passes the filter and the join, and rows are distinct and newest first. |
| CaseOps.FilterComplete | operations/case_ops.py:193-196 | Every joined case that passes the filter is listed. |
| CaseOps.HasStatus | operations/case_ops.py:195 | Definition of `WHERE c.status = %s`: exact equality with the given status. |
| CaseOps.LocationMatches | operations/case_ops.py:245-249 | Definition of `WHERE c.location ILIKE %s` with `%location%`. |
| CaseOps.CrimeTypeMatches | operations/case_ops.py:294-298 | Definition of `WHERE c.crime_type ILIKE %s` with `%crime_type%`. |
| CaseOps.GetCasesByStatus | operations/case_ops.py:185-199 | Every row is the six-column brief of a joined case whose status equals the argument; every such case is listed; rows are distinct and newest first. |
| CaseOps.GetCasesByLocation | operations/case_ops.py:235-249 | Every row is the brief of a joined case whose location contains the argument, ignoring case; every such case is listed; rows are distinct and newest first. |
| CaseOps.GetCasesByCrimeType | operations/case_ops.py:284-298 | Every row is the brief of a joined case whose crime type contains the argument, ignoring case; every such case is listed; rows are distinct and newest first. |
| CaseOps.SummaryCells | operations/case_ops.py:82-90 | A row of the full listing has eight columns. |
| CaseOps.BriefCells | operations/case_ops.py:186-192 | A row of a filter has six columns. |
| CaseOps.DisplayColumns | operations/case_ops.py:461-470 | Definition of the column choice: columns 3 to 6 of a row of eight or more columns, columns 2 to 5 of a shorter one. |
| CaseOps.DisplayShowsFields | operations/case_ops.py:455-470 | Picking columns 3-6 of an eight-column row and columns 2-5 of a six-column row shows the same fields (location, status, time, citizen) for both row shapes. |
| CaseOps.DisplayCases | operations/case_ops.py:454-470 | One line per row, in order, each the column selection of its row. |
| CaseOps.WithOfficer | operations/case_ops.py:334-335 | Only the keyed case changes, and only its officer; other rows and fields are untouched, and an absent key changes nothing. |
| CaseOps.WithStatus | operations/case_ops.py:375-376 | Only the keyed case changes, and only its status, to any text given. |
| CaseOps.AssignedOfficerShows | operations/case_ops.py:334-335 | After an assignment, `get_case_by_id` names the assigned officer. |
| CaseOps.UpdatedStatusFound | operations/case_ops.py:375-376 | After a status change, the status filter finds the case. |
| CaseOps.CaseTable.AddCase | operations/case_ops.py:6-61 | Stores the given citizen, officer (possibly none), crime type, description and location, with the default status and the report time, under the fresh key; on a fault, `None` and the table unchanged. |
| CaseOps.CaseTable.AssignOfficer | operations/case_ops.py:316-353 | `true` exactly without a fault, even when no case matched; the table becomes `WithOfficer`. |
| CaseOps.CaseTable.UpdateCaseStatus | operations/case_ops.py:357-393 | `true` exactly without a fault; any status is accepted; the table becomes `WithStatus`. |
| CaseOps.CaseTable.DeleteCase | operations/case_ops.py:397-432 | `true` exactly without a fault; only that key is removed. |
| CaseUpdateOps.Listed | operations/case_update_ops.py:89-91 | Definition of the join and filter: a note of the case whose officer exists. |
| CaseUpdateOps.RowOf | operations/case_update_ops.py:83-90 | Definition of the select list: note id, note, time, and the officer's name and badge. |
| CaseUpdateOps.ListedIds | operations/case_update_ops.py:89-92 | Exactly the notes of the case whose officer exists, each once, with `updated_at` not increasing. |
| CaseUpdateOps.GetUpdatesByCase | operations/case_update_ops.py:82-95 | Every row is a note of that case whose officer exists; rows are distinct and newest first. |
| CaseUpdateOps.GetUpdatesByCaseComplete | operations/case_update_ops.py:89-91 | Every note of the case whose officer exists is listed. |
| CaseUpdateOps.NotePreview | operations/case_update_ops.py:181 | Never longer than 40; a note of at most 40 is shown whole; a longer one as its first 37 characters and "...". |
| CaseUpdateOps.CaseUpdateTable.AddCaseUpdate | operations/case_update_ops.py:6-58 | Stores (case, officer, note, time) under the fresh key and returns it; on a fault, `None` and nothing added. |
| CaseUpdateOps.CaseUpdateTable.DeleteCaseUpdate | operations/case_update_ops.py:116-152 | `true` exactly without a fault, regardless of a match; only that key is removed. |
| Menu.StatusFromChoice | ui/menu.py:434-447 | Choices "1" to "4" give Pending, Under Investigation, Resolved and Closed; any other choice gives nothing. |
| Menu.StatusChoiceBijective | ui/menu.py:434-439 | Distinct valid choices give distinct statuses, and every status has a choice. |
| Menu.RegisterCitizen | ui/menu.py:124-136 | Registers exactly when name and phone are non-empty and there is no fault; a blank email or address is stored as missing. |
| Menu.Lookup | ui/menu.py:157-158 | A typed id finds a row exactly when the store reads it as a key present in the table. |
| Menu.ReportCrime | ui/menu.py:154-174 | A case is added exactly when the citizen exists, crime type, description and location are non-empty, and there is no fault; it names that citizen and no officer. |
| Menu.ReportedBy | ui/menu.py:202-203 | Definition of the test `case_detail and str(case_detail[1]) == citizen_id`: the case's detail is found and its citizen id, as text, equals the typed text. |
| Menu.ReportedByMatches | ui/menu.py:202-203 | For a listed case, the detail's citizen column is the case's citizen. |
| Menu.ViewCitizenCases | ui/menu.py:194-204 | Exactly the `get_all_cases` rows whose case's citizen id, as text, equals the typed id (both directions), in the listing's order. |
| Menu.KeepReportedBy | ui/menu.py:200-204 | The loop keeps exactly the matching rows and preserves their decreasing order. |
| Menu.LeadingZeroMatchesNoCitizen | ui/menu.py:203 | A typed id with a leading zero, such as "07", equals no key's text, so no case is shown for it. |
| Menu.CanonicalIdMatchesItsCitizen | ui/menu.py:203 | For the text of a key, the comparison matches exactly that citizen's cases. |
| Menu.UpdateCitizenInfo | ui/menu.py:225-248 | Refused for an unknown citizen; blank answers become `None` and keep their columns; succeeds exactly when something is given and there is no fault. |
| Menu.DeleteCitizenAccount | ui/menu.py:266-286 | Deletes exactly when the citizen exists, the confirmation is exactly "DELETE", and there is no fault; otherwise nothing changes. |
| Menu.RegisterOfficer | ui/menu.py:382-391 | Registers exactly when name, badge, rank and phone are non-empty and there is no fault; a blank station is stored as missing. |
| Menu.FilterCasesByStatus | ui/menu.py:431-451 | An invalid choice runs no query; a valid one gives exactly `get_cases_by_status` of the chosen status, so every row has that status. |
| Menu.AssignOfficer | ui/menu.py:501-505 | Assigns exactly when both typed ids parse as keys and there is no fault. |
| Menu.UpdateStatus | ui/menu.py:523-551 | An invalid choice or an unreadable id changes nothing; otherwise the case gets the chosen status. |
| Menu.AddUpdate | ui/menu.py:570-577 | Adds a note exactly when case id, officer id and note are non-empty, the ids parse, and there is no fault. |
| Menu.DeleteCaseMenu | ui/menu.py:614-636 | Deletes exactly when `get_case_by_id` finds the case, the confirmation is exactly "DELETE", and there is no fault. |
| Menu.DeleteUpdateMenu | ui/menu.py:654-678 | Deletes exactly when the case has listed notes, the confirmation is exactly "DELETE", the update id parses, and there is no fault; the update need not belong to that case. |
| Menu.DeleteOfficerAccount | ui/menu.py:695-717 | Deletes exactly when the officer exists, the confirmation is exactly "DELETE", and there is no fault. |

## Left out

- The select functions do not model read-side failures. A missing
  connection or a raising select returns `[]` or `None` and never raises,
  as `operations/case_update_ops.py:106-112` shows. The model's selects
  assume the read succeeds. The shell does model one read failure: a typed
  id the store cannot read as a key finds nothing, via `ParseKey` and
  `Lookup`.
- The connection pool, environment configuration and schema creation are
  I/O and foreign library calls. They appear only as the `fault` parameter.
  `database/connection.py` is not part of this model.
- The schema is not part of this model, so it decides several things the
  model leaves open:
  - foreign-key enforcement. A rejected key is one of the `fault` outcomes;
    the model does not check references itself.
  - cascades. Deletes remove only the named row.
  - the default status of a new case, which is a `CaseTable` parameter.
  - the column order behind `c.*` in `get_case_by_id`. The model returns a
    named record, and `view_citizen_cases` reads its citizen column.
- A failed insert leaves `nextId` unchanged. The store's sequence may skip
  a value after a failed insert; that gap is not modelled.
- Timestamps are opaque integers supplied by the caller (`now`).
  - `reported_at` and `updated_at` order values with ties. The model breaks
    ties by descending key, which the store does not promise; contracts
    state only the promised order.
  - Date formatting with `strftime` and the "N/A" of a missing date are
    not modelled.
- `ILIKE` is modelled as containment after ASCII lower-casing. A `%` or `_`
  typed by the user is not treated as a wildcard, nor a `\` as the escape
  character, and non-ASCII case folding is not modelled.
- Integer columns are unbounded. The store's 32-bit key range is not
  modelled.
- `ParseKey` follows the integer input syntax of PostgreSQL before
  version 16: an optional sign and decimal digits. PostgreSQL 16 and later
  also accept `0x`, `0o` and `0b` prefixes and `_` digit separators; those
  texts make the model's statement fail where such a store would read a
  key. Surrounding blanks, which the store also accepts, never reach it,
  because the shell strips every input.
- Printing and table widths are not modelled. Neither are `clear_screen`,
  `pause`, the portal `while True` loops, `main.py` and `test_setup.py`.
  The view-only actions (`view_all_*`) pass a select's result straight to
  a printer, so they have no decision logic to model.
- The test scripts under `tests/` are print-only. They also call
  `add_citizen` with a different number of arguments than it declares, so
  no property is drawn from them.
- The shell actions take their inputs after `strip()`. Whitespace stripping
  itself is not modelled.
