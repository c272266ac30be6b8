# Phishing campaign store, modelled in Dafny

`PhishingSimulator` in `Project/phishing_tester.py` runs phishing-awareness
tests. It keeps campaigns, employees and tracking results in three SQLite
tables. The model covers every operation of that core:

- the fixed template catalog;
- creating a campaign;
- enrolling employees from parsed CSV records;
- generating the e-mails of a campaign and marking them as sent;
- recording a click and a report;
- computing the statistics;
- exporting a report.

## Modelling choices

- **State.** A `Store` is three sequences of rows in insertion order.
- **Operations are pure functions.** Each returns `Ok(new store)` when the SQLite
  transaction commits. It returns `Err(error)` when the transaction raises and
  rolls back; the caller then keeps the old store.
- **Constraints.** The model enforces the declared keys itself: a clash on a
  PRIMARY KEY or UNIQUE column fails, and `INSERT OR IGNORE` skips the employee
  row. The foreign keys are never enforced, because SQLite leaves them off by
  default, so the model does not enforce them either.
- **Parameters.** uuid4 values and clock readings are passed in. The lemmas
  that need fresh ids assume them (`FreshDraws`); the operations do not.

### Orphan results

`add_employees` draws a fresh employee id for every record. It always inserts a
result row pointing at that id. When the e-mail already belongs to an employee,
`INSERT OR IGNORE` skips the employee row. The new result then points at an id
that no employee carries; the model calls this an *orphan*. The model proves
what follows from this:

- an orphan joins nothing, so it gets no e-mail and can never be reported;
- it is still counted in the campaign's overall total;
- it is left out of the per-department breakdown.

### Other choices

- **Rates** are exact ratios (`real`).
- **The join** visits results in table order.
- **Department groups** appear in order of first appearance. SQLite's own row
  and group order is unspecified.
- **Reports** are modelled as the table of cells handed to the CSV writer and
  the document tree handed to `json.dump`. For each, a reader function gives
  back the statistics.

Modules, in dependency order:

| module | contents |
|---|---|
| `Outcomes` | `Option`, the error conditions, and `Outcome` |
| `Text` | `str.replace` for `{link}` and for one character, and `s[:n]` |
| `Templates` | the three catalog templates |
| `Store` | rows, keys, the validity invariant, and the employees–results join |
| `Campaigns` | `create_campaign` |
| `Enrollment` | `add_employees` |
| `Events` | `simulate_click` and `report_phishing` |
| `Emails` | `generate_emails` |
| `Stats` | `get_stats` |
| `Export` | `export_report` |
| `Lifecycle` | how enrolment moves the statistics |
| `Scenario` | one concrete campaign, start to finish |

## Model

| member | source | states |
|---|---|---|
| Templates.CatalogShape | Project/phishing_tester.py:84-132 | the catalog holds exactly password_reset, software_update and ceo_request, each stored under its own name with a low/medium/high difficulty |
| Templates.CatalogBodyParts | Project/phishing_tester.py:86-131 | every catalog body is a `{`-free head, the `{link}` placeholder, and a `{`-free tail |
| Templates.CatalogBodyRendering | Project/phishing_tester.py:86-131 | rendering any catalog body with any link replaces its single placeholder by the link and changes nothing else |
| Text.ReplaceLinkSkipsPlain | Project/phishing_tester.py:261 | `str.replace` copies a `{`-free prefix unchanged and carries on after it |
| Text.ReplaceLinkPlain | Project/phishing_tester.py:261 | text without a `{` holds no placeholder and `str.replace` leaves it unchanged |
| Text.ReplaceLinkIdentity | Project/phishing_tester.py:261 | replacing the placeholder by itself changes nothing |
| Text.ReplaceLinkSingle | Project/phishing_tester.py:261 | a body with exactly one placeholder and no other `{` renders as head + link + tail |
| Text.Take | Project/phishing_tester.py:419 | `s[:n]` has length min(len s, n) and is a prefix of s |
| Store.FindCampaign | Project/phishing_tester.py:228-234 | the campaign lookup finds nothing exactly when no row has the id, and otherwise returns a row with that id |
| Store.FindCampaignAppend | Project/phishing_tester.py:148-159 | after a row is appended, lookups of older ids are unchanged and the new id finds the new row |
| Store.Join | Project/phishing_tester.py:243-248 | a joined row is exactly a result and an employee of campaign cid whose id is the result's employee_id |
| Store.JoinOfOrphans | Project/phishing_tester.py:243-248 | results pointing at no employee contribute no joined row |
| Store.PartnersInValid | Project/phishing_tester.py:53-77 | in a valid store a result joins at most one employee, and joins none when it belongs to another campaign |
| Store.JoinTokensDistinct | Project/phishing_tester.py:243-248 | with the declared keys distinct, no two joined rows carry the same result token |
| Store.JoinBoundedByResults | Project/phishing_tester.py:243-248 | in a valid store a campaign's join has no more rows than the campaign has results |
| Store.EmptyStoreValid | Project/phishing_tester.py:43-77 | the freshly created tables satisfy the key invariant and join nothing |
| Campaigns.CreateCampaign | Project/phishing_tester.py:145-159 | succeeds iff the template is in the catalog and the id is unused; an unknown template and a duplicate id give their errors; on success exactly one row with status 'active' is appended and the other tables are untouched |
| Campaigns.CreateCampaignPreservesValid | Project/phishing_tester.py:43-51 | creating a campaign keeps campaign ids distinct and the store valid |
| Enrollment.AddEmployees | Project/phishing_tester.py:176-208 | an empty record list gives NoData, a record missing email/name/department gives MissingFields, and the only other error is a results key clash; on success the old rows stay as a prefix and each record adds one unflagged result of the campaign carrying its token |
| Enrollment.InsertAllFresh | Project/phishing_tester.py:193-208 | with fresh ids the loop commits, appending exactly the accepted employees and one new result per record |
| Enrollment.AcceptedShape | Project/phishing_tester.py:198-201 | each inserted employee comes from one record and belongs to the campaign; their e-mails are new and pairwise distinct; afterwards every record's e-mail is present |
| Enrollment.AcceptedMembership | Project/phishing_tester.py:198-201 | record i inserts its employee row iff its e-mail was not taken before it, by the table or by an earlier record of the batch |
| Enrollment.AddEmployeesCommits | Project/phishing_tester.py:193-208 | with fresh ids the batch commits, every record's e-mail ends up in the table, and the new rows are employees of this campaign with new e-mails |
| Enrollment.AddEmployeesOrphans | Project/phishing_tester.py:193-208 | with fresh ids, new result i is an orphan iff record i's e-mail was taken before it |
| Enrollment.ReEnrolledEmailGetsOrphan | Project/phishing_tester.py:197-208 | a record whose e-mail is already taken leaves the existing employees intact and gets an orphan result of the campaign |
| Enrollment.AddEmployeesPreservesValid | Project/phishing_tester.py:53-77 | with fresh ids enrolment keeps every key distinct and creates no cross-campaign result |
| Events.SimulateClick | Project/phishing_tester.py:299-308 | only results change; not found iff no row has the token, and then the store is unchanged |
| Events.SimulateClickFrame | Project/phishing_tester.py:299-303 | rows with another token are unchanged; a row with the token gets link_clicked and clicked_at = now, and nothing else changes |
| Events.SimulateClickChangesOneRow | Project/phishing_tester.py:299-303 | in a valid store a click changes at most one row, because tokens are unique |
| Events.SimulateClickIdempotent | Project/phishing_tester.py:299-308 | clicking twice equals clicking once at the later time, with the same outcome |
| Events.SimulateClickPreservesValid | Project/phishing_tester.py:299-303 | a click keeps the store valid |
| Events.ReportPhishing | Project/phishing_tester.py:325-337 | only results change; not found iff no result points at an employee with that e-mail in that campaign, and then the store is unchanged; an unknown e-mail is always not found |
| Events.ReportPhishingFrame | Project/phishing_tester.py:325-332 | a report changes exactly the rows pointing at a matching employee, only in phishing_reported and reported_at, and never touches an orphan |
| Events.ReportPhishingStaysInCampaign | Project/phishing_tester.py:328-331 | in a valid store a report never changes a result of another campaign |
| Events.ReportPhishingIdempotent | Project/phishing_tester.py:325-337 | reporting twice equals reporting once at the later time, with the same outcome |
| Events.ReportPhishingPreservesValid | Project/phishing_tester.py:325-332 | a report keeps the store valid |
| Emails.TrackingLinkInjective | Project/phishing_tester.py:260 | the token can be recovered from its tracking link |
| Emails.EmailFileName | Project/phishing_tester.py:263 | the file name is the directory, '/', the address with every '@' turned into '_' (so no '@' is left), and '.txt' |
| Emails.EmailFileNameInjective | Project/phishing_tester.py:263 | addresses without '_' get distinct file names |
| Emails.EmailFileNameCollision | Project/phishing_tester.py:263 | two different addresses, a@b.ru and a_b.ru, share one file name |
| Emails.WrittenFilesLastWins | Project/phishing_tester.py:263-271 | each written file holds the document of the last e-mail written to its path |
| Emails.MarkSentAll | Project/phishing_tester.py:274-281 | the per-token UPDATEs together set email_sent on exactly the rows whose token belongs to a generated e-mail |
| Emails.GenerateEmails | Project/phishing_tester.py:228-283 | an unknown campaign and a template missing from the catalog give their errors and otherwise the call succeeds; the e-mails are those of the campaign's join; only email_sent changes |
| Emails.GeneratedBodies | Project/phishing_tester.py:260-261 | every generated body is its template with the e-mail's own tracking link in the single placeholder's place |
| Emails.GenerateEmailsSkipsOrphans | Project/phishing_tester.py:243-249 | in a valid store an orphan result gets no e-mail and stays unmarked |
| Emails.GenerateEmailsMarksJoined | Project/phishing_tester.py:259-281 | every result joined to an employee of the campaign is marked sent and gets an e-mail to that employee with its token |
| Emails.GeneratedLinksDistinct | Project/phishing_tester.py:243-261 | in a valid store no two generated e-mails share a token or a tracking link, so each link identifies one result |
| Emails.GenerateEmailsBounded | Project/phishing_tester.py:243-250 | there are never more e-mails than results in the campaign |
| Emails.GenerateEmailsPreservesValid | Project/phishing_tester.py:274-281 | marking e-mails as sent keeps the store valid |
| Stats.CountFlag | Project/phishing_tester.py:357-371 | SUM of a flag is at most the row count; it is 0 iff no row has the flag and equals the row count iff all do |
| Stats.Rate | Project/phishing_tester.py:396-397 | the rate is 0 for no results, and otherwise rate × total = part × 100, lying within 0..100 when part ≤ total |
| Stats.GroupByDepartmentGrouped | Project/phishing_tester.py:374-386 | the department breakdown has one group per department present, each department once, with its row, click and report counts, and the totals add up to the joined rows |
| Stats.GetStats | Project/phishing_tester.py:357-407 | the total counts every result of the campaign; sent, clicked and reported are the counts of campaign results with that flag, each bounded by the total; the rates are zero-guarded ratios in 0..100; the breakdown groups the campaign's join |
| Stats.TotalCountsOrphans | Project/phishing_tester.py:357-386 | in a valid store the overall total is the breakdown's total plus the campaign's orphan results |
| Stats.BreakdownWithinTotal | Project/phishing_tester.py:357-386 | in a valid store no department total and no sum of them exceeds the overall total |
| Stats.GetStatsOfEmptyCampaign | Project/phishing_tester.py:357-397 | a campaign id that no result carries yields all zeros and an empty breakdown, not an error |
| Export.ParseFormat | Project/phishing_tester.py:421-451 | exactly "csv" and "json" are accepted; anything else is an unsupported-format error |
| Export.ReportFileNameSame | Project/phishing_tester.py:419 | for one format, two campaign ids get the same report file name iff their first eight characters agree |
| Export.ReportFileNameCollision | Project/phishing_tester.py:419 | two different ids sharing their first eight characters export to the same file |
| Export.ReportFileNameInjectiveOnShortIds | Project/phishing_tester.py:419 | ids of at most eight characters get distinct file names |
| Export.CsvRoundTrip | Project/phishing_tester.py:421-444 | reading the CSV table back gives the statistics |
| Export.JsonRoundTrip | Project/phishing_tester.py:446-448 | reading the JSON document back gives zero-guarded statistics, including the integer 0 rates of an empty campaign |
| Export.ExportReport | Project/phishing_tester.py:417-451 | succeeds iff the format is csv or json, failing otherwise; the file name is the report name; the file's contents read back as the campaign's statistics |
| Lifecycle.AddEmployeesStats | Project/phishing_tester.py:193-208 | a committed enrolment of N records raises the campaign total by N and leaves sent, clicked and reported unchanged |
| Lifecycle.AcceptedNoneWhenAllTaken | Project/phishing_tester.py:198-201 | when every e-mail is already taken, no employee row is inserted |
| Lifecycle.ReEnrollmentKeepsBreakdown | Project/phishing_tester.py:193-208 | re-enrolling taken e-mails keeps the employees unchanged, raises the total by the record count, and keeps the department breakdown as it was |
| Scenario.Story | Project/phishing_tester.py:134-407 | for one concrete campaign (create, enrol three, generate, one click, one report) every step succeeds and the final statistics are 3/3/1/1 with a third each and Eng 2/1/1, Sales 1/0/0 |

## Left out

- Schema creation and SQLite itself (`_init_database`, connections, cursors) are not modelled. The tables and their declared keys are modelled as data and an invariant.
- Reading the CSV file is not modelled; `add_employees` takes the parsed records. `DictReader` fills short rows with `None`, and that is not modelled either.
- Both validation failures of `add_employees` surface in the code as `RuntimeError`, because `except Exception` rewraps them. The model keeps them apart as `NoData` and `MissingFields`.
- A missing CSV file raises `FileNotFoundError`. File I/O is outside the model.
- `os.makedirs`, writing e-mail files, and writing report files are not modelled. Files are values: a path and the text or table to be written. A failure part-way through writing is not modelled.
- Emails.MarkSentAll: the code ignores an `sqlite3.Error` raised by the `email_sent` update. The model treats that update as always succeeding.
- Stats.Rate: does not model `round(..., 2)` or floating point. The rate is the exact ratio.
- Export.CsvRoundTrip and Export.JsonRoundTrip are stated on the cells and on the document tree. The text that `csv.writer` and `json.dump` produce, including `f"{rate}%"` formatting, is not modelled.
- SQL row order and `GROUP BY` group order are unspecified in SQLite. The model fixes results in table order and departments in order of first appearance.
- uuid4 generation and `datetime.now()` are parameters. The lemmas assume uuid values are fresh.
- `sqlite3.Error` in `simulate_click` and `report_phishing` is only printed, and database failures elsewhere are rewrapped. The model raises only the key-clash errors the constraints can cause; disk and locking errors are not modelled.
- `list_campaigns`, `main`, the command-line parsing and all console output are not part of this model.
