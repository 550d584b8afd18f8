# Visitor portal — a Dafny model

A model of the check-in logic of the visitor portal, a Django application at a
reception desk.

- **Intake.** A visitor asks for a one-time code by e-mail. They then submit
  their details with the code and the name of the employee they came to meet.
- **The visit.** The portal records a visitor and an ongoing visit, binds the
  visit to the browser session and tells the host. The visit page can later
  end the visit.
- **Guards.** Guards see a dashboard that can be filtered by month.
- **Operators.** Operators import the employee directory from CSV.
- **Admin access.** A middleware keeps everyone but superusers out of the
  Django admin.

The model has no Django, database or network. Each part of the system is
represented as follows:

- **The session.** A record with two fields: the code challenge and the
  active visit link.
- **The visitor and visit tables.** Maps from id to record, with next-id
  counters.
- **The employee table.** A sequence in primary-key order.
- **The clock.** Integer seconds.
- **Outside calls.** The random code, the mailer and the SMS provider's reply
  are parameters.

| file | module | models |
|---|---|---|
| `wrappers.dfy` | `Wrappers` | `Option` and `Result` |
| `text.dfy` | `Text` | the string operations the code relies on: `str.strip` with Python's whitespace set, `re.sub(r"\D", "", …)`, `lstrip('0')`, ASCII `lower`/`upper`, prefix and substring tests, `str(int)` |
| `sms.py` → `sms.dfy` | `Sms` | phone normalisation, the credential guards and recipient derivation of the SMS and WhatsApp senders, channel selection |
| `email.py` → `mail.dfy` | `Mail` | the blank-address guard of the mailer; delivery itself is an oracle |
| `models.py` → `models.dfy` | `Models` | records, the status vocabulary, `duration_seconds`, the `__str__` formats |
| `admin.py` → `admin.dfy` | `Admin` | the duration column of the visit admin |
| `views.py` → `intake.dfy` | `Intake` | `IntakeView.get`/`post`, `visit_detail`, `end_visit`. The views are methods of a `Portal` class whose fields are the session and the tables. |
| `views.py` → `dashboard.dfy` | `Dashboard` | the `YYYY-MM` month filter window and the `available_months` drop-down |
| `import_employees.py` → `import_employees.dfy` | `EmployeeImport` | the employee CSV upsert |
| `middleware.py` → `middleware.dfy` | `Middleware` | the admin access decision |

Where the code and its comments disagree, the model follows the code:

- **Codes never start with zero.** A one-time code is
  `str(randint(100000, 999999))`, so it always has six digits and no
  leading zero.
- **Only a missing visit clears the link.** The resume check at the top of
  `IntakeView.get` and `post` removes `active_visit_id` only when the visit
  row is missing. A link to an ended visit stays in the session.
- **A ten-digit number with a leading zero gets no +91.** `_normalize_phone`
  strips leading zeros first, so nine digits remain and the number is
  refused.
- **The 12-digit India rule adds nothing.** Twelve digits starting with `91`
  get the same `+` from the general 10..15 rule.

## Model

| member | source | states |
|---|---|---|
| Sms.NormalizePhone | visitor_portal/visitors/sms.py:9-50 | every result is `+` followed by 10 to 15 ASCII digits |
| Sms.NormalizeStripped | visitor_portal/visitors/sms.py:20-50 | on stripped text every result is `+` followed by 10 to 15 ASCII digits |
| Sms.International | visitor_portal/visitors/sms.py:24-29 | after `+`, a result exists exactly when there are 10 to 15 digits, and it is `+` and those digits |
| Sms.National | visitor_portal/visitors/sms.py:37-50 | on national digits every result is `+` followed by 10 to 15 ASCII digits |
| Sms.NormalizeRejectsDigitless | visitor_portal/visitors/sms.py:20-34 | empty, whitespace-only and digit-free input gives None |
| Sms.NormalizeInternational | visitor_portal/visitors/sms.py:22-29 | a `+`-prefixed input gives `+` and all digits after it, if there are 10 to 15, else None |
| Sms.NationalDigits | visitor_portal/visitors/sms.py:37 | leading zeros removed, "0" when nothing is left: non-empty digits of the same numeric value, beginning with `0` only when the result is "0" |
| Text.TrimZerosValue | visitor_portal/visitors/sms.py:37 | `lstrip('0')` on digits keeps digits and their numeric value |
| Sms.NormalizeNational | visitor_portal/visitors/sms.py:31-50 | without `+`, leading zeros are dropped from the digits and the national rules decide |
| Sms.NationalIndia | visitor_portal/visitors/sms.py:39-44 | region IN in any case: ten digits get `+91`, twelve starting with `91` get `+` |
| Sms.NationalFallback | visitor_portal/visitors/sms.py:46-50 | otherwise 10..15 digits get `+` and every other count gives None |
| Sms.NormalizeTenDigits | visitor_portal/visitors/sms.py:37-42 | every ten-digit number without a leading zero becomes `+91` and the number |
| Sms.NormalizeLeadingZeroTenDigits | visitor_portal/visitors/sms.py:37-50 | a ten-digit number with one leading zero is refused: nine digits remain after the zero is stripped |
| Sms.NormalizeCanonical | visitor_portal/visitors/sms.py:22-29 | every canonical number normalises to itself |
| Sms.NormalizeIdempotent | visitor_portal/visitors/sms.py:9-50 | normalising a result again returns it unchanged |
| Sms.SmsRecipient | visitor_portal/visitors/sms.py:63-70 | a number starting with `+91` loses those three characters; otherwise one starting with `+` loses the `+`; any other text is kept as it is |
| Sms.CanonicalRecipient | visitor_portal/visitors/sms.py:63-72 | the recipient of a normalised number is a non-empty digit string and the number is that recipient with `+91` or `+` put back; a failed normalisation gives an empty recipient |
| Sms.SmsRequest | visitor_portal/visitors/sms.py:58-81 | a request exists iff the API key is set and the number normalises. The recipient is the normalised number without its `+91` or `+`, non-empty digits. The provider URL, route `v3`, the key as authorization. |
| Sms.WhatsAppRequest | visitor_portal/visitors/sms.py:113-137 | a request exists iff all three credentials are set and the number normalises. The recipient is the number without `+`; the provider URL, route `whatsapp`, the key as authorization; instance id and token pass through. |
| Sms.SendSms | visitor_portal/visitors/sms.py:53-105 | no request means None; otherwise the provider's reply |
| Sms.SendWhatsApp | visitor_portal/visitors/sms.py:108-163 | no request means None; otherwise the provider's reply |
| Sms.MessageRequest | visitor_portal/visitors/sms.py:166-180 | the WhatsApp route is taken iff the type lower-cases to `whatsapp`, and then a request exists iff the three WhatsApp credentials are set and the number normalises; otherwise a request exists iff the SMS key is set and the number normalises. A built request carries the provider URL, the message, the channel's key as authorization, and a recipient the normalised number is rebuilt from (`+` and the recipient for WhatsApp; `+91` or `+` and the recipient for SMS) |
| Sms.MessageTypeCaseInsensitive | visitor_portal/visitors/sms.py:177 | the channel choice ignores the letter case of the type |
| Sms.SmsUnconfiguredSendsNothing | visitor_portal/visitors/sms.py:58-60 | without an API key nothing is sent, whatever the number |
| Mail.SendEmailNotification | visitor_portal/visitors/email.py:7-34 | "sent" iff the address is not blank and delivery succeeded; None otherwise |
| Models.ParseStatus | visitor_portal/visitors/models.py:38-42 | a parsed status value names one of the three choices |
| Models.StatusRoundTrip | visitor_portal/visitors/models.py:38-42 | each of pending, ongoing and ended survives the trip to its column value and back |
| Models.StatusValueInjective | visitor_portal/visitors/models.py:38-42 | the three statuses are stored as three different column values, so StatusValue is one-to-one |
| Models.EmployeeLabel | visitor_portal/visitors/models.py:12-13 | the name, followed by " (department)" exactly when the department is non-empty |
| Models.VisitLabel | visitor_portal/visitors/models.py:59-60 | "Visit: visitor -> employee", one space, then the status value in parentheses, and nothing more |
| Models.DurationSeconds | visitor_portal/visitors/models.py:53-57 | start plus duration is the end time for an ended visit, the current time otherwise |
| Models.OngoingDurationGrows | visitor_portal/visitors/models.py:57 | an open visit's duration grows second for second with the clock |
| Models.EndedDurationFixed | visitor_portal/visitors/models.py:55-56 | an ended visit's duration does not depend on the clock |
| Admin.HoursAndMinutes | visitor_portal/visitors/admin.py:60-62 | minutes below 60; hours and minutes cover the duration to within the discarded leftover seconds |
| Admin.HoursAndMinutesUnique | visitor_portal/visitors/admin.py:61-62 | those bounds determine hours and minutes uniquely |
| Admin.LabelDiscardsSeconds | visitor_portal/visitors/admin.py:61-63 | HoursMinutesLabel, the "{h}h {m}m" label, depends only on the whole minutes |
| Admin.DurationLabel | visitor_portal/visitors/admin.py:58-66 | "-" without a start; "Ongoing" with a start but no end; otherwise the "{h}h {m}m" label of the elapsed seconds |
| Admin.VisitDurationLabel | visitor_portal/visitors/admin.py:58-66 | a stored visit shows its duration label once ended, "Ongoing" before |
| Admin.NinetyMinutes | visitor_portal/visitors/admin.py:60-63 | an example: 5400 seconds render as "1h 30m" |
| Intake.IssueOtp | visitor_portal/visitors/views.py:79-83 | the challenge is for the given email and expires 300 seconds after now; its code has six digits and no leading zero |
| Intake.IssuedCodeWindow | visitor_portal/visitors/views.py:104-117 | a freshly issued code, offered with the same email, is accepted exactly up to and including its expiry second |
| Intake.ReissueSupersedes | visitor_portal/visitors/views.py:119-124 | after a re-issue a different earlier code is refused |
| Intake.OtherEmailRefused | visitor_portal/visitors/views.py:114 | a challenge is refused for any email other than the one it was issued for |
| Intake.OtpValidStripped | visitor_portal/visitors/views.py:101-117 | OtpValid, the code check, sees only the stripped email and code: blanks around either never decide it |
| Intake.FirstMatch | visitor_portal/visitors/views.py:143-144 | the first active employee in table order whose name matches; None exactly when no active employee matches |
| Intake.ExactMatchContains | visitor_portal/visitors/views.py:143-144 | an exact case-insensitive match is also a substring match |
| Intake.ResolveHost | visitor_portal/visitors/views.py:140-145 | a resolved host is an active employee of the table |
| Intake.ResolveHostSpec | visitor_portal/visitors/views.py:140-148 | the first exact case-insensitive match wins; only when there is none is the first substring match taken. An empty name, or no active employee containing it, gives none. |
| Intake.ActiveEmployees | visitor_portal/visitors/views.py:52 | the suggestions are exactly the active employees |
| Intake.ActiveEmployeesAppend | visitor_portal/visitors/views.py:52 | the suggestions keep table order: those of two tables one after the other are the first table's followed by the second's |
| Intake.OpenVisit | visitor_portal/visitors/views.py:152-158 | the new visit has the column default status, ongoing; it is started now, not ended, not yet notified, and linked to the visitor and host |
| Intake.RecordNotification | visitor_portal/visitors/views.py:177-179 | sms_sent_at is set iff the notification was accepted, and then to now; nothing else changes |
| Intake.CloseVisit | visitor_portal/visitors/views.py:193-196 | an open visit gets ended_at = now and status ended; an ended visit is left as it is |
| Intake.CloseIdempotent | visitor_portal/visitors/views.py:193-196 | ending twice is the same as ending once |
| Intake.CloseKeepsWellFormed | visitor_portal/visitors/views.py:193-196 | ended_at is set exactly when the status is ended, before and after |
| Intake.CloseFreezesDuration | visitor_portal/visitors/views.py:193-196 | once ended, the duration stays at the value it had when the visit was ended |
| Intake.Portal.constructor | visitor_portal/visitors/views.py:40-53 | an empty session and empty visitor and visit tables |
| Intake.Portal.ResumeActive | visitor_portal/visitors/views.py:44-51 | reports the linked visit iff it exists and has not ended, leaving the session alone; drops the link only when the visit does not exist |
| Intake.Portal.Get | visitor_portal/visitors/views.py:41-53 | the open visit to offer, the checked session and the active employees as suggestions |
| Intake.Portal.IssueChallenge | visitor_portal/visitors/views.py:121-127 | stores a fresh challenge that replaces any earlier one, and reports whether the code mail went out |
| Intake.Portal.SaveVisitor | visitor_portal/visitors/views.py:150 | one new visitor under the next id |
| Intake.Portal.CreateOpenVisit | visitor_portal/visitors/views.py:152-158 | one new ongoing visit under the next id |
| Intake.Portal.StampNotification | visitor_portal/visitors/views.py:169-179 | the new visit records whether its host was notified |
| Intake.Portal.Post | visitor_portal/visitors/views.py:55-181 | a session linked to an open visit is redirected and nothing changes. `send_otp` with a blank email changes nothing; otherwise a challenge is stored. An invalid form, wrong code or unknown host creates no records, and a wrong code issues a fresh challenge. Success creates one visitor and one ongoing visit, clears the challenge and links the session to the visit. |
| Intake.Portal.SendOtp | visitor_portal/visitors/views.py:69-95 | a blank email is refused before any session write; otherwise the challenge is stored and the response says whether the code was sent |
| Intake.Portal.Submit | visitor_portal/visitors/views.py:97-181 | the outcome of a full submission as above, with the stored tables kept valid |
| Intake.Portal.VisitDetail | visitor_portal/visitors/views.py:184-188 | the visit, or none for the 404; the session is linked only to a visit that has not ended |
| Intake.Portal.EndVisit | visitor_portal/visitors/views.py:191-200 | closes only an open visit, so a second call changes nothing; clears the session link only when it names this visit |
| Intake.Portal.Reissue | visitor_portal/visitors/views.py:119-136 | a refused code stores a fresh challenge for the submitted email and shows the form again with the code-required or code-not-sent message |
| Intake.Portal.Admit | visitor_portal/visitors/views.py:150-181 | one new visitor and one ongoing visit with the chosen host, the challenge cleared, the session linked to the visit, the notification stamped only when the mail was accepted, and a redirect to the visit |
| Intake.SubmitSample | visitor_portal/visitors/views.py:97-181 | the sample form, submitted 60 seconds after its code was issued, redirects to visit 1 with host 0, ongoing and stamped as notified |
| Intake.Walkthrough | visitor_portal/visitors/views.py:55-181 | asking for a code and then submitting it with host "joh" redirects to visit 1, which is ongoing, started then, and stamped as notified |
| Intake.HostBySubstring | visitor_portal/visitors/views.py:142-144 | "joh" resolves to "John Carter" through the substring rule |
| Text.NatToStringLength | visitor_portal/visitors/views.py:81 | every number from 100000 to 999999 is written with six characters |
| Dashboard.Split | visitor_portal/visitors/views.py:225 | `split('-')` gives at least one part, none containing the separator |
| Dashboard.SplitJoin | visitor_portal/visitors/views.py:225 | joining the parts with the separator gives the text back |
| Dashboard.ParseInt | visitor_portal/visitors/views.py:225 | `int()` on a part succeeds only on a part that is not blank; it reads back what str() writes |
| Dashboard.UnsignedValue | visitor_portal/visitors/views.py:225 | a digit run is read exactly when it is non-empty digits with single underscores between them |
| Dashboard.ParseNatToString | visitor_portal/visitors/views.py:225 | `int(str(n)) == n` for every natural n |
| Dashboard.ParseZeroPadded | visitor_portal/visitors/views.py:225 | a zero-padded month such as "05" reads back as its number |
| Dashboard.ParseYearMonth | visitor_portal/visitors/views.py:225 | a year and month exist iff `split('-')` gives exactly two parts and `int()` accepts both; they are then the two parsed parts, in order |
| Dashboard.MonthWindow | visitor_portal/visitors/views.py:226-230 | a window exists iff datetime(year, month, 1) and the first of the next month both exist. The window starts on the first of the month and ends on the first of the next; December rolls over to January of the next year. |
| Dashboard.WindowSelectsMonth | visitor_portal/visitors/views.py:226-233 | the half-open window holds exactly the instants of that calendar month |
| Dashboard.MonthFilter | visitor_portal/visitors/views.py:215-236 | with the evidently intended handling of bad input, a window exists iff the stripped filter parses to a year and month that have a window, and it is that window; a blank or malformed filter, or one whose numbers are out of range, gives none |
| Dashboard.ParseIntSameStrip | visitor_portal/visitors/views.py:225 | `int()` sees only the stripped text |
| Dashboard.ParseYearMonthAround | visitor_portal/visitors/views.py:225 | for two dash-free sides, the pair is parsed iff `int()` accepts both, and is their two values |
| Dashboard.MonthFilterSpelling | visitor_portal/visitors/views.py:215-236 | for any two dash-free sides, the intended filter selects exactly the window of their `int()` values, and is ignored when either side is not an integer or the month has no window |
| Dashboard.FilterAround | visitor_portal/visitors/views.py:215-225 | for two dash-free sides, the stripped filter parses to their two `int()` values, or to nothing when either side is not an integer |
| Dashboard.MonthFilterAsWritten | visitor_portal/visitors/views.py:222-236 | as written, the request fails with an uncaught OverflowError exactly when the filter parses to a year or month outside the C int range; otherwise its outcome is the intended filter's |
| Dashboard.OverflowCrashes | visitor_portal/visitors/views.py:225-234 | two integer sides of which one does not fit a C int crash the dashboard as written, while the intended filter ignores them |
| Dashboard.DecemberRollsOver | visitor_portal/visitors/views.py:227-228 | December 2024 ends at 2025-01-01; December 9999 has no window and is ignored |
| Dashboard.YearAloneIgnored | visitor_portal/visitors/views.py:225-236 | a filter without a dash is ignored |
| Dashboard.MonthValueParses | visitor_portal/visitors/views.py:277 | a drop-down value "YYYY-MM" parses back to its year and month |
| Dashboard.Pad2 | visitor_portal/visitors/views.py:277 | `{month:02d}`: non-empty digits of the month's value, exactly two of them below 100 |
| Dashboard.MonthValueSplit | visitor_portal/visitors/views.py:277 | MonthValue, the drop-down value, splits at its only dash into the year's digits and the padded month |
| Dashboard.MonthValueSelects | visitor_portal/visitors/views.py:222-236 | choosing a drop-down value filters by exactly that month |
| Dashboard.MonthValueInjective | visitor_portal/visitors/views.py:277 | different months have different values |
| Dashboard.AvailableMonths | visitor_portal/visitors/views.py:272-281 | 24 MonthEntry items: the twelve months of last year, then of this year, each with a zero-padded "YYYY-MM" value and a "Month YYYY" label |
| Dashboard.AppendMonths | visitor_portal/visitors/views.py:274-281 | the inner loop appends exactly the twelve entries of its year, January first |
| Dashboard.TwoYears | visitor_portal/visitors/views.py:273-281 | last year's twelve entries followed by this year's put month i % 12 + 1 of year i / 12, counted from last year, at position i |
| Dashboard.AvailableMonthsDistinct | visitor_portal/visitors/views.py:272-281 | the 24 values are pairwise distinct |
| Dashboard.MarchLabel | visitor_portal/visitors/views.py:276-281 | March 2025 is offered as "2025-03" labelled "March 2025" |
| EmployeeImport.NormalizePhone | visitor_portal/visitors/management/commands/import_employees.py:7-11 | the result is exactly the digits of the cell, in order |
| EmployeeImport.NormalizePhoneIdempotent | visitor_portal/visitors/management/commands/import_employees.py:7-11 | the result is all digits, and normalising it again changes nothing |
| EmployeeImport.ActiveRoundTrip | visitor_portal/visitors/management/commands/import_employees.py:39-40 | the exported `1`/`0` flag imports back as the same value |
| EmployeeImport.ParseActive | visitor_portal/visitors/management/commands/import_employees.py:39-40 | a blank or missing cell means active |
| EmployeeImport.ActiveIgnoresCase | visitor_portal/visitors/management/commands/import_employees.py:39-40 | any two cells equal up to letter case give the same flag |
| EmployeeImport.ActiveIgnoresPadding | visitor_portal/visitors/management/commands/import_employees.py:39-40 | whitespace added on either side of a cell never changes the flag |
| EmployeeImport.ParseRowCleaned | visitor_portal/visitors/management/commands/import_employees.py:35-38 | ParseRow cleans a row: the phone is all digits, and name, department and email carry no surrounding whitespace |
| EmployeeImport.HeadersRespelled | visitor_portal/visitors/management/commands/import_employees.py:27-28 | HeadersOk, the header check, ignores the letter case and padding of each column name, and extra columns never make a passing header fail |
| EmployeeImport.HeadersAlike | visitor_portal/visitors/management/commands/import_employees.py:27-28 | two header rows with the same canonical names, column by column, pass or fail the header check together |
| EmployeeImport.ActiveSpellings | visitor_portal/visitors/management/commands/import_employees.py:39-40 | " Yes " means active and "no", like any word outside the list, inactive |
| EmployeeImport.ExactLookupSkipsRows | visitor_portal/visitors/management/commands/import_employees.py:27-43 | as written, when no header is literally `name`, every row is skipped |
| EmployeeImport.HeaderCaseCounterexample | visitor_portal/visitors/management/commands/import_employees.py:27-43 | the header `Name,Department,Phone` passes header validation; the as-written lookup skips its row, and the canonical lookup imports it |
| EmployeeImport.CanonicalRowKeys | visitor_portal/visitors/management/commands/import_employees.py:27-28 | the corrected lookup finds a field exactly when some present header strips and lower-cases to that name |
| EmployeeImport.CanonicalRowOfCanonical | visitor_portal/visitors/management/commands/import_employees.py:27-38 | CanonicalRow, under headers that are already canonical, keeps exactly the cells of the named headers |
| EmployeeImport.CanonicalLookupAgrees | visitor_portal/visitors/management/commands/import_employees.py:34-40 | on already lower-case, unpadded headers the corrected lookup reads what the exact lookup reads |
| EmployeeImport.RunNames | visitor_portal/visitors/management/commands/import_employees.py:34-66 | the table gains exactly the names of the rows not skipped, and those are the names seen |
| EmployeeImport.RunCounts | visitor_portal/visitors/management/commands/import_employees.py:45-65 | `created` equals the number of employees added; each row adds to at most one counter |
| EmployeeImport.RunKeyed | visitor_portal/visitors/management/commands/import_employees.py:45-50 | every employee stays filed under its own name |
| EmployeeImport.RunLeavesOthers | visitor_portal/visitors/management/commands/import_employees.py:34-66 | an employee no row names is untouched |
| EmployeeImport.SkippedRowIsInert | visitor_portal/visitors/management/commands/import_employees.py:42-43 | a row without a name or phone digit changes no employee, counter or seen name |
| EmployeeImport.NewNameCreated | visitor_portal/visitors/management/commands/import_employees.py:45-52 | an unknown name is created from the row, and `created` goes up by one |
| EmployeeImport.ExistingNameMerged | visitor_portal/visitors/management/commands/import_employees.py:53-65 | for a known name the stored employee keeps its name and takes the row's department, phone and active flag, and the row's email when it is non-empty (else keeps the stored one); `updated` goes up iff one of those differed, and `created` does not move |
| EmployeeImport.Merge | visitor_portal/visitors/management/commands/import_employees.py:53-65 | the name is kept; department, phone and active come from the row; the email comes from the row when it is non-empty and is kept when it is blank; the employee is unchanged iff department, phone and active agree with the row and the email is blank or the same |
| EmployeeImport.Step | visitor_portal/visitors/management/commands/import_employees.py:42-66 | one row adds its name to the table and to the seen names iff it is not skipped, raises at most one counter, and changes no other employee |
| EmployeeImport.Run | visitor_portal/visitors/management/commands/import_employees.py:34-66 | the rows in file order delete no employee and forget no seen name |
| EmployeeImport.Stale | visitor_portal/visitors/management/commands/import_employees.py:69 | the candidates for deactivation are employees of the table |
| EmployeeImport.Deactivate | visitor_portal/visitors/management/commands/import_employees.py:68-70 | the same employees afterwards, each active iff it was active and its name was seen |
| EmployeeImport.DeactivateExact | visitor_portal/visitors/management/commands/import_employees.py:68-70 | exactly the active employees whose names were not seen become inactive; nothing else changes |
| EmployeeImport.DeactivateKeys | visitor_portal/visitors/management/commands/import_employees.py:68-70 | deactivation deletes no one |
| EmployeeImport.UpsertRow | visitor_portal/visitors/management/commands/import_employees.py:35-66 | the per-field comparison with its `changed` flag computes the same state as the merge rule |
| EmployeeImport.ReadRow | visitor_portal/visitors/management/commands/import_employees.py:35-40 | the cells read from a row are the values ParseRow gives |
| EmployeeImport.DeactivateMissing | visitor_portal/visitors/management/commands/import_employees.py:68-70 | the table becomes Deactivate of it, and the count is the number of stale names |
| EmployeeImport.UpsertRows | visitor_portal/visitors/management/commands/import_employees.py:34-66 | the loop over the rows ends in the state Run gives for the entries read through the canonical headers |
| EmployeeImport.Import | visitor_portal/visitors/management/commands/import_employees.py:21-73 | refuses the file when the header check fails. Otherwise the result is the row-by-row upsert followed, when asked, by the deactivation of stale names, with the three counts; cells are read through the canonical headers. |
| EmployeeImport.ImportResultShape | visitor_portal/visitors/management/commands/import_employees.py:21-73 | ImportResult refuses exactly the files that fail the header check; an accepted file adds exactly the names of its importable rows, deletes no one, and reports no deactivation unless asked |
| EmployeeImport.ImportAsWritten | visitor_portal/visitors/management/commands/import_employees.py:21-73 | the command as written refuses exactly the files that fail the header check |
| EmployeeImport.RunAllSkipped | visitor_portal/visitors/management/commands/import_employees.py:42-43 | rows that are all skipped leave the state unchanged |
| EmployeeImport.AsWrittenDeactivatesEveryone | visitor_portal/visitors/management/commands/import_employees.py:27-70 | as written, a header row that passes only through case folding, with no column literally `name`, imports nothing; with --deactivate-missing every employee ends inactive |
| Middleware.AdminAccess | visitor_portal/visitors/middleware.py:14-34 | redirect to the dashboard iff the path is under `/admin/`, is not login or logout, and the user is signed in but not a superuser |
| Middleware.OutsideAdminPasses | visitor_portal/visitors/middleware.py:16-34 | paths outside `/admin/` pass through |
| Middleware.LoginLogoutPass | visitor_portal/visitors/middleware.py:18-20 | the admin login and logout pages pass through for every user |
| Middleware.AnonymousPasses | visitor_portal/visitors/middleware.py:28-31 | an anonymous user passes through |
| Middleware.SuperuserPasses | visitor_portal/visitors/middleware.py:23-27 | a superuser is never redirected |
| Middleware.StaffRedirected | visitor_portal/visitors/middleware.py:23-27 | a signed-in non-superuser is redirected from every other admin page |
| Middleware.AdminIndexRedirectsStaff | visitor_portal/visitors/middleware.py:16-27 | staff are redirected from `/admin/`, a superuser passes, and `/administrator/` is not an admin path |
| Text.StripKeepsDigits | visitor_portal/visitors/sms.py:22-32 | stripping never changes the digits of a text |
| Text.StripIdempotent | visitor_portal/visitors/views.py:101-102 | stripping twice is stripping once |
| Text.NatToStringRoundTrip | visitor_portal/visitors/views.py:81 | the decimal rendering of a number reads back as the number |

## Left out

- The HTTP exchange with the SMS provider (`sms.py` lines 82-105 and 139-163: the request, its 10 s timeout, JSON reply parsing, HTTP and URL errors) is foreign I/O. The reply is a parameter of `Sms.SendSms` and `Sms.SendWhatsApp`.
- Django's `send_mail`, the e-mail subjects and bodies: delivery is a boolean oracle.
- `random.randint` is a parameter restricted to 100000..999999.
- `form.is_valid()` and Django's field cleaning: the form is given as already cleaned, or absent when invalid.
- The `or request.POST.get("employee_name")` fallback (views.py line 140) is not modelled. `employee_name` is a required form field, so a valid form always supplies it.
- The JSON responses for XHR requests and the rendered pages are not modelled. The outcome is one `Response` carrying the error kind and the "code sent" flag.
- `timezone.now()` is read several times in one request. The model uses one `now` for the code check, `started_at` and `sms_sent_at`.
- Database ids are auto-increment counters that are never reused. Row deletion and cascades are not modelled.
- Concurrent requests on one session are not modelled.
- The dashboard's search filter, ordering, `[:100]`/`[:20]` slicing and the guard check `_is_guard` are not modelled: they are database queries and rendering.
- Converting a stored `started_at` to the local calendar date compared with the month window is not modelled, because it is timezone arithmetic. The window is stated on calendar instants.
- `calendar.month_name` is taken in the default English locale.
- `total_seconds()` is a float. Durations are whole seconds, so sub-second parts are not modelled.
- Dashboard.MonthFilterAsWritten: Python's default limit of 4300 digits on `int()` of a string is not modelled. Beyond it `int()` raises a caught ValueError, so the source ignores such a filter, while the model reads the number and reports the OverflowError.
- Python's Unicode digits (`\D`, `isdigit`, `int()`) and Unicode case mapping are not modelled: digits and letter case are ASCII. Whitespace is Python's full `isspace` set.
- Sms.NormalizeCanonical and Sms.NormalizeIdempotent hold for ASCII digits only. Python's `\D` keeps every Unicode decimal digit, so the national branch turns "98765४3210" into "+9198765४3210". That result is not canonical, and normalising it again gives None.
- Reading and decoding the CSV file (including the UTF-8 BOM) is not modelled: rows are given as already parsed. Nor are the exceptions turned into `CommandError` or the messages written to stdout; the counts are returned instead.
- Several employees with the same name, which make `get_or_create` raise, cannot arise: the table is keyed by name.
- The middleware's call to `get_response` is represented by the `PassThrough` decision.
- Other management commands and `urls.py` are not part of this model.

## Findings

| source | as written | input that shows it | evidently intended | confidence | as-written member | corrected member |
|---|---|---|---|---|---|---|
| visitor_portal/visitors/management/commands/import_employees.py:27-38 | The header check strips and lower-cases the header names. The cells are then read with `row.get('name')` and similar, under the exact lower-case names. EmployeeImport.ImportAsWritten models this lookup. EmployeeImport.AsWrittenDeactivatesEveryone shows the consequence: when no column is literally `name`, nothing is imported, and with --deactivate-missing every active employee is deactivated. | a file whose header is `Name,Department,Phone` and whose row is `Asha Rao,Finance,98765 43210`: header validation passes, the row is skipped and nothing is created | cells are read under the same canonical header names that validation accepts | not executed; high, since DictReader keys rows by the header exactly as written | EmployeeImport.HeaderCaseCounterexample | EmployeeImport.Import |
| visitor_portal/visitors/views.py:226-234 | `datetime(year, month, 1)` converts its arguments to C ints and raises OverflowError for a year or month outside −2^31 .. 2^31 − 1. The handler catches only ValueError and IndexError. | the query `?month=2024-99999999999`: the dashboard request fails with a server error instead of ignoring the filter | an invalid month filter is ignored, as the comment on the handler says | not executed; medium-high, since CPython's datetime constructor parses its arguments as C int | Dashboard.OverflowCrashes | Dashboard.MonthFilter |
