# Clinic appointment core, modelled in Dafny

This project models the core of a small clinic booking system that exists in
two generations: `new/` and the older `medmatch/`. Both generations are a
FastAPI backend over SQLite with a Streamlit frontend. The model covers:

- **The appointment slot ledger** of each generation (`NewLedger`,
  `MedmatchLedger`). It is a class whose fields are:
  - the appointments table, as a map from id to record;
  - the append-only knowledge base;
  - (newer generation only) the ad-hoc receipts;
  - a fresh-id counter standing in for SQLite's autoincrement.

  Each HTTP handler is one method, run as one atomic step:
  - query the slots of a doctor on a date;
  - book;
  - edit symptoms;
  - patient cancel;
  - approve or cancel;
  - block;
  - consult;
  - the advanced report;
  - ad-hoc receipts.

  Two invariants are stated about the table: at most one record per (doctor, date, time), and at most one per
  (patient, date, time). The proofs show which handlers keep them and which
  can break them.
- **The receipt-number formats** `RCP-<YYYYMMDD>-<id:04d>` and
  `RCP-<YYYYMMDD>-<count+1:03d>`, built on a model of Python's `str(n)`
  and zero padding (`Common`).
- **The 12-hour cancellation rule** of the newer generation.
- **The report filters** of both generations, string date comparison
  included.
- **The fixed slot grid**, 09:00 to 16:30 in 30-minute steps (`SlotGrid`), and
  the loops in both frontends that generate it. The newer frontend flags each
  slot as past or not relative to "now". Also modelled: the per-slot card each
  frontend draws, and the newer frontend's split of a patient's visits into
  active ones and history (`MedmatchFrontend`, `NewFrontend`).
- **The keyword-count specialty router** (`SymptomRouter`). Every symptom row
  whose keyword occurs in the patient's text adds a point to its specialty.
  The specialty with the most points wins, and a tie goes to the specialty
  that matched first.
- **The two password-complexity validators** (`MedmatchPasswords`,
  `NewPasswords`).

The handlers are modelled as the code behaves, not as the intended
appointment lifecycle describes them. Where the two differ, the model follows
the code, and lemmas make the difference visible:

- `action` and `slot_action` approve from any status:
  `NewLedger.Ledger.Action`, `MedmatchLedger.Ledger.SlotAction`.
- `block` and `block_slot` do no occupancy check, so blocking a held slot
  creates a second record there: `NewLedger.BlockOnTakenSlotBreaksUniqueness`,
  `MedmatchLedger.BlockOnTakenSlotBreaksUniqueness`.
- `book_slot` does not check the patient's other bookings:
  `MedmatchLedger.BookingMayDoubleBookPatient`.
- The 12-hour check of `pat_cancel` is raised inside a `try` whose bare
  `except` swallows it, so any existing record is deleted whatever the time:
  `NewLedger.Ledger.PatientCancel`.
- `consult` completes a record whatever its status, and fails with a server
  error on an unknown id.
- `edit_sym` silently does nothing for a record that is not PENDING or
  CONFIRMED, yet answers "Updated".
- Visit receipts are padded to *at least* four digits and ad-hoc receipts to
  at least three, and the ad-hoc sequence counts every ad-hoc receipt ever
  issued, not those of one day. Once 999 ad-hoc receipts exist (issued on any
  days), the next one, issued on day D, reads like the receipt of
  appointment 1000 completed on D:
  `NewLedger.AdhocAndVisitReceiptsCanCoincide`.

Modules, one per file:

- `common.dfy`: `Common`
- `slot_grid.dfy`: `SlotGrid`
- `new_ledger.dfy`: `NewLedger`
- `medmatch_ledger.dfy`: `MedmatchLedger`
- `symptom_router.dfy`: `SymptomRouter`
- `medmatch_passwords.dfy`: `MedmatchPasswords`
- `new_passwords.dfy`: `NewPasswords`
- `medmatch_frontend.dfy`: `MedmatchFrontend`
- `new_frontend.dfy`: `NewFrontend`

Records follow the table definitions in `new/database.py:57-92` and
`medmatch/database.py:59-84`. SQL NULL is `None`.

## Model

| member | source | states |
|---|---|---|
| Common.Lower | medmatch/logic_engine.py:5 | same length; no capital A-Z is left; each capital becomes the letter 32 code points later; every other character is kept |
| Common.LowerIdempotent | medmatch/logic_engine.py:11 | lowercasing an already lowercased text changes nothing |
| Common.EmptyOccursEverywhere | medmatch/logic_engine.py:11 | the empty string is `in` every string |
| Common.LexLessIrreflexive | medmatch/main.py:147-148 | no string sorts strictly before itself |
| Common.LexLessTransitive | medmatch/main.py:147-148 | string order is transitive |
| Common.LexLessTotal | medmatch/main.py:147-148 | any two distinct strings are ordered one way or the other |
| Common.LexLessAt | new/main.py:237 | strings that agree up to a position and differ there are ordered by the character at that position |
| Common.LexLeTransitive | medmatch/main.py:147-148 | `<=` on strings is transitive |
| Common.LexLeEmptyRange | medmatch/main.py:147-148 | no string lies in `[lo, hi]` when `hi < lo` |
| Common.Decimal | new/main.py:209 | `str(n)` is a non-empty digit string without leading zero that reads back as `n` |
| Common.LeadingZerosValue | new/main.py:209 | leading zeros do not change the value of a digit string |
| Common.ZeroPad | new/main.py:209 | `f"{n:0wd}"` has length max(w, digits of n), is all digits and reads back as `n` |
| Common.ZeroPadInjective | new/main.py:209 | two numbers padded to the same width give the same text only if they are equal |
| Common.DecimalOfFourDigits | new/main.py:209 | a year below 10000 has at most four digits, so `%Y` fills exactly four places |
| Common.ClockText | medmatch/frontend.py:31 | `strftime("%H:%M")`: two-digit hour, colon, two-digit minute; `ClockTextReadsBack`, `ClockTextDigits` and `ClockTextInjective` state its properties |
| Common.ClockTextReadsBack | medmatch/frontend.py:31 | `strftime("%H:%M")` of a minute of the day is "HH:MM" text that reads back as that minute |
| Common.ClockTextDigits | medmatch/frontend.py:31 | the five characters of that text: hour tens, hour units, colon, minute tens, minute units |
| Common.ClockTextInjective | medmatch/frontend.py:31 | distinct minutes of the day get distinct labels |
| SlotGrid.SlotTimeReadsBack | medmatch/frontend.py:28-32 | the k-th slot label is well formed and names minute 540 + 30k |
| SlotGrid.GridEnds | medmatch/frontend.py:28-30 | the grid has 16 slots, the first "09:00" and the last "16:30" |
| SlotGrid.GridExcludesClosing | medmatch/frontend.py:29-30 | "17:00" is never a slot |
| SlotGrid.GridStep | medmatch/frontend.py:32 | consecutive slots are exactly 30 minutes apart, so the grid is strictly increasing |
| SlotGrid.SlotMinuteOfHour | medmatch/frontend.py:32 | slots alternate between the full and the half hour |
| SlotGrid.GridMinutes | medmatch/frontend.py:31 | every label's minutes are "00" or "30" |
| MedmatchFrontend.GetTimeSlots | medmatch/frontend.py:26-33 | the loop returns exactly the 16 grid labels, in order |
| MedmatchFrontend.SlotCard | medmatch/frontend.py:158-169 | a slot is Open iff it has no entry; it is "My Req" iff PENDING and the user's own; it is Busy iff its status is not PENDING |
| MedmatchFrontend.OpenExactlyWhenBookable | medmatch/frontend.py:160-164 | a slot is offered iff `book_slot` would accept it (no record at that doctor, date and time) |
| MedmatchFrontend.BookedSlotShowsMyRequest | medmatch/frontend.py:165-166 | right after a booking the booker sees "My Req" and any other patient sees "Pending" |
| NewFrontend.GetSlots | new/frontend.py:24-37 | the loop returns the 16 grid labels in order; an entry is past iff its start on the selected day is strictly before now |
| NewFrontend.PastSlotsFormPrefix | new/frontend.py:28-36 | if a slot is past, every earlier slot is past |
| NewFrontend.LaterDayHasNoPast | new/frontend.py:26-33 | no slot of a day after today is past |
| NewFrontend.EarlierDayIsAllPast | new/frontend.py:26-33 | every slot of a day before today is past |
| NewFrontend.SlotCard | new/frontend.py:102-109 | the card is Past iff the entry is past, and Open iff it is not past and has no entry |
| NewFrontend.OccupiedSlotCard | new/frontend.py:107-108 | an occupied future slot is "My Req" iff it is the user's own PENDING request, otherwise Busy |
| NewFrontend.OpenExactlyWhenDoctorFree | new/frontend.py:103-105 | a future slot is offered iff `book` would not answer "Doctor Busy" |
| NewFrontend.BookedSlotShowsMyRequest | new/frontend.py:107-108 | right after a booking the booker sees "My Req" and every other user sees "Busy" |
| NewFrontend.Filter | new/frontend.py:115 | a row is kept iff its status is in the kept set, and the result is no longer than the input |
| NewFrontend.FilterAppend | new/frontend.py:115 | filtering commutes with concatenation, so kept rows keep their input order |
| NewFrontend.ActiveHistorySplit | new/frontend.py:115 | active = PENDING or CONFIRMED, history = COMPLETED; no row is in both; BLOCKED rows are in neither |
| NewFrontend.ActiveHistoryCover | new/frontend.py:115 | active and history together count every non-BLOCKED row once |
| NewFrontend.Active | new/frontend.py:115 | the `act` comprehension: the rows whose status is PENDING or CONFIRMED, in input order (properties in `Filter`, `FilterAppend`, `ActiveHistorySplit`) |
| NewFrontend.History | new/frontend.py:115 | the `hst` comprehension: the rows whose status is COMPLETED, in input order (properties in `Filter`, `FilterAppend`, `ActiveHistorySplit`) |
| SymptomRouter.FirstHit | medmatch/logic_engine.py:12 | the position of the first row that counts for a specialty, with no earlier row counting |
| SymptomRouter.Score | medmatch/logic_engine.py:9-13 | the final tally of a specialty: one point per row whose lowercased keyword occurs in the lowercased input; `ScoreCounts` proves it counts those rows |
| SymptomRouter.ScorePositive | medmatch/logic_engine.py:11-15 | a specialty scores iff some row counts for it |
| SymptomRouter.ScoreCounts | medmatch/logic_engine.py:11-13 | a score is the number of rows whose keyword occurs, however often each occurs |
| SymptomRouter.HitsIgnoreInputCase | medmatch/logic_engine.py:5 | matching ignores the case of the input |
| SymptomRouter.HitsIgnoreKeywordCase | medmatch/logic_engine.py:11 | matching ignores the case of the keyword |
| SymptomRouter.ScoreIgnoresCase | medmatch/logic_engine.py:5 | scores are the same for the input in any case |
| SymptomRouter.EmptyKeywordHits | medmatch/logic_engine.py:11 | an empty keyword matches every input |
| SymptomRouter.ScoreStep | medmatch/logic_engine.py:13 | one more row adds exactly that row's point |
| SymptomRouter.TallyStep | medmatch/logic_engine.py:9-13 | one loop iteration extends the tally: counts, key order and first-match positions |
| SymptomRouter.Tally | medmatch/logic_engine.py:7-13 | the dictionary holds every matching specialty's score, its keys in first-match order |
| SymptomRouter.FirstMaximal | medmatch/logic_engine.py:16 | `max` picks a key of maximal tally with every earlier key strictly smaller |
| SymptomRouter.PredictSpecialty | medmatch/logic_engine.py:4-16 | None iff no keyword matches; otherwise a matching specialty of maximal score whose first match is earliest among the tied |
| MedmatchPasswords.AllowedRun | medmatch/security_utils.py:17 | the greedy `[...]+` run: all characters in it are allowed, the next one is not |
| MedmatchPasswords.ValidatePasswordComplexity | medmatch/security_utils.py:13-23 | the guard chain as written: length, `re.match` with `$`, a special character, a letter or digit; `ValidateCharacterwise` characterises it |
| MedmatchPasswords.ValidateCharacterwise | medmatch/security_utils.py:13-23 | accepted iff 8..10 long, has a special character and a letter or digit, and every character is allowed except possibly a final newline |
| MedmatchPasswords.RejectsBadLength | medmatch/security_utils.py:15-16 | lengths outside 8..10 are refused |
| MedmatchPasswords.AcceptsDocumentedPasswords | medmatch/security_utils.py:13-23 | every password the doc comment describes is accepted |
| MedmatchPasswords.TrailingNewlineAccepted | medmatch/security_utils.py:17-18 | "Abc@123\n" is accepted although a newline is outside the alphabet |
| MedmatchPasswords.ValidatePasswordStrict | medmatch/security_utils.py:14 | the documented rule: accepted iff 8..10 long over the alphabet with a special character and a letter or digit |
| MedmatchPasswords.StrictDiffersOnlyOnFinalNewline | medmatch/security_utils.py:17-18 | the two rules agree except on passwords ending in a newline |
| NewPasswords.RejectsShort | new/security_utils.py:14 | fewer than 4 characters is refused |
| NewPasswords.AcceptsAnyLongEnough | new/security_utils.py:14-15 | 4 or more characters is accepted, whatever they are |
| NewPasswords.LengthOnly | new/security_utils.py:12-15 | passwords of equal length get the same verdict |
| NewPasswords.Monotone | new/security_utils.py:14-15 | if a password is accepted, every longer one is too |
| NewPasswords.ValidatePasswordComplexity | new/security_utils.py:12-15 | the single length test; the four lemmas above characterise it |
| MedmatchLedger.InsertKeepsDoctorUniqueness | medmatch/main.py:187-188 | inserting at a free doctor slot keeps doctor-slot uniqueness |
| MedmatchLedger.BookingMayDoubleBookPatient | medmatch/main.py:187-188 | booking a patient who already holds that date and time breaks patient-slot uniqueness |
| MedmatchLedger.BlockOnTakenSlotBreaksUniqueness | medmatch/main.py:199-203 | blocking a held slot leaves two records at that doctor, date and time |
| MedmatchLedger.PatientlessInsertKeepsPatientUniqueness | medmatch/main.py:201 | a record without a patient never breaks patient-slot uniqueness |
| MedmatchLedger.SameSlotKeepsUniqueness | medmatch/main.py:195 | changing fields other than patient, doctor, date and time keeps both invariants |
| MedmatchLedger.SlotView | medmatch/main.py:178-182 | the dictionary after visiting records in id order, each of that doctor and date written under its time; `SlotViewSound` and `SlotViewComplete` characterise it |
| MedmatchLedger.SlotViewSound | medmatch/main.py:178-182 | every entry of the slot dictionary is a record of that doctor and date, filed under its own time |
| MedmatchLedger.SlotViewComplete | medmatch/main.py:180-182 | every record of that doctor and date appears under its time, shown by the record with the largest id there |
| MedmatchLedger.BookThenQuery | medmatch/main.py:176-188 | right after a booking, the slot query shows the new PENDING record at the booked time |
| MedmatchLedger.Selected | medmatch/main.py:141-148 | inner join on the doctor, then each truthy filter: doctor, specialty, start date `>=` and end date `<=` as strings |
| MedmatchLedger.Row | medmatch/main.py:153-160 | the row of one record, with "N/A (Blocked)" for no patient, "Unknown" for no specialty and `charges or 0.0` |
| MedmatchLedger.ReportIdsExact | medmatch/main.py:145-153 | the report lists exactly the selected records, each once, in id order |
| MedmatchLedger.EmptyDateRangeSelectsNothing | medmatch/main.py:147-148 | a date range whose end lies before its start selects nothing |
| MedmatchLedger.Ledger.GetSlots | medmatch/main.py:176-183 | the loop builds the slot dictionary of that doctor and date (no cancellation reason) |
| MedmatchLedger.Ledger.BookSlot | medmatch/main.py:185-189 | "Taken" with nothing changed iff the doctor slot is held; otherwise one PENDING record under a fresh id; doctor-slot uniqueness is kept |
| MedmatchLedger.Ledger.SlotAction | medmatch/main.py:191-197 | 404 for an unknown id; approve sets CONFIRMED from any status, cancel deletes, other actions change nothing |
| MedmatchLedger.Ledger.BlockSlot | medmatch/main.py:199-203 | adds a patientless BLOCKED "Doctor Blocked" record with no check, breaking doctor-slot uniqueness when the slot was held |
| MedmatchLedger.Ledger.Consult | medmatch/main.py:205-211 | completes the record whatever its status, with no receipt, and appends one knowledge entry; an unknown id is a server error |
| MedmatchLedger.Ledger.AdvancedReports | medmatch/main.py:136-161 | one row per selected record in id order, with "Unknown", "N/A (Blocked)" and `charges or 0.0` defaults |
| NewLedger.InsertKeepsUniqueness | new/main.py:163-169 | a record that clashes with neither slot can be inserted without breaking either invariant |
| NewLedger.BookingKeepsUniqueness | new/main.py:160-170 | a booking that passes both checks keeps both invariants |
| NewLedger.BlockOnTakenSlotBreaksUniqueness | new/main.py:200-203 | blocking a held slot leaves two records at that doctor, date and time |
| NewLedger.BlockKeepsPatientUniqueness | new/main.py:202 | a block carries no patient, so it keeps patient-slot uniqueness |
| NewLedger.SameSlotKeepsUniqueness | new/main.py:176 | changing fields other than patient, doctor, date and time keeps both invariants |
| NewLedger.SlotView | new/main.py:150-157 | the dictionary after visiting records in id order, each of that doctor and date written under its time; `SlotViewSound`, `SlotViewComplete` and `SlotViewExact` characterise it |
| NewLedger.SlotViewSound | new/main.py:150-157 | every entry of the slot dictionary is a record of that doctor and date, filed under its own time |
| NewLedger.SlotViewComplete | new/main.py:152-157 | every record of that doctor and date appears under its time, shown by the record with the largest id there |
| NewLedger.SlotViewExact | new/main.py:148-158 | under doctor-slot uniqueness each entry is exactly the one record at that time |
| NewLedger.BookThenQuery | new/main.py:148-170 | right after a booking, the slot query shows the new PENDING record with its symptoms at the booked time |
| NewLedger.DateStamp | new/main.py:209 | `%Y%m%d` is eight digits that read back as year, month and day |
| NewLedger.ReceiptNumber | new/main.py:209 | "RCP-", the date stamp, "-", then digits reading back as the id, at least four of them |
| NewLedger.ReceiptNumbersDistinct | new/main.py:209 | distinct appointments never share a receipt number, whatever days they were completed |
| NewLedger.ReceiptOfFive | new/main.py:209 | appointment 5 gets "RCP-<stamp>-0005" |
| NewLedger.AdhocReceiptNumber | new/main.py:272 | same prefix, then exactly max(3, digits) digits reading back as the count of receipts issued plus one |
| NewLedger.AdhocAndVisitReceiptsCanCoincide | new/main.py:272 | with 999 ad-hoc receipts already issued on any days, the next one, issued on day D, equals the receipt of appointment 1000 completed on D |
| NewLedger.TooLateToCancel | new/main.py:186-187 | `now > start - 12h` on microsecond instants; `CancellationWindowExamples` restates it as "less than 12 hours ahead" |
| NewLedger.CancellationWindowExamples | new/main.py:186-187 | it is too late to cancel iff the start is less than 12 hours from now |
| NewLedger.ReportIdsExact | new/main.py:234-244 | the report lists exactly the selected records, each once, in id order |
| NewLedger.ReportIgnoresEndDate | new/main.py:235-238 | the filter's end date has no effect on the rows returned |
| NewLedger.Selected | new/main.py:234-238 | inner join on the doctor, then each truthy filter: doctor, specialty, start date `>=` as strings, and patient name; no end date |
| NewLedger.Row | new/main.py:241-243 | the row of one record, with "Blocked" for no patient, "General" for no specialty, `charges or 0.0` and empty diagnosis and receipt defaults |
| NewLedger.SelectedAsIntended | new/main.py:34 | the corrected filter: `Selected` and, when an end date is given, the date `<=` it; `IntendedEmptyRangeSelectsNothing` proves its range property |
| NewLedger.IntendedEmptyRangeSelectsNothing | new/main.py:34 | with the end date applied, a range ending before it starts selects nothing |
| NewLedger.EndDateIgnoredExample | new/main.py:234-238 | as written, an appointment of 2024-02-15 is listed for the range 2024-01-01 to 2024-01-31 |
| NewLedger.Ledger.Slots | new/main.py:148-158 | the loop builds the slot dictionary of that doctor and date, with "Blocked" for patientless records |
| NewLedger.Ledger.Book | new/main.py:160-170 | "Doctor Busy", then "You have another appointment", each with nothing changed; otherwise one PENDING record under a fresh id; both invariants kept |
| NewLedger.Ledger.EditSymptoms | new/main.py:172-178 | only the symptoms of an existing PENDING or CONFIRMED record change; otherwise nothing changes |
| NewLedger.Ledger.PatientCancel | new/main.py:180-190 | 404 for an unknown id; otherwise the record is deleted whatever the time |
| NewLedger.Ledger.Action | new/main.py:192-198 | 404 for an unknown id; approve sets CONFIRMED from any status, cancel deletes, other actions change nothing; the reason is not stored |
| NewLedger.Ledger.Block | new/main.py:200-203 | adds a patientless BLOCKED "Blocked" record with no check, breaking doctor-slot uniqueness when the slot was held |
| NewLedger.Ledger.Consult | new/main.py:205-216 | completes the record whatever its status, files the clinical fields and the receipt number, appends one knowledge entry; an unknown id is a server error |
| NewLedger.Ledger.Reports | new/main.py:232-244 | one row per selected record in id order, with "General", "Blocked" and empty-string defaults |
| NewLedger.Ledger.IssueAdhoc | new/main.py:270-274 | appends one receipt numbered by the count already issued plus one, and answers with its row id |

## Left out

- Streamlit rendering, widgets, session state and HTTP calls in both
  frontends. Only the slot generators, the card rules and the
  active/history split are modelled.
- The FastAPI and SQLAlchemy machinery. The database is an in-memory map and
  each handler runs as one atomic step, so the check-then-insert race in
  `book` is not modelled.
- Registration, login, profile, admin-user and master-data handlers. They are
  create/read/update glue around password hashing whose code is not visible.
  The password validators they call are modelled.
- The TF-IDF similarity search of both `knowledge_engine.py` files. It relies
  on sklearn and floating-point cosine scores.
- `new/pdf_generator.py` and the PDF endpoints. These are rendering and
  float formatting.
- The find-doctors handlers that call the router (`new/main.py:140-146`,
  `medmatch/main.py:167-174`). They are database lookups around
  `SymptomRouter.PredictSpecialty`.
- Charges and amounts are carried as `real` values and only stored and
  copied. The revenue sum of the older frontend is not modelled.
- `datetime.now()` and `strptime` are parameters:
  - `now` is an integer count of microseconds;
  - the date selected in the newer frontend's calendar is a day number (the
    ledgers keep dates as strings, as the tables do);
  - the appointment start that `pat_cancel` parses comes from a function
    parameter;
  - today's date for receipts is a year/month/day value with a four-digit
    year.
- `strftime` is not a parameter: `"%H:%M"` is modelled by `Common.ClockText`
  and `"%Y%m%d"` by `NewLedger.DateStamp`.
- `str.lower()` is modelled for ASCII letters only.
- NewLedger.TooLateToCancel: compares microsecond instants, the resolution of
  `datetime`. Its outcome is discarded by the handler anyway.
- NewLedger.Ledger.Book: ids come from a counter that never goes back.
  SQLite without AUTOINCREMENT may reuse the largest id once that record is
  deleted. The same holds for every inserting handler of both ledgers.
- NewLedger.Ledger.Reports: rows are taken in id order. SQL gives no order
  without ORDER BY. The bare `except: return []` is not modelled, because no
  query failure can happen in the model.
- MedmatchLedger.Ledger.AdvancedReports: the same id-order assumption. The
  500 answer on a query failure is not modelled.
- NewLedger.Ledger.Slots: same-time records are visited in id order, so the
  later id wins. The actual visiting order is whatever SQL returns.
- NewLedger.Ledger.Consult and MedmatchLedger.Ledger.Consult: the doctor's
  name is looked up in a map passed as a parameter. A missing doctor is a
  server error before anything is committed.

## Findings

| source | as written | input that shows it | evidently intended | confidence | as-written member | corrected member |
|---|---|---|---|---|---|---|
| medmatch/security_utils.py:17 | the alphabet test `re.match(r'^[...]+$', p)` lets `$` match before a final newline | "Abc@123\n" is accepted | only letters, digits and `@#$%&*` (the doc comment at line 14), that is `\Z` or `re.fullmatch` | medium, not executed | MedmatchPasswords.TrailingNewlineAccepted | MedmatchPasswords.ValidatePasswordStrict |
| new/main.py:235-238 | the report query filters on doctor, specialty, start date and patient name, but never on `end_date` | range 2024-01-01 to 2024-01-31 with a record dated 2024-02-15 (`end_date` is declared at new/main.py:34 and sent by the admin screen at new/frontend.py:197) | dates bounded above by `end_date` as well, as in medmatch/main.py:148 | high, not executed | NewLedger.EndDateIgnoredExample | NewLedger.IntendedEmptyRangeSelectsNothing |

The ledger methods follow the code as written. `NewLedger.Ledger.Reports`
applies no end date. The intended filter is `NewLedger.SelectedAsIntended`,
and `NewLedger.IntendedEmptyRangeSelectsNothing` proves its range property.
