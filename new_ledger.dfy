/** The appointment slot ledger of the newer backend generation
    (new/main.py). The SQLite tables become fields of one `Ledger` object:
    a map from appointment id to record, the append-only list of knowledge
    entries, the ad-hoc receipts, and a fresh-id counter standing in for the
    autoincrement key. Each HTTP handler is one method, run as one atomic
    step. Names of doctors, patients and specialties come from a read-only
    `Directory` value. */
module NewLedger {
  import opened Common

  // ---------------------------------------------------------------------
  // Records
  // ---------------------------------------------------------------------

  /** One row of the `appointments` table; `None` stands for SQL NULL. */
  datatype Appointment = Appointment(
    patientId: Option<int>,
    doctorId: int,
    date: string,
    time: string,
    symptoms: string,
    status: Status,
    cancellationReason: Option<string>,
    diagnosis: Option<string>,
    doctorComments: Option<string>,
    medications: Option<string>,
    charges: Option<real>,
    receiptNumber: Option<string>)

  /** One row of the `knowledge_base` table, written when a visit is completed. */
  datatype KnowledgeEntry = KnowledgeEntry(
    symptomText: string,
    diagnosis: string,
    treatmentPlan: string,
    medicationPlan: string,
    doctorName: string)

  /** One row of the `adhoc_receipts` table. */
  datatype AdhocReceipt = AdhocReceipt(
    receiptNumber: string,
    recipientName: string,
    description: string,
    amount: real,
    createdAt: string)

  datatype DoctorRecord = DoctorRecord(name: string, specialtyId: Option<int>)

  /** The read-only doctor, patient and specialty tables, reduced to the
      columns the ledger's handlers read. */
  datatype Directory = Directory(
    doctors: map<int, DoctorRecord>,
    patients: map<int, string>,
    specialties: map<int, string>)

  /** The HTTP errors the handlers raise: 400 "Doctor Busy", 400 "You have
      another appointment", 404, and the 500 of an uncaught exception. */
  datatype Failure = DoctorBusy | AnotherAppointment | NotFound | ServerError

  datatype Outcome = Done | Failed(failure: Failure)

  // ---------------------------------------------------------------------
  // Slot occupancy and the two uniqueness invariants
  // ---------------------------------------------------------------------

  predicate AtDoctorSlot(a: Appointment, doctorId: int, date: string, time: string) {
    a.doctorId == doctorId && a.date == date && a.time == time
  }

  predicate AtPatientSlot(a: Appointment, patientId: int, date: string, time: string) {
    a.patientId == Some(patientId) && a.date == date && a.time == time
  }

  /** Some record of any status holds (doctor, date, time). */
  predicate DoctorSlotTaken(appts: map<int, Appointment>, doctorId: int, date: string, time: string) {
    exists id | id in appts :: AtDoctorSlot(appts[id], doctorId, date, time)
  }

  /** The patient holds some record of any status at (date, time), with any doctor. */
  predicate PatientSlotTaken(appts: map<int, Appointment>, patientId: int, date: string, time: string) {
    exists id | id in appts :: AtPatientSlot(appts[id], patientId, date, time)
  }

  /** At most one record per (doctor, date, time). */
  ghost predicate DoctorSlotsUnique(appts: map<int, Appointment>) {
    forall i, j :: i in appts && j in appts && i != j ==>
      !AtDoctorSlot(appts[j], appts[i].doctorId, appts[i].date, appts[i].time)
  }

  /** At most one record per (patient, date, time) among records with a patient. */
  ghost predicate PatientSlotsUnique(appts: map<int, Appointment>) {
    forall i, j :: i in appts && j in appts && i != j && appts[i].patientId.Some? ==>
      !AtPatientSlot(appts[j], appts[i].patientId.value, appts[i].date, appts[i].time)
  }

  /** Every id in use lies below the next id to be handed out. */
  ghost predicate IdsBelow(appts: map<int, Appointment>, nextId: int) {
    1 <= nextId && forall id :: id in appts ==> 1 <= id < nextId
  }

  /** The record `book` inserts. */
  function Booking(patientId: int, doctorId: int, date: string, time: string, symptoms: string): Appointment {
    Appointment(Some(patientId), doctorId, date, time, symptoms, Pending, None, None, None, None, None, None)
  }

  /** The record `block` inserts. */
  function BlockRecord(doctorId: int, date: string, time: string): Appointment {
    Appointment(None, doctorId, date, time, "Blocked", Blocked, None, None, None, None, None, None)
  }

  /** A record that clashes with neither invariant can be added under a fresh
      id without breaking either. */
  lemma InsertKeepsUniqueness(appts: map<int, Appointment>, id: int, a: Appointment)
    requires id !in appts
    requires !DoctorSlotTaken(appts, a.doctorId, a.date, a.time)
    requires a.patientId.Some? ==> !PatientSlotTaken(appts, a.patientId.value, a.date, a.time)
    requires DoctorSlotsUnique(appts) && PatientSlotsUnique(appts)
    ensures DoctorSlotsUnique(appts[id := a]) && PatientSlotsUnique(appts[id := a])
  {
    var m := appts[id := a];
    forall i, j | i in m && j in m && i != j
      ensures !AtDoctorSlot(m[j], m[i].doctorId, m[i].date, m[i].time)
    {
      if i == id {
        assert !AtDoctorSlot(appts[j], a.doctorId, a.date, a.time);
      } else if j == id {
        assert !AtDoctorSlot(appts[i], a.doctorId, a.date, a.time);
      }
    }
    forall i, j | i in m && j in m && i != j && m[i].patientId.Some?
      ensures !AtPatientSlot(m[j], m[i].patientId.value, m[i].date, m[i].time)
    {
      if i == id {
        assert !AtPatientSlot(appts[j], a.patientId.value, a.date, a.time);
      } else if j == id && a.patientId.Some? {
        assert !AtPatientSlot(appts[i], a.patientId.value, a.date, a.time);
      }
    }
  }

  /** `book` checks both slots before inserting, so it keeps both invariants. */
  lemma BookingKeepsUniqueness(appts: map<int, Appointment>, id: int,
                               patientId: int, doctorId: int, date: string, time: string, symptoms: string)
    requires id !in appts
    requires !DoctorSlotTaken(appts, doctorId, date, time) && !PatientSlotTaken(appts, patientId, date, time)
    requires DoctorSlotsUnique(appts) && PatientSlotsUnique(appts)
    ensures var m := appts[id := Booking(patientId, doctorId, date, time, symptoms)];
            DoctorSlotsUnique(m) && PatientSlotsUnique(m)
  {
    InsertKeepsUniqueness(appts, id, Booking(patientId, doctorId, date, time, symptoms));
  }

  /** `block` does no occupancy check: blocking a slot that some record
      already holds leaves two records at that (doctor, date, time). */
  lemma BlockOnTakenSlotBreaksUniqueness(appts: map<int, Appointment>, id: int, doctorId: int, date: string, time: string)
    requires id !in appts
    requires DoctorSlotTaken(appts, doctorId, date, time)
    ensures !DoctorSlotsUnique(appts[id := BlockRecord(doctorId, date, time)])
  {
    var other :| other in appts && AtDoctorSlot(appts[other], doctorId, date, time);
    var m := appts[id := BlockRecord(doctorId, date, time)];
    assert other in m && id in m && other != id;
    assert AtDoctorSlot(m[other], m[id].doctorId, m[id].date, m[id].time);
  }

  /** A block carries no patient, so it never breaks patient uniqueness. */
  lemma BlockKeepsPatientUniqueness(appts: map<int, Appointment>, id: int, doctorId: int, date: string, time: string)
    requires id !in appts && PatientSlotsUnique(appts)
    ensures PatientSlotsUnique(appts[id := BlockRecord(doctorId, date, time)])
  {
    var m := appts[id := BlockRecord(doctorId, date, time)];
    forall i, j | i in m && j in m && i != j && m[i].patientId.Some?
      ensures !AtPatientSlot(m[j], m[i].patientId.value, m[i].date, m[i].time)
    {
      if j != id {
        assert i != id;
      }
    }
  }

  /** Changing fields other than patient, doctor, date and time keeps both invariants. */
  lemma SameSlotKeepsUniqueness(appts: map<int, Appointment>, id: int, a: Appointment)
    requires id in appts
    requires a.patientId == appts[id].patientId && a.doctorId == appts[id].doctorId
    requires a.date == appts[id].date && a.time == appts[id].time
    requires DoctorSlotsUnique(appts) && PatientSlotsUnique(appts)
    ensures DoctorSlotsUnique(appts[id := a]) && PatientSlotsUnique(appts[id := a])
  {
    var m := appts[id := a];
    forall i, j | i in m && j in m && i != j
      ensures !AtDoctorSlot(m[j], m[i].doctorId, m[i].date, m[i].time)
    {
      assert !AtDoctorSlot(appts[j], appts[i].doctorId, appts[i].date, appts[i].time);
    }
    forall i, j | i in m && j in m && i != j && m[i].patientId.Some?
      ensures !AtPatientSlot(m[j], m[i].patientId.value, m[i].date, m[i].time)
    {
      assert !AtPatientSlot(appts[j], appts[i].patientId.value, appts[i].date, appts[i].time);
    }
  }

  // ---------------------------------------------------------------------
  // The slot query
  // ---------------------------------------------------------------------

  /** What the calendar shows for one occupied slot. */
  datatype SlotInfo = SlotInfo(
    status: Status,
    id: int,
    patientId: Option<int>,
    patientName: string,
    symptom: string,
    cancellationReason: Option<string>)

  /** A record's patient name, or "Blocked" when the record has no patient
      (or its patient row is missing, so the relationship is empty). */
  function PatientName(patientId: Option<int>, patients: map<int, string>): string {
    if patientId.Some? && patientId.value in patients then patients[patientId.value] else "Blocked"
  }

  function Info(id: int, a: Appointment, patients: map<int, string>): SlotInfo {
    SlotInfo(a.status, id, a.patientId, PatientName(a.patientId, patients), a.symptoms, a.cancellationReason)
  }

  predicate OnDay(a: Appointment, doctorId: int, date: string) {
    a.doctorId == doctorId && a.date == date
  }

  /** The dictionary `slots` has built after visiting, in id order, the
      records with ids below `bound`: each record of that doctor on that
      date is written under its own time, a later one overwriting an
      earlier one. */
  function SlotView(appts: map<int, Appointment>, doctorId: int, date: string,
                    patients: map<int, string>, bound: int): map<string, SlotInfo>
    decreases bound
  {
    if bound <= 1 then map[]
    else
      var view := SlotView(appts, doctorId, date, patients, bound - 1);
      var id := bound - 1;
      if id in appts && OnDay(appts[id], doctorId, date) then
        view[appts[id].time := Info(id, appts[id], patients)]
      else view
  }

  /** Every entry of the view describes a record of that doctor on that date
      filed under its own time. */
  lemma {:induction false} SlotViewSound(appts: map<int, Appointment>, doctorId: int, date: string,
                                         patients: map<int, string>, bound: int, t: string)
    requires t in SlotView(appts, doctorId, date, patients, bound)
    ensures var view := SlotView(appts, doctorId, date, patients, bound);
            var id := view[t].id;
            1 <= id < bound && id in appts && OnDay(appts[id], doctorId, date) && appts[id].time == t &&
            view[t] == Info(id, appts[id], patients)
    decreases bound
  {
    var id := bound - 1;
    if !(id in appts && OnDay(appts[id], doctorId, date) && appts[id].time == t) {
      SlotViewSound(appts, doctorId, date, patients, bound - 1, t);
    }
  }

  /** Every record of that doctor on that date has its time in the view, and
      the entry shown there is the record with the largest id at that time. */
  lemma {:induction false} SlotViewComplete(appts: map<int, Appointment>, doctorId: int, date: string,
                                            patients: map<int, string>, bound: int, id: int)
    requires 1 <= id < bound && id in appts && OnDay(appts[id], doctorId, date)
    ensures var view := SlotView(appts, doctorId, date, patients, bound);
            appts[id].time in view && id <= view[appts[id].time].id
    decreases bound
  {
    var last := bound - 1;
    if id < last {
      SlotViewComplete(appts, doctorId, date, patients, bound - 1, id);
    }
  }

  /** Under doctor-slot uniqueness each entry is exactly the one record at that time. */
  lemma SlotViewExact(appts: map<int, Appointment>, doctorId: int, date: string,
                      patients: map<int, string>, bound: int, id: int)
    requires DoctorSlotsUnique(appts)
    requires 1 <= id < bound && id in appts && OnDay(appts[id], doctorId, date)
    ensures var view := SlotView(appts, doctorId, date, patients, bound);
            appts[id].time in view && view[appts[id].time] == Info(id, appts[id], patients)
  {
    var view := SlotView(appts, doctorId, date, patients, bound);
    SlotViewComplete(appts, doctorId, date, patients, bound, id);
    SlotViewSound(appts, doctorId, date, patients, bound, appts[id].time);
    var shown := view[appts[id].time].id;
    assert shown in appts && AtDoctorSlot(appts[shown], appts[id].doctorId, appts[id].date, appts[id].time);
  }

  /** Round trip: right after a successful booking, the slot query for that
      doctor and date shows the new PENDING record, with the submitted
      symptoms, at the booked time. */
  lemma BookThenQuery(appts: map<int, Appointment>, nextId: int, patients: map<int, string>,
                      patientId: int, doctorId: int, date: string, time: string, symptoms: string)
    requires IdsBelow(appts, nextId)
    ensures var a := Booking(patientId, doctorId, date, time, symptoms);
            var view := SlotView(appts[nextId := a], doctorId, date, patients, nextId + 1);
            time in view && view[time].id == nextId && view[time].status == Pending &&
            view[time].patientId == Some(patientId) && view[time].symptom == symptoms
  {
    var a := Booking(patientId, doctorId, date, time, symptoms);
    var m := appts[nextId := a];
    var view := SlotView(m, doctorId, date, patients, nextId + 1);
    SlotViewComplete(m, doctorId, date, patients, nextId + 1, nextId);
    SlotViewSound(m, doctorId, date, patients, nextId + 1, time);
  }

  // ---------------------------------------------------------------------
  // Receipt numbers
  // ---------------------------------------------------------------------

  /** A calendar day as `datetime.now()` can report it. */
  datatype CalendarDay = CalendarDay(year: int, month: int, day: int)

  type Today = d: CalendarDay | 1 <= d.year <= 9999 && 1 <= d.month <= 12 && 1 <= d.day <= 31
    witness CalendarDay(2000, 1, 1)

  /** `strftime("%Y%m%d")`: eight digits, year, month, day. */
  function DateStamp(d: Today): (r: string)
    ensures |r| == 8 && AllDigits(r)
    ensures DecimalValue(r[..4]) == d.year && DecimalValue(r[4..6]) == d.month && DecimalValue(r[6..]) == d.day
  {
    DecimalOfSmall(d.month);
    DecimalOfSmall(d.day);
    DecimalOfFourDigits(d.year);
    var y := ZeroPad(d.year, 4);
    var m := ZeroPad(d.month, 2);
    var dd := ZeroPad(d.day, 2);
    var r := y + m + dd;
    assert r[..4] == y && r[4..6] == m && r[6..] == dd;
    r
  }

  /** The receipt number `consult` assigns: "RCP-" + today's stamp + "-" +
      the appointment id padded to at least four digits. Its tail reads
      back as the id. */
  function ReceiptNumber(today: Today, id: nat): (r: string)
    ensures |r| == 13 + (if |Decimal(id)| < 4 then 4 else |Decimal(id)|)
    ensures r[..4] == "RCP-" && r[4..12] == DateStamp(today) && r[12] == '-'
    ensures AllDigits(r[13..]) && DecimalValue(r[13..]) == id
  {
    var r := "RCP-" + DateStamp(today) + "-" + ZeroPad(id, 4);
    assert r[13..] == ZeroPad(id, 4) && r[4..12] == DateStamp(today);
    r
  }

  /** Distinct appointments never get the same receipt number, whatever day
      each was completed on. */
  lemma ReceiptNumbersDistinct(d1: Today, d2: Today, i: nat, j: nat)
    requires i != j
    ensures ReceiptNumber(d1, i) != ReceiptNumber(d2, j)
  {
  }

  /** Appointment 5 gets "RCP-<stamp>-0005". */
  lemma ReceiptOfFive(today: Today)
    ensures ReceiptNumber(today, 5) == "RCP-" + DateStamp(today) + "-0005"
  {
    assert Decimal(5) == "5";
    assert Zeros(3) == "000";
  }

  /** The ad-hoc receipt number: the same prefix, then the number of
      receipts already issued plus one, padded to at least three digits. */
  function AdhocReceiptNumber(today: Today, issued: nat): (r: string)
    ensures |r| == 13 + (if |Decimal(issued + 1)| < 3 then 3 else |Decimal(issued + 1)|)
    ensures r[..4] == "RCP-" && r[4..12] == DateStamp(today) && r[12] == '-'
    ensures AllDigits(r[13..]) && DecimalValue(r[13..]) == issued + 1
  {
    var r := "RCP-" + DateStamp(today) + "-" + ZeroPad(issued + 1, 3);
    assert r[13..] == ZeroPad(issued + 1, 3) && r[4..12] == DateStamp(today);
    r
  }

  /** Visit receipts and ad-hoc receipts share one format, and the ad-hoc
      sequence counts every ad-hoc receipt ever issued: once 999 exist
      (issued on any days), the next one, issued on some day, reads exactly
      like the receipt of appointment 1000 completed that same day. */
  lemma AdhocAndVisitReceiptsCanCoincide(today: Today)
    ensures AdhocReceiptNumber(today, 999) == ReceiptNumber(today, 1000)
  {
    assert Decimal(1000) == "1000" by {
      assert Decimal(1) == "1" && Decimal(10) == "10" && Decimal(100) == "100";
    }
  }

  // ---------------------------------------------------------------------
  // The 12-hour cancellation rule
  // ---------------------------------------------------------------------

  const MicrosPerHour: int := 60 * 60 * 1000000

  /** `datetime.now() > dt - timedelta(hours=12)`, with both instants in
      microseconds: the appointment starts less than twelve hours from now,
      or has already started. */
  predicate TooLateToCancel(now: int, start: int) {
    now > start - 12 * MicrosPerHour
  }

  /** The rule in terms of the hours left: 11 hours ahead is too late, 13 is not. */
  lemma CancellationWindowExamples(now: int)
    ensures TooLateToCancel(now, now + 11 * MicrosPerHour)
    ensures !TooLateToCancel(now, now + 13 * MicrosPerHour)
    ensures forall start :: TooLateToCancel(now, start) <==> start < now + 12 * MicrosPerHour
  {
  }

  // ---------------------------------------------------------------------
  // Reports
  // ---------------------------------------------------------------------

  /** The request body of /reports/advanced; `None` is JSON null. */
  datatype ReportFilter = ReportFilter(
    startDate: Option<string>,
    endDate: Option<string>,
    doctorId: Option<int>,
    specialtyId: Option<int>,
    patientName: Option<string>)

  datatype ReportRow = ReportRow(
    id: int, date: string, time: string, doctor: string, specialty: string, patient: string,
    status: Status, fee: real, diagnosis: string, receipt: string)

  /** Python truthiness of an optional int and an optional string. */
  predicate IntSet(x: Option<int>) { x.Some? && x.value != 0 }
  predicate TextSet(x: Option<string>) { x.Some? && x.value != "" }

  /** The query's join and filters: the doctor row must exist (inner join);
      each filter applies only when it is truthy; the start date is compared
      as a string; an end date is accepted but never applied; the patient
      name filter drops records without a patient. */
  predicate Selected(f: ReportFilter, dir: Directory, a: Appointment) {
    && a.doctorId in dir.doctors
    && (IntSet(f.doctorId) ==> a.doctorId == f.doctorId.value)
    && (IntSet(f.specialtyId) ==> dir.doctors[a.doctorId].specialtyId == f.specialtyId)
    && (TextSet(f.startDate) ==> LexLe(f.startDate.value, a.date))
    && (TextSet(f.patientName) ==>
          a.patientId.Some? && a.patientId.value in dir.patients && dir.patients[a.patientId.value] == f.patientName.value)
  }

  function OrElse(x: Option<string>, default: string): string {
    if x.Some? then x.value else default
  }

  /** `charges or 0.0`. */
  function Fee(charges: Option<real>): real {
    if charges.Some? then charges.value else 0.0
  }

  function Row(id: int, a: Appointment, dir: Directory): ReportRow
    requires a.doctorId in dir.doctors
  {
    var doctor := dir.doctors[a.doctorId];
    var specialty :=
      if doctor.specialtyId.Some? && doctor.specialtyId.value in dir.specialties
      then dir.specialties[doctor.specialtyId.value] else "General";
    var patient :=
      if a.patientId.Some? && a.patientId.value in dir.patients
      then dir.patients[a.patientId.value] else "Blocked";
    ReportRow(id, a.date, a.time, doctor.name, specialty, patient, a.status, Fee(a.charges),
              OrElse(a.diagnosis, ""), OrElse(a.receiptNumber, ""))
  }

  /** Ids of the selected records below `bound`, in increasing order. */
  function ReportIds(appts: map<int, Appointment>, f: ReportFilter, dir: Directory, bound: int): seq<int>
    decreases bound
  {
    if bound <= 1 then []
    else
      var ids := ReportIds(appts, f, dir, bound - 1);
      if bound - 1 in appts && Selected(f, dir, appts[bound - 1]) then ids + [bound - 1] else ids
  }

  /** `ids` lists exactly the selected records below `bound`, each once, in
      increasing id order. */
  ghost predicate ExactlySelected(ids: seq<int>, appts: map<int, Appointment>, f: ReportFilter, dir: Directory, bound: int) {
    && (forall k :: 0 <= k < |ids| ==> 1 <= ids[k] < bound && ids[k] in appts && Selected(f, dir, appts[ids[k]]))
    && (forall id :: 1 <= id < bound && id in appts && Selected(f, dir, appts[id]) ==> id in ids)
    && (forall k, l :: 0 <= k < l < |ids| ==> ids[k] < ids[l])
  }

  /** The report lists exactly the selected records, in increasing id order. */
  lemma {:induction false} ReportIdsExact(appts: map<int, Appointment>, f: ReportFilter, dir: Directory, bound: int)
    ensures ExactlySelected(ReportIds(appts, f, dir, bound), appts, f, dir, bound)
    decreases bound
  {
    if bound > 1 {
      ReportIdsExact(appts, f, dir, bound - 1);
    }
  }

  /** The end date of the filter has no effect on the rows returned. */
  lemma {:induction false} ReportIgnoresEndDate(appts: map<int, Appointment>, f: ReportFilter, dir: Directory,
                                                bound: int, endDate: Option<string>)
    ensures ReportIds(appts, f.(endDate := endDate), dir, bound) == ReportIds(appts, f, dir, bound)
    decreases bound
  {
    if bound > 1 {
      ReportIgnoresEndDate(appts, f, dir, bound - 1, endDate);
    }
  }

  /** The filter as the request model and the admin screen intend it: a
      given end date also bounds the appointment date from above, as in the
      older generation. */
  predicate SelectedAsIntended(f: ReportFilter, dir: Directory, a: Appointment) {
    Selected(f, dir, a) && (TextSet(f.endDate) ==> LexLe(a.date, f.endDate.value))
  }

  /** With the end date applied, a range whose end lies before its start
      selects nothing. */
  lemma IntendedEmptyRangeSelectsNothing(f: ReportFilter, dir: Directory, a: Appointment)
    requires TextSet(f.startDate) && TextSet(f.endDate) && LexLess(f.endDate.value, f.startDate.value)
    ensures !SelectedAsIntended(f, dir, a)
  {
    LexLeEmptyRange(f.startDate.value, a.date, f.endDate.value);
  }

  /** 15 February 2024 lies after 1 January and after 31 January. */
  lemma ExampleDates(start: string, end: string, date: string)
    requires start == "2024-01-01" && end == "2024-01-31" && date == "2024-02-15"
    ensures LexLe(start, date) && !LexLe(date, end)
  {
    LexLessAt(start, date, 6);
    LexLessAt(end, date, 6);
    LexLessIrreflexive(date);
    if LexLess(date, end) {
      LexLessTransitive(date, end, date);
    }
  }

  /** As written, an appointment of 15 February is listed for the range
      1 to 31 January. */
  lemma EndDateIgnoredExample(f: ReportFilter, dir: Directory, a: Appointment)
    requires f == ReportFilter(Some("2024-01-01"), Some("2024-01-31"), None, None, None)
    requires dir == Directory(map[1 := DoctorRecord("Dr. A", None)], map[], map[])
    requires a == BlockRecord(1, "2024-02-15", "09:00")
    ensures Selected(f, dir, a) && !SelectedAsIntended(f, dir, a)
  {
    ExampleDates(f.startDate.value, f.endDate.value, a.date);
  }

  // ---------------------------------------------------------------------
  // The ledger object
  // ---------------------------------------------------------------------

  class Ledger {
    var appts: map<int, Appointment>
    var knowledge: seq<KnowledgeEntry>
    var adhoc: seq<AdhocReceipt>
    var nextId: int

    ghost predicate Valid()
      reads this
    {
      IdsBelow(appts, nextId)
    }

    constructor ()
      ensures Valid()
      ensures appts == map[] && knowledge == [] && adhoc == [] && nextId == 1
    {
      appts := map[];
      knowledge := [];
      adhoc := [];
      nextId := 1;
    }

    /** GET /calendar/slots: the records of one doctor on one date, keyed by time. */
    method Slots(doctorId: int, date: string, patients: map<int, string>) returns (res: map<string, SlotInfo>)
      requires Valid()
      ensures res == SlotView(appts, doctorId, date, patients, nextId)
    {
      res := map[];
      var id := 1;
      while id < nextId
        invariant 1 <= id <= nextId
        invariant res == SlotView(appts, doctorId, date, patients, id)
      {
        if id in appts && OnDay(appts[id], doctorId, date) {
          res := res[appts[id].time := Info(id, appts[id], patients)];
        }
        id := id + 1;
      }
    }

    /** POST /calendar/book. */
    method Book(patientId: int, doctorId: int, date: string, time: string, symptoms: string) returns (r: Outcome)
      requires Valid()
      modifies this
      ensures Valid() && knowledge == old(knowledge) && adhoc == old(adhoc)
      ensures DoctorSlotTaken(old(appts), doctorId, date, time) ==>
        r == Failed(DoctorBusy) && appts == old(appts) && nextId == old(nextId)
      ensures !DoctorSlotTaken(old(appts), doctorId, date, time) && PatientSlotTaken(old(appts), patientId, date, time) ==>
        r == Failed(AnotherAppointment) && appts == old(appts) && nextId == old(nextId)
      ensures !DoctorSlotTaken(old(appts), doctorId, date, time) && !PatientSlotTaken(old(appts), patientId, date, time) ==>
        r == Done && nextId == old(nextId) + 1 &&
        appts == old(appts)[old(nextId) := Booking(patientId, doctorId, date, time, symptoms)]
      ensures old(DoctorSlotsUnique(appts) && PatientSlotsUnique(appts)) ==>
        DoctorSlotsUnique(appts) && PatientSlotsUnique(appts)
    {
      if DoctorSlotTaken(appts, doctorId, date, time) {
        return Failed(DoctorBusy);
      }
      if PatientSlotTaken(appts, patientId, date, time) {
        return Failed(AnotherAppointment);
      }
      if DoctorSlotsUnique(appts) && PatientSlotsUnique(appts) {
        BookingKeepsUniqueness(appts, nextId, patientId, doctorId, date, time, symptoms);
      }
      appts := appts[nextId := Booking(patientId, doctorId, date, time, symptoms)];
      nextId := nextId + 1;
      r := Done;
    }

    /** POST /calendar/edit_symptom: rewrites the symptoms of a PENDING or
        CONFIRMED record; otherwise changes nothing. Always answers "Updated". */
    method EditSymptoms(id: int, newSymptoms: string)
      requires Valid()
      modifies this
      ensures Valid() && knowledge == old(knowledge) && adhoc == old(adhoc) && nextId == old(nextId)
      ensures appts ==
        if id in old(appts) && old(appts)[id].status in {Pending, Confirmed}
        then old(appts)[id := old(appts)[id].(symptoms := newSymptoms)]
        else old(appts)
      ensures old(DoctorSlotsUnique(appts) && PatientSlotsUnique(appts)) ==>
        DoctorSlotsUnique(appts) && PatientSlotsUnique(appts)
    {
      if id in appts && appts[id].status in {Pending, Confirmed} {
        var a := appts[id].(symptoms := newSymptoms);
        if DoctorSlotsUnique(appts) && PatientSlotsUnique(appts) {
          SameSlotKeepsUniqueness(appts, id, a);
        }
        appts := appts[id := a];
      }
    }

    /** POST /calendar/patient_cancel. The 12-hour check raises inside a
        `try` whose bare `except` swallows it (as it swallows a date that
        does not parse), so an existing record is deleted whatever the time.
        `parseStart` stands for `strptime` on the record's date and time. */
    method PatientCancel(id: int, now: int, parseStart: (string, string) -> Option<int>) returns (r: Outcome)
      requires Valid()
      modifies this
      ensures Valid() && knowledge == old(knowledge) && adhoc == old(adhoc) && nextId == old(nextId)
      ensures id !in old(appts) ==> r == Failed(NotFound) && appts == old(appts)
      ensures id in old(appts) ==> r == Done && appts == old(appts) - {id}
      ensures old(DoctorSlotsUnique(appts) && PatientSlotsUnique(appts)) ==>
        DoctorSlotsUnique(appts) && PatientSlotsUnique(appts)
    {
      if id !in appts {
        return Failed(NotFound);
      }
      var start := parseStart(appts[id].date, appts[id].time);
      var refused := start.Some? && TooLateToCancel(now, start.value);
      // The refusal is raised and caught on the spot: `refused` has no effect.
      appts := appts - {id};
      r := Done;
    }

    /** POST /calendar/action: "approve" sets CONFIRMED from any status,
        "cancel" deletes the record, any other action changes nothing. The
        reason is never stored. */
    method Action(id: int, action: string, reason: string) returns (r: Outcome)
      requires Valid()
      modifies this
      ensures Valid() && knowledge == old(knowledge) && adhoc == old(adhoc) && nextId == old(nextId)
      ensures id !in old(appts) ==> r == Failed(NotFound) && appts == old(appts)
      ensures id in old(appts) ==> r == Done
      ensures id in old(appts) ==>
        appts == (if action == "approve" then old(appts)[id := old(appts)[id].(status := Confirmed)]
                  else if action == "cancel" then old(appts) - {id}
                  else old(appts))
      ensures old(DoctorSlotsUnique(appts) && PatientSlotsUnique(appts)) ==>
        DoctorSlotsUnique(appts) && PatientSlotsUnique(appts)
    {
      if id !in appts {
        return Failed(NotFound);
      }
      if action == "approve" {
        var a := appts[id].(status := Confirmed);
        if DoctorSlotsUnique(appts) && PatientSlotsUnique(appts) {
          SameSlotKeepsUniqueness(appts, id, a);
        }
        appts := appts[id := a];
      } else if action == "cancel" {
        appts := appts - {id};
      }
      r := Done;
    }

    /** POST /calendar/block: adds a BLOCKED record without a patient and
        without checking whether the slot is already held. */
    method Block(doctorId: int, date: string, time: string) returns (r: Outcome)
      requires Valid()
      modifies this
      ensures Valid() && knowledge == old(knowledge) && adhoc == old(adhoc)
      ensures r == Done && nextId == old(nextId) + 1
      ensures appts == old(appts)[old(nextId) := BlockRecord(doctorId, date, time)]
      ensures DoctorSlotTaken(old(appts), doctorId, date, time) ==> !DoctorSlotsUnique(appts)
      ensures old(PatientSlotsUnique(appts)) ==> PatientSlotsUnique(appts)
    {
      if DoctorSlotTaken(appts, doctorId, date, time) {
        BlockOnTakenSlotBreaksUniqueness(appts, nextId, doctorId, date, time);
      }
      if PatientSlotsUnique(appts) {
        BlockKeepsPatientUniqueness(appts, nextId, doctorId, date, time);
      }
      appts := appts[nextId := BlockRecord(doctorId, date, time)];
      nextId := nextId + 1;
      r := Done;
    }

    /** POST /doctor/consult: completes the record whatever its status,
        files the clinical fields and the receipt number, and appends one
        knowledge entry. An unknown id, or a doctor missing from the
        directory, raises before anything is committed. */
    method Consult(id: int, diagnosis: string, notes: string, medications: string, charges: real,
                   today: Today, doctorNames: map<int, string>) returns (r: Outcome)
      requires Valid()
      modifies this
      ensures Valid() && adhoc == old(adhoc) && nextId == old(nextId)
      ensures id !in old(appts) ==> r == Failed(ServerError) && appts == old(appts) && knowledge == old(knowledge)
      ensures id in old(appts) && old(appts)[id].doctorId !in doctorNames ==>
        r == Failed(ServerError) && appts == old(appts) && knowledge == old(knowledge)
      ensures id in old(appts) && old(appts)[id].doctorId in doctorNames ==>
        var a := old(appts)[id];
        r == Done &&
        appts == old(appts)[id := a.(status := Completed, diagnosis := Some(diagnosis), doctorComments := Some(notes),
                                     medications := Some(medications), charges := Some(charges),
                                     receiptNumber := Some(ReceiptNumber(today, id)))] &&
        knowledge == old(knowledge) + [KnowledgeEntry(a.symptoms, diagnosis, notes, medications, doctorNames[a.doctorId])]
      ensures old(DoctorSlotsUnique(appts) && PatientSlotsUnique(appts)) ==>
        DoctorSlotsUnique(appts) && PatientSlotsUnique(appts)
    {
      if id !in appts || appts[id].doctorId !in doctorNames {
        return Failed(ServerError);
      }
      var a := appts[id];
      var receipt := ReceiptNumber(today, id);
      var done := a.(status := Completed, diagnosis := Some(diagnosis), doctorComments := Some(notes),
                     medications := Some(medications), charges := Some(charges), receiptNumber := Some(receipt));
      if DoctorSlotsUnique(appts) && PatientSlotsUnique(appts) {
        SameSlotKeepsUniqueness(appts, id, done);
      }
      appts := appts[id := done];
      knowledge := knowledge + [KnowledgeEntry(a.symptoms, diagnosis, notes, medications, doctorNames[a.doctorId])];
      r := Done;
    }

    /** POST /reports/advanced: the selected records as report rows, in id order. */
    method Reports(f: ReportFilter, dir: Directory) returns (rows: seq<ReportRow>)
      requires Valid()
      ensures var ids := ReportIds(appts, f, dir, nextId);
              forall k :: 0 <= k < |ids| ==> ids[k] in appts && Selected(f, dir, appts[ids[k]])
      ensures var ids := ReportIds(appts, f, dir, nextId);
              |rows| == |ids| && forall k :: 0 <= k < |ids| ==> rows[k] == Row(ids[k], appts[ids[k]], dir)
    {
      rows := [];
      var id := 1;
      ReportIdsExact(appts, f, dir, id);
      while id < nextId
        invariant 1 <= id <= nextId
        invariant var ids := ReportIds(appts, f, dir, id);
                  forall k :: 0 <= k < |ids| ==> ids[k] in appts && Selected(f, dir, appts[ids[k]])
        invariant var ids := ReportIds(appts, f, dir, id);
                  |rows| == |ids| && forall k :: 0 <= k < |ids| ==> rows[k] == Row(ids[k], appts[ids[k]], dir)
      {
        ReportIdsExact(appts, f, dir, id + 1);
        if id in appts && Selected(f, dir, appts[id]) {
          rows := rows + [Row(id, appts[id], dir)];
        }
        id := id + 1;
      }
    }

    /** POST /financial/adhoc: files a receipt numbered by the count of
        receipts already issued plus one, and answers with its row id. */
    method IssueAdhoc(recipient: string, description: string, amount: real,
                      today: Today, createdAt: string) returns (receiptId: int)
      requires Valid()
      modifies this
      ensures Valid() && appts == old(appts) && knowledge == old(knowledge) && nextId == old(nextId)
      ensures adhoc == old(adhoc) + [AdhocReceipt(AdhocReceiptNumber(today, |old(adhoc)|), recipient, description, amount, createdAt)]
      ensures receiptId == |adhoc|
    {
      adhoc := adhoc + [AdhocReceipt(AdhocReceiptNumber(today, |adhoc|), recipient, description, amount, createdAt)];
      receiptId := |adhoc|;
    }
  }
}
