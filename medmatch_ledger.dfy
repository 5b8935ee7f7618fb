/** The appointment slot ledger of the older backend generation
    (medmatch/main.py). Same shape as the newer one, with fewer columns, no
    patient double-booking check, no receipt numbers and a report filter
    that honours an end date. */
module MedmatchLedger {
  import opened Common

  // ---------------------------------------------------------------------
  // Records
  // ---------------------------------------------------------------------

  /** One row of the `appointments` table; `None` stands for SQL NULL. */
  datatype Appointment = Appointment(
    patientId: Option<int>,
    doctorId: int,
    date: string,
    time: string,
    symptoms: string,
    status: Status,
    diagnosis: Option<string>,
    doctorComments: Option<string>,
    charges: Option<real>)

  /** One row of the `knowledge_base` table, written when a visit is completed. */
  datatype KnowledgeEntry = KnowledgeEntry(
    symptomText: string,
    diagnosis: string,
    treatmentPlan: string,
    doctorName: string)

  datatype DoctorRecord = DoctorRecord(name: string, specialtyId: Option<int>)

  /** The read-only doctor, patient and specialty tables, reduced to the
      columns the ledger's handlers read. */
  datatype Directory = Directory(
    doctors: map<int, DoctorRecord>,
    patients: map<int, string>,
    specialties: map<int, string>)

  /** The HTTP errors the handlers raise: 400 "Taken", 404 "Not found", and
      the 500 of an uncaught exception. */
  datatype Failure = Taken | NotFound | ServerError

  datatype Outcome = Done | Failed(failure: Failure)

  // ---------------------------------------------------------------------
  // Slot occupancy and the two uniqueness invariants
  // ---------------------------------------------------------------------

  predicate AtDoctorSlot(a: Appointment, doctorId: int, date: string, time: string) {
    a.doctorId == doctorId && a.date == date && a.time == time
  }

  predicate AtPatientSlot(a: Appointment, patientId: int, date: string, time: string) {
    a.patientId == Some(patientId) && a.date == date && a.time == time
  }

  /** Some record of any status holds (doctor, date, time). */
  predicate DoctorSlotTaken(appts: map<int, Appointment>, doctorId: int, date: string, time: string) {
    exists id | id in appts :: AtDoctorSlot(appts[id], doctorId, date, time)
  }

  /** The patient holds some record at (date, time), with any doctor. */
  predicate PatientSlotTaken(appts: map<int, Appointment>, patientId: int, date: string, time: string) {
    exists id | id in appts :: AtPatientSlot(appts[id], patientId, date, time)
  }

  /** At most one record per (doctor, date, time). */
  ghost predicate DoctorSlotsUnique(appts: map<int, Appointment>) {
    forall i, j :: i in appts && j in appts && i != j ==>
      !AtDoctorSlot(appts[j], appts[i].doctorId, appts[i].date, appts[i].time)
  }

  /** At most one record per (patient, date, time) among records with a patient. */
  ghost predicate PatientSlotsUnique(appts: map<int, Appointment>) {
    forall i, j :: i in appts && j in appts && i != j && appts[i].patientId.Some? ==>
      !AtPatientSlot(appts[j], appts[i].patientId.value, appts[i].date, appts[i].time)
  }

  /** Every id in use lies below the next id to be handed out. */
  ghost predicate IdsBelow(appts: map<int, Appointment>, nextId: int) {
    1 <= nextId && forall id :: id in appts ==> 1 <= id < nextId
  }

  /** The record `book_slot` inserts; its status is the column default. */
  function Booking(patientId: int, doctorId: int, date: string, time: string, symptoms: string): Appointment {
    Appointment(Some(patientId), doctorId, date, time, symptoms, Pending, None, None, None)
  }

  /** The record `block_slot` inserts. */
  function BlockRecord(doctorId: int, date: string, time: string): Appointment {
    Appointment(None, doctorId, date, time, "Doctor Blocked", Blocked, None, None, None)
  }

  /** A record whose doctor slot is free can be added under a fresh id
      without breaking doctor-slot uniqueness. */
  lemma InsertKeepsDoctorUniqueness(appts: map<int, Appointment>, id: int, a: Appointment)
    requires id !in appts
    requires !DoctorSlotTaken(appts, a.doctorId, a.date, a.time)
    requires DoctorSlotsUnique(appts)
    ensures DoctorSlotsUnique(appts[id := a])
  {
    var m := appts[id := a];
    forall i, j | i in m && j in m && i != j
      ensures !AtDoctorSlot(m[j], m[i].doctorId, m[i].date, m[i].time)
    {
      if i == id {
        assert !AtDoctorSlot(appts[j], a.doctorId, a.date, a.time);
      } else if j == id {
        assert !AtDoctorSlot(appts[i], a.doctorId, a.date, a.time);
      }
    }
  }

  /** `book_slot` checks only the doctor's slot: a patient who already holds
      (date, time) with another doctor gets a second record at that time. */
  lemma BookingMayDoubleBookPatient(appts: map<int, Appointment>, id: int,
                                    patientId: int, doctorId: int, date: string, time: string, symptoms: string)
    requires id !in appts
    requires PatientSlotTaken(appts, patientId, date, time)
    ensures !PatientSlotsUnique(appts[id := Booking(patientId, doctorId, date, time, symptoms)])
  {
    var other :| other in appts && AtPatientSlot(appts[other], patientId, date, time);
    var m := appts[id := Booking(patientId, doctorId, date, time, symptoms)];
    assert other in m && id in m && other != id && m[id].patientId.Some?;
    assert AtPatientSlot(m[other], m[id].patientId.value, m[id].date, m[id].time);
  }

  /** `block_slot` does no occupancy check: blocking a slot that some record
      already holds leaves two records at that (doctor, date, time). */
  lemma BlockOnTakenSlotBreaksUniqueness(appts: map<int, Appointment>, id: int, doctorId: int, date: string, time: string)
    requires id !in appts
    requires DoctorSlotTaken(appts, doctorId, date, time)
    ensures !DoctorSlotsUnique(appts[id := BlockRecord(doctorId, date, time)])
  {
    var other :| other in appts && AtDoctorSlot(appts[other], doctorId, date, time);
    var m := appts[id := BlockRecord(doctorId, date, time)];
    assert other in m && id in m && other != id;
    assert AtDoctorSlot(m[other], m[id].doctorId, m[id].date, m[id].time);
  }

  /** Adding a record without a patient never breaks patient uniqueness. */
  lemma PatientlessInsertKeepsPatientUniqueness(appts: map<int, Appointment>, id: int, a: Appointment)
    requires id !in appts && a.patientId.None? && PatientSlotsUnique(appts)
    ensures PatientSlotsUnique(appts[id := a])
  {
    var m := appts[id := a];
    forall i, j | i in m && j in m && i != j && m[i].patientId.Some?
      ensures !AtPatientSlot(m[j], m[i].patientId.value, m[i].date, m[i].time)
    {
      if j != id {
        assert i != id;
      }
    }
  }

  /** Changing fields other than patient, doctor, date and time keeps both invariants. */
  lemma SameSlotKeepsUniqueness(appts: map<int, Appointment>, id: int, a: Appointment)
    requires id in appts
    requires a.patientId == appts[id].patientId && a.doctorId == appts[id].doctorId
    requires a.date == appts[id].date && a.time == appts[id].time
    requires DoctorSlotsUnique(appts) && PatientSlotsUnique(appts)
    ensures DoctorSlotsUnique(appts[id := a]) && PatientSlotsUnique(appts[id := a])
  {
    var m := appts[id := a];
    forall i, j | i in m && j in m && i != j
      ensures !AtDoctorSlot(m[j], m[i].doctorId, m[i].date, m[i].time)
    {
      assert !AtDoctorSlot(appts[j], appts[i].doctorId, appts[i].date, appts[i].time);
    }
    forall i, j | i in m && j in m && i != j && m[i].patientId.Some?
      ensures !AtPatientSlot(m[j], m[i].patientId.value, m[i].date, m[i].time)
    {
      assert !AtPatientSlot(appts[j], appts[i].patientId.value, appts[i].date, appts[i].time);
    }
  }

  // ---------------------------------------------------------------------
  // The slot query
  // ---------------------------------------------------------------------

  /** What the calendar shows for one occupied slot (no cancellation reason
      in this generation). */
  datatype SlotInfo = SlotInfo(
    status: Status,
    id: int,
    patientId: Option<int>,
    patientName: string,
    symptom: string)

  /** A record's patient name, or "Blocked" when it has no patient row. */
  function PatientName(patientId: Option<int>, patients: map<int, string>): string {
    if patientId.Some? && patientId.value in patients then patients[patientId.value] else "Blocked"
  }

  function Info(id: int, a: Appointment, patients: map<int, string>): SlotInfo {
    SlotInfo(a.status, id, a.patientId, PatientName(a.patientId, patients), a.symptoms)
  }

  predicate OnDay(a: Appointment, doctorId: int, date: string) {
    a.doctorId == doctorId && a.date == date
  }

  /** The dictionary `get_slots` has built after visiting, in id order, the
      records with ids below `bound`: each record of that doctor on that
      date is written under its own time, a later one overwriting an
      earlier one. */
  function SlotView(appts: map<int, Appointment>, doctorId: int, date: string,
                    patients: map<int, string>, bound: int): map<string, SlotInfo>
    decreases bound
  {
    if bound <= 1 then map[]
    else
      var view := SlotView(appts, doctorId, date, patients, bound - 1);
      var id := bound - 1;
      if id in appts && OnDay(appts[id], doctorId, date) then
        view[appts[id].time := Info(id, appts[id], patients)]
      else view
  }

  /** Every entry of the view describes a record of that doctor on that date
      filed under its own time. */
  lemma {:induction false} SlotViewSound(appts: map<int, Appointment>, doctorId: int, date: string,
                                         patients: map<int, string>, bound: int, t: string)
    requires t in SlotView(appts, doctorId, date, patients, bound)
    ensures var view := SlotView(appts, doctorId, date, patients, bound);
            var id := view[t].id;
            1 <= id < bound && id in appts && OnDay(appts[id], doctorId, date) && appts[id].time == t &&
            view[t] == Info(id, appts[id], patients)
    decreases bound
  {
    var id := bound - 1;
    if !(id in appts && OnDay(appts[id], doctorId, date) && appts[id].time == t) {
      SlotViewSound(appts, doctorId, date, patients, bound - 1, t);
    }
  }

  /** Every record of that doctor on that date has its time in the view, and
      the entry shown there is the record with the largest id at that time. */
  lemma {:induction false} SlotViewComplete(appts: map<int, Appointment>, doctorId: int, date: string,
                                            patients: map<int, string>, bound: int, id: int)
    requires 1 <= id < bound && id in appts && OnDay(appts[id], doctorId, date)
    ensures var view := SlotView(appts, doctorId, date, patients, bound);
            appts[id].time in view && id <= view[appts[id].time].id
    decreases bound
  {
    if id < bound - 1 {
      SlotViewComplete(appts, doctorId, date, patients, bound - 1, id);
    }
  }

  /** Round trip: right after a successful `book_slot`, the slot query for
      that doctor and date shows the new PENDING record at the booked time. */
  lemma BookThenQuery(appts: map<int, Appointment>, nextId: int, patients: map<int, string>,
                      patientId: int, doctorId: int, date: string, time: string, symptoms: string)
    requires IdsBelow(appts, nextId)
    ensures var a := Booking(patientId, doctorId, date, time, symptoms);
            var view := SlotView(appts[nextId := a], doctorId, date, patients, nextId + 1);
            time in view && view[time].id == nextId && view[time].status == Pending &&
            view[time].patientId == Some(patientId) && view[time].symptom == symptoms
  {
    var m := appts[nextId := Booking(patientId, doctorId, date, time, symptoms)];
    SlotViewComplete(m, doctorId, date, patients, nextId + 1, nextId);
    SlotViewSound(m, doctorId, date, patients, nextId + 1, time);
  }

  // ---------------------------------------------------------------------
  // Reports
  // ---------------------------------------------------------------------

  /** The request body of /reports/advanced; `None` is JSON null. */
  datatype ReportFilter = ReportFilter(
    startDate: Option<string>,
    endDate: Option<string>,
    doctorId: Option<int>,
    specialtyId: Option<int>)

  datatype ReportRow = ReportRow(
    date: string, time: string, doctor: string, specialty: string, patient: string, status: Status, fee: real)

  /** Python truthiness of an optional int and an optional string. */
  predicate IntSet(x: Option<int>) { x.Some? && x.value != 0 }
  predicate TextSet(x: Option<string>) { x.Some? && x.value != "" }

  /** The query's join and filters: the doctor row must exist (inner join);
      each filter applies only when it is truthy; dates are compared as
      strings, both ends inclusive. */
  predicate Selected(f: ReportFilter, dir: Directory, a: Appointment) {
    && a.doctorId in dir.doctors
    && (IntSet(f.doctorId) ==> a.doctorId == f.doctorId.value)
    && (IntSet(f.specialtyId) ==> dir.doctors[a.doctorId].specialtyId == f.specialtyId)
    && (TextSet(f.startDate) ==> LexLe(f.startDate.value, a.date))
    && (TextSet(f.endDate) ==> LexLe(a.date, f.endDate.value))
  }

  /** `charges or 0.0`. */
  function Fee(charges: Option<real>): real {
    if charges.Some? then charges.value else 0.0
  }

  function Row(a: Appointment, dir: Directory): ReportRow
    requires a.doctorId in dir.doctors
  {
    var doctor := dir.doctors[a.doctorId];
    var specialty :=
      if doctor.specialtyId.Some? && doctor.specialtyId.value in dir.specialties
      then dir.specialties[doctor.specialtyId.value] else "Unknown";
    var patient :=
      if a.patientId.Some? && a.patientId.value in dir.patients
      then dir.patients[a.patientId.value] else "N/A (Blocked)";
    ReportRow(a.date, a.time, doctor.name, specialty, patient, a.status, Fee(a.charges))
  }

  /** Ids of the selected records below `bound`, in increasing order. */
  function ReportIds(appts: map<int, Appointment>, f: ReportFilter, dir: Directory, bound: int): seq<int>
    decreases bound
  {
    if bound <= 1 then []
    else
      var ids := ReportIds(appts, f, dir, bound - 1);
      if bound - 1 in appts && Selected(f, dir, appts[bound - 1]) then ids + [bound - 1] else ids
  }

  /** `ids` lists exactly the selected records below `bound`, each once, in
      increasing id order. */
  ghost predicate ExactlySelected(ids: seq<int>, appts: map<int, Appointment>, f: ReportFilter, dir: Directory, bound: int) {
    && (forall k :: 0 <= k < |ids| ==> 1 <= ids[k] < bound && ids[k] in appts && Selected(f, dir, appts[ids[k]]))
    && (forall id :: 1 <= id < bound && id in appts && Selected(f, dir, appts[id]) ==> id in ids)
    && (forall k, l :: 0 <= k < l < |ids| ==> ids[k] < ids[l])
  }

  /** The report lists exactly the selected records, in increasing id order. */
  lemma {:induction false} ReportIdsExact(appts: map<int, Appointment>, f: ReportFilter, dir: Directory, bound: int)
    ensures ExactlySelected(ReportIds(appts, f, dir, bound), appts, f, dir, bound)
    decreases bound
  {
    if bound > 1 {
      ReportIdsExact(appts, f, dir, bound - 1);
    }
  }

  /** A date range whose end lies strictly before its start selects nothing. */
  lemma EmptyDateRangeSelectsNothing(appts: map<int, Appointment>, f: ReportFilter, dir: Directory, bound: int)
    requires TextSet(f.startDate) && TextSet(f.endDate) && LexLess(f.endDate.value, f.startDate.value)
    ensures ReportIds(appts, f, dir, bound) == []
  {
    var ids := ReportIds(appts, f, dir, bound);
    ReportIdsExact(appts, f, dir, bound);
    if ids != [] {
      LexLeEmptyRange(f.startDate.value, appts[ids[0]].date, f.endDate.value);
    }
  }

  // ---------------------------------------------------------------------
  // The ledger object
  // ---------------------------------------------------------------------

  class Ledger {
    var appts: map<int, Appointment>
    var knowledge: seq<KnowledgeEntry>
    var nextId: int

    ghost predicate Valid()
      reads this
    {
      IdsBelow(appts, nextId)
    }

    constructor ()
      ensures Valid()
      ensures appts == map[] && knowledge == [] && nextId == 1
    {
      appts := map[];
      knowledge := [];
      nextId := 1;
    }

    /** GET /calendar/slots: the records of one doctor on one date, keyed by time. */
    method GetSlots(doctorId: int, date: string, patients: map<int, string>) returns (res: map<string, SlotInfo>)
      requires Valid()
      ensures res == SlotView(appts, doctorId, date, patients, nextId)
    {
      res := map[];
      var id := 1;
      while id < nextId
        invariant 1 <= id <= nextId
        invariant res == SlotView(appts, doctorId, date, patients, id)
      {
        if id in appts && OnDay(appts[id], doctorId, date) {
          res := res[appts[id].time := Info(id, appts[id], patients)];
        }
        id := id + 1;
      }
    }

    /** POST /calendar/book: "Taken" exactly when some record holds the
        doctor's slot; no check of the patient's other bookings. */
    method BookSlot(patientId: int, doctorId: int, date: string, time: string, symptoms: string) returns (r: Outcome)
      requires Valid()
      modifies this
      ensures Valid() && knowledge == old(knowledge)
      ensures DoctorSlotTaken(old(appts), doctorId, date, time) ==>
        r == Failed(Taken) && appts == old(appts) && nextId == old(nextId)
      ensures !DoctorSlotTaken(old(appts), doctorId, date, time) ==>
        r == Done && nextId == old(nextId) + 1 &&
        appts == old(appts)[old(nextId) := Booking(patientId, doctorId, date, time, symptoms)]
      ensures old(DoctorSlotsUnique(appts)) ==> DoctorSlotsUnique(appts)
    {
      if DoctorSlotTaken(appts, doctorId, date, time) {
        return Failed(Taken);
      }
      if DoctorSlotsUnique(appts) {
        InsertKeepsDoctorUniqueness(appts, nextId, Booking(patientId, doctorId, date, time, symptoms));
      }
      appts := appts[nextId := Booking(patientId, doctorId, date, time, symptoms)];
      nextId := nextId + 1;
      r := Done;
    }

    /** POST /calendar/action: "approve" sets CONFIRMED from any status,
        "cancel" deletes the record, any other action changes nothing. */
    method SlotAction(id: int, action: string) returns (r: Outcome)
      requires Valid()
      modifies this
      ensures Valid() && knowledge == old(knowledge) && nextId == old(nextId)
      ensures id !in old(appts) ==> r == Failed(NotFound) && appts == old(appts)
      ensures id in old(appts) ==> r == Done
      ensures id in old(appts) ==>
        appts == (if action == "approve" then old(appts)[id := old(appts)[id].(status := Confirmed)]
                  else if action == "cancel" then old(appts) - {id}
                  else old(appts))
      ensures old(DoctorSlotsUnique(appts) && PatientSlotsUnique(appts)) ==>
        DoctorSlotsUnique(appts) && PatientSlotsUnique(appts)
    {
      if id !in appts {
        return Failed(NotFound);
      }
      if action == "approve" {
        var a := appts[id].(status := Confirmed);
        if DoctorSlotsUnique(appts) && PatientSlotsUnique(appts) {
          SameSlotKeepsUniqueness(appts, id, a);
        }
        appts := appts[id := a];
      } else if action == "cancel" {
        appts := appts - {id};
      }
      r := Done;
    }

    /** POST /calendar/block: adds a BLOCKED record without a patient and
        without checking whether the slot is already held. */
    method BlockSlot(doctorId: int, date: string, time: string) returns (r: Outcome)
      requires Valid()
      modifies this
      ensures Valid() && knowledge == old(knowledge)
      ensures r == Done && nextId == old(nextId) + 1
      ensures appts == old(appts)[old(nextId) := BlockRecord(doctorId, date, time)]
      ensures DoctorSlotTaken(old(appts), doctorId, date, time) ==> !DoctorSlotsUnique(appts)
      ensures old(PatientSlotsUnique(appts)) ==> PatientSlotsUnique(appts)
    {
      if DoctorSlotTaken(appts, doctorId, date, time) {
        BlockOnTakenSlotBreaksUniqueness(appts, nextId, doctorId, date, time);
      }
      if PatientSlotsUnique(appts) {
        PatientlessInsertKeepsPatientUniqueness(appts, nextId, BlockRecord(doctorId, date, time));
      }
      appts := appts[nextId := BlockRecord(doctorId, date, time)];
      nextId := nextId + 1;
      r := Done;
    }

    /** POST /doctor/consult: completes the record whatever its status,
        files diagnosis, comments and charges (no receipt number) and appends
        one knowledge entry. An unknown id, or a doctor missing from the
        directory, raises before anything is committed. */
    method Consult(id: int, diagnosis: string, notes: string, charges: real,
                   doctorNames: map<int, string>) returns (r: Outcome)
      requires Valid()
      modifies this
      ensures Valid() && nextId == old(nextId)
      ensures id !in old(appts) ==> r == Failed(ServerError) && appts == old(appts) && knowledge == old(knowledge)
      ensures id in old(appts) && old(appts)[id].doctorId !in doctorNames ==>
        r == Failed(ServerError) && appts == old(appts) && knowledge == old(knowledge)
      ensures id in old(appts) && old(appts)[id].doctorId in doctorNames ==>
        var a := old(appts)[id];
        r == Done &&
        appts == old(appts)[id := a.(status := Completed, diagnosis := Some(diagnosis),
                                     doctorComments := Some(notes), charges := Some(charges))] &&
        knowledge == old(knowledge) + [KnowledgeEntry(a.symptoms, diagnosis, notes, doctorNames[a.doctorId])]
      ensures old(DoctorSlotsUnique(appts) && PatientSlotsUnique(appts)) ==>
        DoctorSlotsUnique(appts) && PatientSlotsUnique(appts)
    {
      if id !in appts || appts[id].doctorId !in doctorNames {
        return Failed(ServerError);
      }
      var a := appts[id];
      var done := a.(status := Completed, diagnosis := Some(diagnosis), doctorComments := Some(notes), charges := Some(charges));
      if DoctorSlotsUnique(appts) && PatientSlotsUnique(appts) {
        SameSlotKeepsUniqueness(appts, id, done);
      }
      appts := appts[id := done];
      knowledge := knowledge + [KnowledgeEntry(a.symptoms, diagnosis, notes, doctorNames[a.doctorId])];
      r := Done;
    }

    /** POST /reports/advanced: the selected records as report rows, in id order. */
    method AdvancedReports(f: ReportFilter, dir: Directory) returns (rows: seq<ReportRow>)
      requires Valid()
      ensures var ids := ReportIds(appts, f, dir, nextId);
              forall k :: 0 <= k < |ids| ==> ids[k] in appts && Selected(f, dir, appts[ids[k]])
      ensures var ids := ReportIds(appts, f, dir, nextId);
              |rows| == |ids| && forall k :: 0 <= k < |ids| ==> rows[k] == Row(appts[ids[k]], dir)
    {
      rows := [];
      var id := 1;
      ReportIdsExact(appts, f, dir, id);
      while id < nextId
        invariant 1 <= id <= nextId
        invariant var ids := ReportIds(appts, f, dir, id);
                  forall k :: 0 <= k < |ids| ==> ids[k] in appts && Selected(f, dir, appts[ids[k]])
        invariant var ids := ReportIds(appts, f, dir, id);
                  |rows| == |ids| && forall k :: 0 <= k < |ids| ==> rows[k] == Row(appts[ids[k]], dir)
      {
        ReportIdsExact(appts, f, dir, id + 1);
        if id in appts && Selected(f, dir, appts[id]) {
          rows := rows + [Row(appts[id], dir)];
        }
        id := id + 1;
      }
    }
  }
}
