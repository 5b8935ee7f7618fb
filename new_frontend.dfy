/** The booking calendar and visit lists of the newer frontend
    (new/frontend.py): the slot list with its "past" flag, the card each
    slot shows, and the split of a patient's report rows into active visits
    and history. */
module NewFrontend {
  import opened Common
  import opened SlotGrid
  import opened NewLedger

  // ---------------------------------------------------------------------
  // Time: instants are microseconds counted from midnight of day 0, and a
  // date is its day number
  // ---------------------------------------------------------------------

  const MicrosPerMinute: int := 60_000_000
  const MicrosPerDay: int := 86_400_000_000

  /** `datetime.combine(day, minute of day)`. */
  function Instant(day: int, minute: int): int {
    day * 86_400_000_000 + minute * 60_000_000
  }

  /** The `k`-th slot of the selected day starts strictly before now. */
  predicate SlotIsPast(selDay: int, now: int, k: int) {
    Instant(selDay, SlotMinute(k)) < now
  }

  datatype SlotEntry = SlotEntry(time: string, isPast: bool)

  /** `get_slots`: the grid from 09:00 in 30-minute steps before 17:00, each
      entry flagged past when its start on the selected day is before now. */
  method GetSlots(selDay: int, now: int) returns (s: seq<SlotEntry>)
    ensures |s| == SlotsPerDay
    ensures forall k | 0 <= k < |s| :: s[k].time == SlotTime(k)
    ensures forall k | 0 <= k < |s| :: s[k].isPast <==> SlotIsPast(selDay, now, k)
  {
    s := [];
    var t := OpeningMinute;
    while t < ClosingMinute
      invariant OpeningMinute <= t <= ClosingMinute
      invariant t == SlotMinute(|s|)
      invariant forall k | 0 <= k < |s| :: s[k].time == SlotTime(k)
      invariant forall k | 0 <= k < |s| :: s[k].isPast <==> SlotIsPast(selDay, now, k)
    {
      var isPast := false;
      if Instant(selDay, t) < now {
        isPast := true;
      }
      assert |s| < SlotsPerDay && ClockText(t) == SlotTime(|s|);
      ghost var before := s;
      s := s + [SlotEntry(ClockText(t), isPast)];
      forall k | 0 <= k < |s|
        ensures s[k].time == SlotTime(k)
        ensures s[k].isPast <==> SlotIsPast(selDay, now, k)
      {
        if k < |before| {
          assert s[k] == before[k];
        }
      }
      t := t + SlotMinutes;
    }
  }

  /** A later slot starts later: the past entries form a prefix of the list. */
  lemma PastSlotsFormPrefix(selDay: int, now: int, j: int, k: int)
    requires 0 <= j <= k < SlotsPerDay && SlotIsPast(selDay, now, k)
    ensures SlotIsPast(selDay, now, j)
  {
  }

  /** Every slot of a day after today is in the future. */
  lemma LaterDayHasNoPast(selDay: int, now: int, k: int)
    requires 0 <= k < SlotsPerDay && selDay > now / MicrosPerDay
    ensures !SlotIsPast(selDay, now, k)
  {
    var today := now / MicrosPerDay;
    assert now < (today + 1) * MicrosPerDay;
    assert selDay * MicrosPerDay >= (today + 1) * MicrosPerDay;
  }

  /** Every slot of a day before today is in the past. */
  lemma EarlierDayIsAllPast(selDay: int, now: int, k: int)
    requires 0 <= k < SlotsPerDay && selDay < now / MicrosPerDay
    ensures SlotIsPast(selDay, now, k)
  {
    var today := now / MicrosPerDay;
    assert today * MicrosPerDay <= now;
    assert (selDay + 1) * MicrosPerDay <= today * MicrosPerDay;
  }

  // ---------------------------------------------------------------------
  // Slot cards
  // ---------------------------------------------------------------------

  datatype Card = PastCard | OpenCard | MyRequestCard | BusyCard

  /** `sl.get(t)`. */
  function Lookup(view: map<string, SlotInfo>, time: string): Option<SlotInfo> {
    if time in view then Some(view[time]) else None
  }

  /** The card for one slot: "Past" first, then "Open" when the dictionary has
      no entry, then "My Req" for the user's own PENDING request and "Busy"
      for anything else. */
  function SlotCard(entry: SlotEntry, info: Option<SlotInfo>, userId: int): (c: Card)
    ensures c == PastCard <==> entry.isPast
    ensures c == OpenCard <==> !entry.isPast && info.None?
  {
    if entry.isPast then PastCard
    else match info
      case None => OpenCard
      case Some(i) => if i.patientId == Some(userId) && i.status == Pending then MyRequestCard else BusyCard
  }

  /** An occupied future slot shows "My Req" exactly for the user's own
      PENDING request: a CONFIRMED one, or someone else's, shows "Busy". */
  lemma OccupiedSlotCard(entry: SlotEntry, i: SlotInfo, userId: int)
    requires !entry.isPast
    ensures SlotCard(entry, Some(i), userId) == MyRequestCard <==> i.patientId == Some(userId) && i.status == Pending
    ensures SlotCard(entry, Some(i), userId) == BusyCard <==> !(i.patientId == Some(userId) && i.status == Pending)
  {
  }

  /** A future slot is offered exactly when `book` would not answer
      "Doctor Busy". */
  lemma OpenExactlyWhenDoctorFree(appts: map<int, Appointment>, nextId: int, patients: map<int, string>,
                                  doctorId: int, date: string, entry: SlotEntry, userId: int)
    requires IdsBelow(appts, nextId) && !entry.isPast
    ensures SlotCard(entry, Lookup(SlotView(appts, doctorId, date, patients, nextId), entry.time), userId) == OpenCard
            <==> !DoctorSlotTaken(appts, doctorId, date, entry.time)
  {
    var view := SlotView(appts, doctorId, date, patients, nextId);
    var time := entry.time;
    if time in view {
      SlotViewSound(appts, doctorId, date, patients, nextId, time);
      var id := view[time].id;
      assert AtDoctorSlot(appts[id], doctorId, date, time);
    }
    if DoctorSlotTaken(appts, doctorId, date, time) {
      var id :| id in appts && AtDoctorSlot(appts[id], doctorId, date, time);
      SlotViewComplete(appts, doctorId, date, patients, nextId, id);
    }
  }

  /** Right after a patient books a future slot, they see it as "My Req"
      and every other user sees "Busy". */
  lemma BookedSlotShowsMyRequest(appts: map<int, Appointment>, nextId: int, patients: map<int, string>,
                                 patientId: int, doctorId: int, date: string, symptoms: string,
                                 entry: SlotEntry, otherUser: int)
    requires IdsBelow(appts, nextId) && !entry.isPast && otherUser != patientId
    ensures var view := SlotView(appts[nextId := Booking(patientId, doctorId, date, entry.time, symptoms)],
                                 doctorId, date, patients, nextId + 1);
            SlotCard(entry, Lookup(view, entry.time), patientId) == MyRequestCard &&
            SlotCard(entry, Lookup(view, entry.time), otherUser) == BusyCard
  {
    BookThenQuery(appts, nextId, patients, patientId, doctorId, date, entry.time, symptoms);
  }

  // ---------------------------------------------------------------------
  // Active visits and history
  // ---------------------------------------------------------------------

  /** The rows whose status lies in `keep`, in their original order
      (a list comprehension with a membership test). */
  function Filter(rows: seq<ReportRow>, keep: set<Status>): (r: seq<ReportRow>)
    ensures |r| <= |rows|
    ensures forall x :: x in r <==> x in rows && x.status in keep
    decreases |rows|
  {
    if rows == [] then []
    else (if rows[0].status in keep then [rows[0]] else []) + Filter(rows[1..], keep)
  }

  /** Rows still to come: PENDING or CONFIRMED. */
  function Active(rows: seq<ReportRow>): seq<ReportRow> {
    Filter(rows, {Pending, Confirmed})
  }

  /** Visits already held: COMPLETED. */
  function History(rows: seq<ReportRow>): seq<ReportRow> {
    Filter(rows, {Completed})
  }

  /** Filtering commutes with concatenation, so the relative order of the
      kept rows is the input order. */
  lemma {:induction false} FilterAppend(a: seq<ReportRow>, b: seq<ReportRow>, keep: set<Status>)
    ensures Filter(a + b, keep) == Filter(a, keep) + Filter(b, keep)
    decreases |a|
  {
    if a != [] {
      var head := if a[0].status in keep then [a[0]] else [];
      assert (a + b)[0] == a[0] && (a + b)[1..] == a[1..] + b;
      assert Filter(a + b, keep) == head + Filter(a[1..] + b, keep);
      FilterAppend(a[1..], b, keep);
      assert Filter(a, keep) == head + Filter(a[1..], keep);
    } else {
      assert a + b == b;
    }
  }

  /** A row is active exactly when it is PENDING or CONFIRMED, in history
      exactly when it is COMPLETED, so no row is in both and BLOCKED rows are
      in neither. */
  lemma ActiveHistorySplit(rows: seq<ReportRow>, x: ReportRow)
    ensures x in Active(rows) <==> x in rows && (x.status == Pending || x.status == Confirmed)
    ensures x in History(rows) <==> x in rows && x.status == Completed
    ensures !(x in Active(rows) && x in History(rows))
    ensures x.status == Blocked ==> x !in Active(rows) && x !in History(rows)
  {
  }

  /** Active and history together hold every row that is not BLOCKED, counted
      with multiplicity. */
  lemma {:induction false} ActiveHistoryCover(rows: seq<ReportRow>)
    ensures |Active(rows)| + |History(rows)| == |Filter(rows, {Pending, Confirmed, Completed})|
    decreases |rows|
  {
    if rows != [] {
      ActiveHistoryCover(rows[1..]);
    }
  }
}
