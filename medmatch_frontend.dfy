/** The booking calendar of the older frontend (medmatch/frontend.py): the
    list of slot times it draws, and the card it shows for each slot given
    the backend's slot dictionary. */
module MedmatchFrontend {
  import opened Common
  import opened SlotGrid
  import opened MedmatchLedger

  /** `get_time_slots`: step a clock from 09:00 by 30 minutes while it is
      before 17:00, collecting its "HH:MM" text. */
  method GetTimeSlots() returns (slots: seq<string>)
    ensures |slots| == SlotsPerDay
    ensures forall k | 0 <= k < |slots| :: slots[k] == SlotTime(k)
  {
    slots := [];
    var start := OpeningMinute;
    while start < ClosingMinute
      invariant OpeningMinute <= start <= ClosingMinute
      invariant start == SlotMinute(|slots|)
      invariant forall k | 0 <= k < |slots| :: slots[k] == SlotTime(k)
    {
      slots := slots + [ClockText(start)];
      start := start + SlotMinutes;
    }
  }

  /** The four cards a slot can show. */
  datatype Card = OpenCard | MyRequestCard | PendingCard | BusyCard

  /** `slots.get(time)`. */
  function Lookup(view: map<string, SlotInfo>, time: string): Option<SlotInfo> {
    if time in view then Some(view[time]) else None
  }

  /** The card for one slot: open (with a Book button) when the dictionary
      has no entry; for a PENDING entry "My Req" if it is the user's own
      request and "Pending" otherwise; "Busy" for every other status. */
  function SlotCard(info: Option<SlotInfo>, userId: int): (c: Card)
    ensures c == OpenCard <==> info.None?
    ensures c == MyRequestCard <==> info.Some? && info.value.status == Pending && info.value.patientId == Some(userId)
    ensures c == BusyCard <==> info.Some? && info.value.status != Pending
  {
    match info
    case None => OpenCard
    case Some(i) =>
      if i.status == Pending then (if i.patientId == Some(userId) then MyRequestCard else PendingCard)
      else BusyCard
  }

  /** A slot is offered for booking exactly when `book_slot` would accept it:
      no record of that doctor, date and time exists. */
  lemma OpenExactlyWhenBookable(appts: map<int, Appointment>, nextId: int, patients: map<int, string>,
                                doctorId: int, date: string, time: string, userId: int)
    requires IdsBelow(appts, nextId)
    ensures SlotCard(Lookup(SlotView(appts, doctorId, date, patients, nextId), time), userId) == OpenCard
            <==> !DoctorSlotTaken(appts, doctorId, date, time)
  {
    var view := SlotView(appts, doctorId, date, patients, nextId);
    if time in view {
      SlotViewSound(appts, doctorId, date, patients, nextId, time);
      var id := view[time].id;
      assert AtDoctorSlot(appts[id], doctorId, date, time);
    }
    if DoctorSlotTaken(appts, doctorId, date, time) {
      var id :| id in appts && AtDoctorSlot(appts[id], doctorId, date, time);
      SlotViewComplete(appts, doctorId, date, patients, nextId, id);
    }
  }

  /** Right after a patient's booking succeeds, the calendar shows them that
      slot as "My Req"; any other patient sees "Pending". */
  lemma BookedSlotShowsMyRequest(appts: map<int, Appointment>, nextId: int, patients: map<int, string>,
                                 patientId: int, doctorId: int, date: string, time: string, symptoms: string,
                                 otherUser: int)
    requires IdsBelow(appts, nextId) && otherUser != patientId
    ensures var view := SlotView(appts[nextId := Booking(patientId, doctorId, date, time, symptoms)],
                                 doctorId, date, patients, nextId + 1);
            SlotCard(Lookup(view, time), patientId) == MyRequestCard &&
            SlotCard(Lookup(view, time), otherUser) == PendingCard
  {
    BookThenQuery(appts, nextId, patients, patientId, doctorId, date, time, symptoms);
  }
}
