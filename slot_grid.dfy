/** The fixed booking grid both frontends draw: from the 09:00 opening to
    the 17:00 closing in 30-minute steps, the closing time itself excluded. */
module SlotGrid {
  import opened Common

  const OpeningMinute: int := 9 * 60
  const ClosingMinute: int := 17 * 60
  const SlotMinutes: int := 30
  const SlotsPerDay: int := (ClosingMinute - OpeningMinute) / SlotMinutes

  /** Minute of the day at which the k-th slot starts. */
  function SlotMinute(k: int): int {
    OpeningMinute + SlotMinutes * k
  }

  /** "HH:MM" label of the k-th slot. */
  function SlotTime(k: int): string
    requires 0 <= k < SlotsPerDay
  {
    ClockText(SlotMinute(k))
  }

  /** Each label is a clock string naming the minute its slot starts at. */
  lemma SlotTimeReadsBack(k: int)
    requires 0 <= k < SlotsPerDay
    ensures IsClockText(SlotTime(k)) && ClockValue(SlotTime(k)) == SlotMinute(k)
  {
    ClockTextReadsBack(SlotMinute(k));
  }

  /** The grid has sixteen slots and runs from "09:00" to "16:30". */
  lemma GridEnds()
    ensures SlotsPerDay == 16
    ensures SlotTime(0) == "09:00" && SlotTime(SlotsPerDay - 1) == "16:30"
  {
    assert SlotsPerDay == 16;
    ClockTextDigits(540);
    assert DigitChar(0) == '0' && DigitChar(9) == '9';
    assert ClockText(540) == "09:00";
    ClockTextDigits(990);
    assert DigitChar(1) == '1' && DigitChar(6) == '6' && DigitChar(3) == '3';
    assert ClockText(990) == "16:30";
  }

  /** The closing time "17:00" is never offered. */
  lemma GridExcludesClosing(k: int)
    requires 0 <= k < SlotsPerDay
    ensures SlotTime(k) != "17:00"
  {
    if SlotTime(k) == "17:00" {
      SlotTimeReadsBack(k);
    }
  }

  /** Consecutive slots are exactly thirty minutes apart. */
  lemma GridStep(k: int)
    requires 0 < k < SlotsPerDay
    ensures IsClockText(SlotTime(k)) && IsClockText(SlotTime(k - 1))
    ensures ClockValue(SlotTime(k)) == ClockValue(SlotTime(k - 1)) + SlotMinutes
  {
    SlotTimeReadsBack(k);
    SlotTimeReadsBack(k - 1);
  }

  /** Slots alternate between the full and the half hour. */
  lemma SlotMinuteOfHour(k: int)
    requires 0 <= k
    ensures SlotMinute(k) % 60 == if k % 2 == 0 then 0 else 30
  {
    assert SlotMinute(k) == 60 * (9 + k / 2) + (if k % 2 == 0 then 0 else 30);
  }

  /** Every slot label shows minutes "00" or "30". */
  lemma GridMinutes(k: int)
    requires 0 <= k < SlotsPerDay
    ensures SlotTime(k)[3..] == "00" || SlotTime(k)[3..] == "30"
  {
    var m := SlotMinute(k);
    SlotMinuteOfHour(k);
    ClockTextMinutes(m);
    TwoDigitPad(m % 60);
    assert DigitChar(0) == '0' && DigitChar(3) == '3';
  }
}
