/**
 How an appointment is chosen and written down. The program draws three `rand()`
 values: one picks a doctor modulo the number of doctors, one picks an hour from
 8 to 16, one picks the minute "00" or "30". The draws are parameters here. The
 chosen slot is written as `to_string(hour) + ":" + minute`, and the patient's
 reminder as "Appointment with Dr. " + doctor name + " at " + time + " for " +
 reason + ".".
 */
module Appointments {
  import opened Records
  import opened Digits

  const FIRST_HOUR: nat := 8
  const HOUR_CHOICES: nat := 9
  const REMINDER_PREFIX: string := "Appointment with Dr. "

  /** Raw non-negative results of the three `rand()` calls. */
  datatype Draws = Draws(doctor: nat, hour: nat, minute: nat)

  /** The appointment that scheduling reports back to the operator. */
  datatype Appointment = Appointment(doctor: Doctor, hour: nat, half: bool, reason: string)

  function ChooseDoctor(draw: nat, doctorCount: nat): (k: nat)
    requires doctorCount > 0
    ensures k < doctorCount
  {
    draw % doctorCount
  }

  function ChooseHour(draw: nat): (h: nat)
    ensures FIRST_HOUR <= h < FIRST_HOUR + HOUR_CHOICES
  {
    FIRST_HOUR + draw % HOUR_CHOICES
  }

  /** True when the minute is ":30", false for ":00": an even draw gives "00", an odd one "30". */
  function ChooseHalf(draw: nat): (half: bool)
    ensures MinuteText(half) == (if draw % 2 == 0 then "00" else "30")
  {
    draw % 2 != 0
  }

  /** Every doctor and every one of the 18 time slots is reachable by some draws. */
  lemma EveryChoiceReachable(doctorCount: nat, k: nat, h: nat, half: bool)
    requires k < doctorCount
    requires FIRST_HOUR <= h < FIRST_HOUR + HOUR_CHOICES
    ensures exists d: Draws ::
      ChooseDoctor(d.doctor, doctorCount) == k && ChooseHour(d.hour) == h && ChooseHalf(d.minute) == half
  {
    var d := Draws(k, h - FIRST_HOUR, if half then 1 else 0);
    assert ChooseDoctor(d.doctor, doctorCount) == k;
  }

  /** Draws that choose doctor `k`, hour `h` and minute `half`. */
  lemma WitnessDraws(doctorCount: nat, k: nat, h: nat, half: bool) returns (d: Draws)
    requires k < doctorCount
    requires FIRST_HOUR <= h < FIRST_HOUR + HOUR_CHOICES
    ensures ChooseDoctor(d.doctor, doctorCount) == k
    ensures ChooseHour(d.hour) == h
    ensures ChooseHalf(d.minute) == half
  {
    d := Draws(k, h - FIRST_HOUR, if half then 1 else 0);
  }

  function MinuteText(half: bool): (m: string)
    ensures |m| == 2 && AllDigits(m)
    ensures (m == "30") == half && (m == "00") == !half
  {
    if half then "30" else "00"
  }

  /** The time text of a slot: unpadded hour, a colon, two minute digits. */
  function SlotTime(hour: nat, half: bool): (t: string)
    ensures |t| == |ToString(hour)| + 3
    ensures t[|t| - 3] == ':'
  {
    ToString(hour) + ":" + MinuteText(half)
  }

  /** Reads a time text back into its hour and minute choice. */
  function ParseSlot(t: string): Option<(nat, bool)> {
    if |t| < 4 then None
    else
      var hourText := t[..|t| - 3];
      var minuteText := t[|t| - 2..];
      if t[|t| - 3] == ':' && IsCanonical(hourText) && (minuteText == "00" || minuteText == "30")
      then Some((ParseNat(hourText), minuteText == "30"))
      else None
  }

  lemma SlotTimeParses(hour: nat, half: bool)
    ensures ParseSlot(SlotTime(hour, half)) == Some((hour, half))
  {
    var t := SlotTime(hour, half);
    assert t[..|t| - 3] == ToString(hour);
    assert t[|t| - 2..] == MinuteText(half);
    ParseToString(hour);
  }

  lemma ParsedSlotPrints(t: string)
    requires ParseSlot(t).Some?
    ensures SlotTime(ParseSlot(t).value.0, ParseSlot(t).value.1) == t
  {
    var hourText := t[..|t| - 3];
    ToStringParse(hourText);
    assert t == hourText + ":" + t[|t| - 2..];
  }

  /** Distinct slots are written differently, so the 18 slots give 18 distinct texts. */
  lemma SlotTimeInjective(h1: nat, half1: bool, h2: nat, half2: bool)
    ensures SlotTime(h1, half1) == SlotTime(h2, half2) <==> h1 == h2 && half1 == half2
  {
    SlotTimeParses(h1, half1);
    SlotTimeParses(h2, half2);
  }

  /** An hour a draw can produce is written as one digit, or as "1" and one digit. */
  lemma HourText(hour: nat)
    requires FIRST_HOUR <= hour < FIRST_HOUR + HOUR_CHOICES
    ensures ToString(hour) == if hour < 10 then [DigitChar(hour)] else ['1', DigitChar(hour - 10)]
  {
    if hour >= 10 {
      assert hour / 10 == 1 && hour % 10 == hour - 10;
      assert ToString(1) == ['1'];
    }
  }

  /** The times a draw can produce, written out: the hour is not zero-padded. */
  lemma SlotTimesListed(hour: nat, half: bool)
    requires FIRST_HOUR <= hour < FIRST_HOUR + HOUR_CHOICES
    ensures SlotTime(hour, half) in
      {"8:00", "8:30", "9:00", "9:30", "10:00", "10:30", "11:00", "11:30", "12:00", "12:30",
       "13:00", "13:30", "14:00", "14:30", "15:00", "15:30", "16:00", "16:30"}
  {
    HourText(hour);
    var t := SlotTime(hour, half);
    if hour == 8 {
      assert t == if half then "8:30" else "8:00";
    } else if hour == 9 {
      assert t == if half then "9:30" else "9:00";
    } else if hour == 10 {
      assert t == if half then "10:30" else "10:00";
    } else if hour == 11 {
      assert t == if half then "11:30" else "11:00";
    } else if hour == 12 {
      assert t == if half then "12:30" else "12:00";
    } else if hour == 13 {
      assert t == if half then "13:30" else "13:00";
    } else if hour == 14 {
      assert t == if half then "14:30" else "14:00";
    } else if hour == 15 {
      assert t == if half then "15:30" else "15:00";
    } else {
      assert t == if half then "16:30" else "16:00";
    }
  }

  /**
   The reminder text: the fixed prefix, the doctor's name, " at ", the time, " for ",
   the reason, each at a position fixed by the lengths of the parts before it, then a
   full stop.
   */
  function ReminderText(doctorName: string, time: string, reason: string): (r: string)
    ensures |r| == |REMINDER_PREFIX| + |doctorName| + 4 + |time| + 5 + |reason| + 1
    ensures r[..|REMINDER_PREFIX|] == REMINDER_PREFIX
    ensures r[|REMINDER_PREFIX|..|REMINDER_PREFIX| + |doctorName|] == doctorName
    ensures r[|REMINDER_PREFIX| + |doctorName|..|REMINDER_PREFIX| + |doctorName| + 4] == " at "
    ensures r[|REMINDER_PREFIX| + |doctorName| + 4..|REMINDER_PREFIX| + |doctorName| + 4 + |time|] == time
    ensures r[|REMINDER_PREFIX| + |doctorName| + 4 + |time|..|r| - 1 - |reason|] == " for "
    ensures r[|r| - 1 - |reason|..|r| - 1] == reason
    ensures r[|r| - 1] == '.'
  {
    REMINDER_PREFIX + doctorName + " at " + time + " for " + reason + "."
  }

  /** For a given doctor and time, the reminder determines the reason and vice versa. */
  lemma ReminderDeterminesReason(doctorName: string, time: string, reason1: string, reason2: string)
    ensures ReminderText(doctorName, time, reason1) == ReminderText(doctorName, time, reason2)
            <==> reason1 == reason2
  {
    var r1 := ReminderText(doctorName, time, reason1);
    var r2 := ReminderText(doctorName, time, reason2);
    if r1 == r2 {
      assert reason1 == r1[|r1| - 1 - |reason1|..|r1| - 1];
    }
  }
}
