/**
 The patient registry: a fixed array of `MAX_PATIENTS` patient slots of which the
 first `count` are live, and the operations the menu invokes on it. The writing
 operations (create, update, schedule) take the registry and the operator's inputs and
 return the registry after the call together with what the call reports; one that
 fails its guard returns the registry it was given. The reading operations (the
 history check and the listings) return only what they show.
 */
module PatientRegistry {
  import opened Records
  import opened Digits
  import opened Appointments

  datatype Registry = Registry(slots: seq<Patient>, count: int)

  /** What one operation leaves behind and what it reports. */
  datatype Outcome<T> = Outcome(after: Registry, result: Result<T>)

  /** The shape every caller maintains: the array has its capacity and `count` is in range. */
  predicate WellFormed(reg: Registry) {
    |reg.slots| == MAX_PATIENTS && 0 <= reg.count <= MAX_PATIENTS
  }

  /**
   The registry invariant: live slot `i` holds the patient with id `i + 1` and a valid
   age, and every slot past `count` is still the value-initialised record.
   */
  predicate Valid(reg: Registry) {
    && WellFormed(reg)
    && (forall i :: 0 <= i < reg.count ==> reg.slots[i].id == i + 1 && IsValidAge(reg.slots[i].age))
    && (forall i :: reg.count <= i < MAX_PATIENTS ==> reg.slots[i] == VACANT)
  }

  /** `after` differs from `before` in slot `k` at most. */
  predicate OnlySlotChanged(before: Registry, after: Registry, k: int) {
    && after.count == before.count
    && |after.slots| == |before.slots|
    && forall i :: 0 <= i < |before.slots| && i != k ==> after.slots[i] == before.slots[i]
  }

  /**
   The age prompt: the operator's answers are read in turn until one is valid. The
   result is the index of the accepted answer, or `|answers|` when none is.
   */
  method ReadAge(answers: seq<int>) returns (i: nat)
    ensures i <= |answers|
    ensures i < |answers| ==> IsValidAge(answers[i])
    ensures forall j :: 0 <= j < i ==> !IsValidAge(answers[j])
  {
    i := 0;
    while i < |answers| && !IsValidAge(answers[i])
      invariant i <= |answers|
      invariant forall j :: 0 <= j < i ==> !IsValidAge(answers[j])
    {
      i := i + 1;
    }
  }

  /**
   Adds a patient in slot `count` with id `count + 1`. A full registry, or an age the
   prompt would not accept, leaves the registry as it was. The new slot keeps the
   reminder that was already stored in it.
   */
  function CreatePatient(reg: Registry, name: string, age: int, contact: string,
                         history: string, password: string): (o: Outcome<int>)
    requires |reg.slots| == MAX_PATIENTS && 0 <= reg.count
    ensures reg.count >= MAX_PATIENTS ==> o == Outcome(reg, Err(CapacityFull))
    ensures reg.count < MAX_PATIENTS && !IsValidAge(age) ==> o == Outcome(reg, Err(InvalidAge))
    ensures o.result.Ok? <==> reg.count < MAX_PATIENTS && IsValidAge(age)
    ensures o.result.Ok? ==>
      && o.result.value == reg.count + 1
      && o.after.count == reg.count + 1
      && |o.after.slots| == |reg.slots|
      && (forall i :: 0 <= i < |reg.slots| && i != reg.count ==> o.after.slots[i] == reg.slots[i])
      && o.after.slots[reg.count].id == reg.count + 1
      && IsValidAge(o.after.slots[reg.count].age)
      && o.after.slots[reg.count].age == age
      && o.after.slots[reg.count].name == name
      && o.after.slots[reg.count].contact == contact
      && o.after.slots[reg.count].medicalHistory == history
      && o.after.slots[reg.count].password == password
      && o.after.slots[reg.count].appointmentReminder == reg.slots[reg.count].appointmentReminder
  {
    if reg.count >= MAX_PATIENTS then
      Outcome(reg, Err(CapacityFull))
    else if !IsValidAge(age) then
      Outcome(reg, Err(InvalidAge))
    else
      var p := reg.slots[reg.count].(id := reg.count + 1, name := name, age := age,
                                     contact := contact, medicalHistory := history,
                                     password := password);
      Outcome(Registry(reg.slots[reg.count := p], reg.count + 1), Ok(reg.count + 1))
  }

  /**
   Overwrites the name, contact and medical history of patient `id`. An invalid id
   leaves the registry as it was.
   */
  function UpdatePatient(reg: Registry, id: int, name: string, contact: string,
                         history: string): (o: Outcome<()>)
    requires WellFormed(reg)
    ensures !IsValidPatientId(id, reg.count) ==> o == Outcome(reg, Err(InvalidId))
    ensures IsValidPatientId(id, reg.count) ==>
      && o.result.Ok?
      && OnlySlotChanged(reg, o.after, id - 1)
      && o.after.slots[id - 1].name == name
      && o.after.slots[id - 1].contact == contact
      && o.after.slots[id - 1].medicalHistory == history
      && o.after.slots[id - 1].id == reg.slots[id - 1].id
      && o.after.slots[id - 1].age == reg.slots[id - 1].age
      && o.after.slots[id - 1].password == reg.slots[id - 1].password
      && o.after.slots[id - 1].appointmentReminder == reg.slots[id - 1].appointmentReminder
  {
    if !IsValidPatientId(id, reg.count) then
      Outcome(reg, Err(InvalidId))
    else
      var p := reg.slots[id - 1].(name := name, contact := contact, medicalHistory := history);
      Outcome(reg.(slots := reg.slots[id - 1 := p]), Ok(()))
  }

  /** One line of the patient listing: every field except the password and the reminder. */
  datatype PatientRow = PatientRow(id: int, name: string, age: int, contact: string, medicalHistory: string)

  /**
   The patient listing: one row per live patient, in slot (and so id) order. It shows
   each patient's medical history, and asks for no password.
   */
  function ListPatients(reg: Registry): (rows: seq<PatientRow>)
    requires WellFormed(reg)
    ensures |rows| == reg.count
    ensures forall i :: 0 <= i < reg.count ==>
      && rows[i].id == reg.slots[i].id
      && rows[i].name == reg.slots[i].name
      && rows[i].age == reg.slots[i].age
      && rows[i].contact == reg.slots[i].contact
      && rows[i].medicalHistory == reg.slots[i].medicalHistory
  {
    seq(reg.count, i requires 0 <= i < reg.count =>
      var p := reg.slots[i];
      PatientRow(p.id, p.name, p.age, p.contact, p.medicalHistory))
  }

  /** The name and reminder of each live patient, in slot order. */
  function ListReminders(reg: Registry): (rs: seq<(string, string)>)
    requires WellFormed(reg)
    ensures |rs| == reg.count
    ensures forall i :: 0 <= i < reg.count ==>
      rs[i] == (reg.slots[i].name, reg.slots[i].appointmentReminder)
  {
    seq(reg.count, i requires 0 <= i < reg.count => (reg.slots[i].name, reg.slots[i].appointmentReminder))
  }

  /**
   Schedules an appointment for patient `id`: the draws choose a doctor and a slot,
   and the patient's reminder is replaced by the text naming them and the reason.
   An invalid id leaves the registry as it was. The doctors are only consulted once
   the id is valid, so only then must there be at least one.
   */
  function ScheduleAppointment(reg: Registry, doctors: seq<Doctor>, id: int, reason: string,
                               draws: Draws): (o: Outcome<Appointment>)
    requires WellFormed(reg)
    requires IsValidPatientId(id, reg.count) ==> |doctors| > 0
    ensures !IsValidPatientId(id, reg.count) ==> o == Outcome(reg, Err(InvalidId))
    ensures IsValidPatientId(id, reg.count) ==>
      && o.result.Ok?
      && o.result.value.doctor in doctors
      && FIRST_HOUR <= o.result.value.hour < FIRST_HOUR + HOUR_CHOICES
      && o.result.value.reason == reason
      && OnlySlotChanged(reg, o.after, id - 1)
      && o.after.slots[id - 1] == reg.slots[id - 1].(appointmentReminder :=
           ReminderText(o.result.value.doctor.name,
                        SlotTime(o.result.value.hour, o.result.value.half), reason))
  {
    if !IsValidPatientId(id, reg.count) then
      Outcome(reg, Err(InvalidId))
    else
      var doctor := doctors[ChooseDoctor(draws.doctor, |doctors|)];
      var hour := ChooseHour(draws.hour);
      var half := ChooseHalf(draws.minute);
      var reminder := ReminderText(doctor.name, SlotTime(hour, half), reason);
      var p := reg.slots[id - 1].(appointmentReminder := reminder);
      Outcome(reg.(slots := reg.slots[id - 1 := p]), Ok(Appointment(doctor, hour, half, reason)))
  }

  /**
   Shows patient `id`'s medical history when `password` is exactly the stored one.
   The registry is only read.
   */
  function AccessMedicalHistory(reg: Registry, id: int, password: string): (r: Result<string>)
    requires WellFormed(reg)
    ensures r.Ok? <==> IsValidPatientId(id, reg.count) && password == reg.slots[id - 1].password
    ensures r.Ok? ==> r.value == reg.slots[id - 1].medicalHistory
    ensures !IsValidPatientId(id, reg.count) ==> r == Err(InvalidId)
    ensures IsValidPatientId(id, reg.count) && password != reg.slots[id - 1].password ==>
              r == Err(WrongPassword)
  {
    if !IsValidPatientId(id, reg.count) then Err(InvalidId)
    else if password == reg.slots[id - 1].password then Ok(reg.slots[id - 1].medicalHistory)
    else Err(WrongPassword)
  }
}
