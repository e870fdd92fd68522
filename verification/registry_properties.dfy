/**
 Properties relating the registry operations to the registry invariant and to each
 other: each operation preserves `Valid`, what one operation writes the next one
 reads back, later writes to the same fields replace earlier ones, and writes to
 different fields do not interfere.
 */
module RegistryProperties {
  import opened Records
  import opened Appointments
  import opened PatientRegistry

  /** Under the invariant, an id is valid exactly when some live patient carries it. */
  lemma ValidIdIffStored(reg: Registry, id: int)
    requires Valid(reg)
    ensures IsValidPatientId(id, reg.count) <==> exists i :: 0 <= i < reg.count && reg.slots[i].id == id
  {
    if IsValidPatientId(id, reg.count) {
      assert reg.slots[id - 1].id == id;
    }
  }

  /** Listing shows ids 1, 2, ..., count in that order. */
  lemma ListedIdsSequential(reg: Registry)
    requires Valid(reg)
    ensures forall i :: 0 <= i < |ListPatients(reg)| ==> ListPatients(reg)[i].id == i + 1
  {
  }

  /**
   The listing shows, without any password, the same history that the password gate
   guards: for every valid id, whatever password the gate would accept.
   */
  lemma ListingBypassesPassword(reg: Registry, id: int)
    requires WellFormed(reg)
    requires IsValidPatientId(id, reg.count)
    ensures ListPatients(reg)[id - 1].medicalHistory == reg.slots[id - 1].medicalHistory
    ensures AccessMedicalHistory(reg, id, reg.slots[id - 1].password)
            == Ok(ListPatients(reg)[id - 1].medicalHistory)
  {
  }

  /**
   The reminder listing shows the text scheduling wrote for the patient, and every
   other patient's reminder as it was.
   */
  lemma ScheduleShowsInReminders(reg: Registry, doctors: seq<Doctor>, id: int, reason: string,
                                 draws: Draws)
    requires WellFormed(reg)
    requires IsValidPatientId(id, reg.count)
    requires |doctors| > 0
    ensures var o := ScheduleAppointment(reg, doctors, id, reason, draws);
            var a := o.result.value;
      && ListReminders(o.after)[id - 1]
         == (reg.slots[id - 1].name, ReminderText(a.doctor.name, SlotTime(a.hour, a.half), reason))
      && forall i :: 0 <= i < reg.count && i != id - 1 ==>
           ListReminders(o.after)[i] == ListReminders(reg)[i]
  {
  }

  // Creating a patient

  lemma CreatePreservesValid(reg: Registry, name: string, age: int, contact: string,
                             history: string, password: string)
    requires Valid(reg)
    ensures Valid(CreatePatient(reg, name, age, contact, history, password).after)
  {
  }

  /**
   A created patient keeps the reminder its slot already held, which in a valid
   registry is the empty string, not the "No upcoming appointments." of the seeds.
   */
  lemma CreatedReminderIsEmpty(reg: Registry, name: string, age: int, contact: string,
                               history: string, password: string)
    requires Valid(reg)
    requires CreatePatient(reg, name, age, contact, history, password).result.Ok?
    ensures var o := CreatePatient(reg, name, age, contact, history, password);
      o.after.slots[reg.count].appointmentReminder == "" &&
      o.after.slots[reg.count].appointmentReminder != NO_APPOINTMENTS
  {
  }

  /** The password given at creation unlocks the history given at creation. */
  lemma CreateThenAccess(reg: Registry, name: string, age: int, contact: string,
                         history: string, password: string)
    requires Valid(reg)
    requires CreatePatient(reg, name, age, contact, history, password).result.Ok?
    ensures var o := CreatePatient(reg, name, age, contact, history, password);
      AccessMedicalHistory(o.after, o.result.value, password) == Ok(history)
  {
  }

  /**
   The age prompt and creation agree: below capacity, every answer the prompt skips
   would be refused as `InvalidAge` with nothing changed, and the answer it stops at
   creates the patient with that age.
   */
  lemma FirstValidAgeCreates(reg: Registry, name: string, answers: seq<int>, i: nat, contact: string,
                             history: string, password: string)
    requires Valid(reg)
    requires reg.count < MAX_PATIENTS
    requires i < |answers| && IsValidAge(answers[i])
    requires forall j :: 0 <= j < i ==> !IsValidAge(answers[j])
    ensures forall j :: 0 <= j < i ==>
      CreatePatient(reg, name, answers[j], contact, history, password) == Outcome(reg, Err(InvalidAge))
    ensures var o := CreatePatient(reg, name, answers[i], contact, history, password);
      o.result == Ok(reg.count + 1) && o.after.slots[reg.count].age == answers[i]
  {
  }

  /** Creating a patient is invisible to every patient that already existed. */
  lemma CreateKeepsExistingAccess(reg: Registry, name: string, age: int, contact: string,
                                  history: string, password: string, id: int, attempt: string)
    requires Valid(reg)
    requires IsValidPatientId(id, reg.count)
    ensures var o := CreatePatient(reg, name, age, contact, history, password);
      AccessMedicalHistory(o.after, id, attempt) == AccessMedicalHistory(reg, id, attempt)
  {
  }

  // Updating a patient

  lemma UpdatePreservesValid(reg: Registry, id: int, name: string, contact: string, history: string)
    requires Valid(reg)
    ensures Valid(UpdatePatient(reg, id, name, contact, history).after)
  {
  }

  /** After an update, the unchanged password unlocks the new history. */
  lemma UpdateThenAccess(reg: Registry, id: int, name: string, contact: string, history: string,
                         attempt: string)
    requires WellFormed(reg)
    requires IsValidPatientId(id, reg.count)
    ensures AccessMedicalHistory(UpdatePatient(reg, id, name, contact, history).after, id, attempt)
            == if attempt == reg.slots[id - 1].password then Ok(history) else Err(WrongPassword)
  {
  }

  /** Two updates of the same patient leave what the second alone would. */
  lemma UpdateLastWriteWins(reg: Registry, id: int, name1: string, contact1: string, history1: string,
                            name2: string, contact2: string, history2: string)
    requires WellFormed(reg)
    ensures var first := UpdatePatient(reg, id, name1, contact1, history1).after;
      UpdatePatient(first, id, name2, contact2, history2).after
      == UpdatePatient(reg, id, name2, contact2, history2).after
  {
  }

  // Scheduling an appointment

  lemma SchedulePreservesValid(reg: Registry, doctors: seq<Doctor>, id: int, reason: string, draws: Draws)
    requires Valid(reg)
    requires IsValidPatientId(id, reg.count) ==> |doctors| > 0
    ensures Valid(ScheduleAppointment(reg, doctors, id, reason, draws).after)
  {
  }

  /** Scheduling never changes what the history gate answers, for any patient. */
  lemma ScheduleKeepsAccess(reg: Registry, doctors: seq<Doctor>, id: int, reason: string, draws: Draws,
                            other: int, attempt: string)
    requires WellFormed(reg)
    requires IsValidPatientId(id, reg.count) ==> |doctors| > 0
    ensures var o := ScheduleAppointment(reg, doctors, id, reason, draws);
      AccessMedicalHistory(o.after, other, attempt) == AccessMedicalHistory(reg, other, attempt)
  {
  }

  /** The appointment scheduling reports is the one the three draws choose. */
  lemma ScheduleReportsDraws(reg: Registry, doctors: seq<Doctor>, id: int, reason: string, draws: Draws)
    requires WellFormed(reg)
    requires IsValidPatientId(id, reg.count)
    requires |doctors| > 0
    ensures ScheduleAppointment(reg, doctors, id, reason, draws).result
            == Ok(Appointment(doctors[ChooseDoctor(draws.doctor, |doctors|)], ChooseHour(draws.hour),
                              ChooseHalf(draws.minute), reason))
  {
  }

  /**
   Scheduling itself can produce every roster doctor at every one of the 18 slots:
   no appointment the menu could show is out of reach of the draws.
   */
  lemma ScheduleReachesEverySlot(reg: Registry, doctors: seq<Doctor>, id: int, reason: string,
                                 k: nat, hour: nat, half: bool)
    requires WellFormed(reg)
    requires IsValidPatientId(id, reg.count)
    requires k < |doctors|
    requires FIRST_HOUR <= hour < FIRST_HOUR + HOUR_CHOICES
    ensures exists d: Draws :: ScheduleAppointment(reg, doctors, id, reason, d).result
                               == Ok(Appointment(doctors[k], hour, half, reason))
  {
    var d := WitnessDraws(|doctors|, k, hour, half);
    ScheduleReportsDraws(reg, doctors, id, reason, d);
    assert ScheduleAppointment(reg, doctors, id, reason, d).result
           == Ok(Appointment(doctors[k], hour, half, reason));
  }

  /** A second appointment for the same patient replaces the first: no history is kept. */
  lemma ScheduleLastWriteWins(reg: Registry, doctors: seq<Doctor>, id: int,
                              reason1: string, draws1: Draws, reason2: string, draws2: Draws)
    requires WellFormed(reg)
    requires IsValidPatientId(id, reg.count) ==> |doctors| > 0
    ensures var first := ScheduleAppointment(reg, doctors, id, reason1, draws1).after;
      ScheduleAppointment(first, doctors, id, reason2, draws2).after
      == ScheduleAppointment(reg, doctors, id, reason2, draws2).after
  {
  }

  /** Updating and scheduling write disjoint fields, so their order does not matter. */
  lemma UpdateScheduleCommute(reg: Registry, doctors: seq<Doctor>, id1: int, name: string,
                              contact: string, history: string, id2: int, reason: string, draws: Draws)
    requires WellFormed(reg)
    requires IsValidPatientId(id2, reg.count) ==> |doctors| > 0
    ensures var u := UpdatePatient(reg, id1, name, contact, history).after;
            var s := ScheduleAppointment(reg, doctors, id2, reason, draws).after;
      ScheduleAppointment(u, doctors, id2, reason, draws).after
      == UpdatePatient(s, id1, name, contact, history).after
  {
    var u := UpdatePatient(reg, id1, name, contact, history).after;
    var s := ScheduleAppointment(reg, doctors, id2, reason, draws).after;
    var us := ScheduleAppointment(u, doctors, id2, reason, draws).after;
    var su := UpdatePatient(s, id1, name, contact, history).after;
    if IsValidPatientId(id1, reg.count) && IsValidPatientId(id2, reg.count) {
      assert us.slots == su.slots;
    }
  }
}
