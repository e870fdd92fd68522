/**
 The state the program starts in: 35 patients with ids 1 to 35, the remaining 15
 slots value-initialised, and 8 doctors.
 */
module Seed {
  import opened Records
  import opened Appointments
  import opened PatientRegistry
  import opened Session

  const SEED_PATIENTS: seq<Patient> := [
    Patient(1, "John Doe", 45, "123-456-7890", "Diabetes", "password1", NO_APPOINTMENTS),
    Patient(2, "Jane Smith", 30, "234-567-8901", "Hypertension", "password2", NO_APPOINTMENTS),
    Patient(3, "Alice Johnson", 25, "345-678-9012", "Asthma", "password3", NO_APPOINTMENTS),
    Patient(4, "Bob Brown", 60, "456-789-0123", "Arthritis", "password4", NO_APPOINTMENTS),
    Patient(5, "Charlie Wilson", 50, "567-890-1234", "Heart Disease", "password5", NO_APPOINTMENTS),
    Patient(6, "Diana Green", 35, "678-901-2345", "Migraines", "password6", NO_APPOINTMENTS),
    Patient(7, "Ethan White", 40, "789-012-3456", "High Cholesterol", "password7", NO_APPOINTMENTS),
    Patient(8, "Fiona Black", 55, "890-123-4567", "Thyroid Issues", "password8", NO_APPOINTMENTS),
    Patient(9, "George Lee", 28, "901-234-5678", "Allergies", "password9", NO_APPOINTMENTS),
    Patient(10, "Hannah Adams", 33, "012-345-6789", "Back Pain", "password10", NO_APPOINTMENTS),
    Patient(11, "Ian Carter", 45, "123-456-7891", "Diabetes", "password11", NO_APPOINTMENTS),
    Patient(12, "Jack Taylor", 65, "234-567-8902", "Hypertension", "password12", NO_APPOINTMENTS),
    Patient(13, "Karen Miller", 29, "345-678-9013", "Asthma", "password13", NO_APPOINTMENTS),
    Patient(14, "Laura Hall", 48, "456-789-0124", "Arthritis", "password14", NO_APPOINTMENTS),
    Patient(15, "Mike Evans", 53, "567-890-1235", "Heart Disease", "password15", NO_APPOINTMENTS),
    Patient(16, "Nina Brown", 26, "678-901-2346", "Migraines", "password16", NO_APPOINTMENTS),
    Patient(17, "Oscar Green", 31, "789-012-3457", "High Cholesterol", "password17", NO_APPOINTMENTS),
    Patient(18, "Paula White", 59, "890-123-4568", "Thyroid Issues", "password18", NO_APPOINTMENTS),
    Patient(19, "Quinn Black", 44, "901-234-5679", "Allergies", "password19", NO_APPOINTMENTS),
    Patient(20, "Rachel Lee", 36, "012-345-6780", "Back Pain", "password20", NO_APPOINTMENTS),
    Patient(21, "Sam Adams", 52, "123-456-7892", "Diabetes", "password21", NO_APPOINTMENTS),
    Patient(22, "Tina Carter", 27, "234-567-8903", "Hypertension", "password22", NO_APPOINTMENTS),
    Patient(23, "Uma Taylor", 42, "345-678-9014", "Asthma", "password23", NO_APPOINTMENTS),
    Patient(24, "Victor Miller", 58, "456-789-0125", "Arthritis", "password24", NO_APPOINTMENTS),
    Patient(25, "Wendy Hall", 47, "567-890-1236", "Heart Disease", "password25", NO_APPOINTMENTS),
    Patient(26, "Xander Evans", 39, "678-901-2347", "Migraines", "password26", NO_APPOINTMENTS),
    Patient(27, "Yara Brown", 34, "789-012-3458", "High Cholesterol", "password27", NO_APPOINTMENTS),
    Patient(28, "Zack Green", 49, "890-123-4569", "Thyroid Issues", "password28", NO_APPOINTMENTS),
    Patient(29, "Amber Black", 41, "901-234-5670", "Allergies", "password29", NO_APPOINTMENTS),
    Patient(30, "Brian Lee", 38, "012-345-6781", "Back Pain", "password30", NO_APPOINTMENTS),
    Patient(31, "Julia Wood", 60, "101-202-3033", "Cancer", "password31", NO_APPOINTMENTS),
    Patient(32, "Leo King", 70, "202-303-4044", "Stroke", "password32", NO_APPOINTMENTS),
    Patient(33, "Mona Ray", 28, "303-404-5055", "Flu", "password33", NO_APPOINTMENTS),
    Patient(34, "Nancy Hill", 45, "404-505-6066", "Diabetes", "password34", NO_APPOINTMENTS),
    Patient(35, "Oscar Knight", 60, "505-606-7077", "Hypertension", "password35", NO_APPOINTMENTS)
  ]

  const SEED_DOCTORS: seq<Doctor> := [
    Doctor("Dr. Smith", "Cardiology"),
    Doctor("Dr. Brown", "Neurology"),
    Doctor("Dr. Lee", "Orthopedics"),
    Doctor("Dr. Wilson", "Dermatology"),
    Doctor("Dr. Green", "Pediatrics"),
    Doctor("Dr. Carter", "Oncology"),
    Doctor("Dr. Adams", "Psychiatry"),
    Doctor("Dr. Taylor", "ENT")
  ]

  /** The registry at start-up: the seed patients, then value-initialised slots. */
  function SeedRegistry(): Registry {
    Registry(SEED_PATIENTS + seq(MAX_PATIENTS - |SEED_PATIENTS|, _ => VACANT), |SEED_PATIENTS|)
  }

  /** Seed `i` carries id `i + 1`, a valid age and the "no appointments" reminder. */
  lemma SeedPatientsNumbered()
    ensures |SEED_PATIENTS| == 35
    ensures forall i :: 0 <= i < |SEED_PATIENTS| ==>
      && SEED_PATIENTS[i].id == i + 1
      && IsValidAge(SEED_PATIENTS[i].age)
      && SEED_PATIENTS[i].appointmentReminder == NO_APPOINTMENTS
  {
  }

  lemma SeedValid()
    ensures Valid(SeedRegistry())
    ensures SeedRegistry().count == 35
    ensures forall i :: 0 <= i < 35 ==> SeedRegistry().slots[i].appointmentReminder == NO_APPOINTMENTS
  {
    SeedPatientsNumbered();
    var reg := SeedRegistry();
    assert forall i :: 0 <= i < 35 ==> reg.slots[i] == SEED_PATIENTS[i];
    assert forall i :: 35 <= i < MAX_PATIENTS ==> reg.slots[i] == VACANT;
  }

  /** Every seed doctor's name already carries the "Dr. " title. */
  lemma SeedDoctorsTitled()
    ensures |SEED_DOCTORS| == MAX_DOCTORS
    ensures forall k :: 0 <= k < |SEED_DOCTORS| ==>
      |SEED_DOCTORS[k].name| >= 4 && SEED_DOCTORS[k].name[..4] == "Dr. "
  {
  }

  /**
   When every doctor's name begins with "Dr. ", every reminder scheduling writes begins
   "Appointment with Dr. Dr. ".
   */
  lemma ReminderDoublesTitle(reg: Registry, doctors: seq<Doctor>, id: int, reason: string,
                             draws: Draws)
    requires WellFormed(reg)
    requires IsValidPatientId(id, reg.count)
    requires |doctors| > 0
    requires forall k :: 0 <= k < |doctors| ==> |doctors[k].name| >= 4 && doctors[k].name[..4] == "Dr. "
    ensures var o := ScheduleAppointment(reg, doctors, id, reason, draws);
      o.after.slots[id - 1].appointmentReminder[..25] == "Appointment with Dr. Dr. "
  {
    var o := ScheduleAppointment(reg, doctors, id, reason, draws);
    var name := o.result.value.doctor.name;
    var r := o.after.slots[id - 1].appointmentReminder;
    assert r[..21] == REMINDER_PREFIX;
    assert r[21..21 + |name|] == name;
    assert r[21..25] == name[..4];
  }

  /** With the seed doctors, every reminder reads "Appointment with Dr. Dr. ...". */
  lemma SeedReminderDoublesTitle(id: int, reason: string, draws: Draws)
    requires 1 <= id <= 35
    ensures var o := ScheduleAppointment(SeedRegistry(), SEED_DOCTORS, id, reason, draws);
      o.after.slots[id - 1].appointmentReminder[..25] == "Appointment with Dr. Dr. "
  {
    SeedValid();
    SeedDoctorsTitled();
    ReminderDoublesTitle(SeedRegistry(), SEED_DOCTORS, id, reason, draws);
  }

  lemma SeedAccessScenario()
    ensures AccessMedicalHistory(SeedRegistry(), 1, "password1") == Ok("Diabetes")
    ensures AccessMedicalHistory(SeedRegistry(), 1, "wrong") == Err(WrongPassword)
    ensures AccessMedicalHistory(SeedRegistry(), 36, "password1") == Err(InvalidId)
  {
    SeedValid();
    assert SeedRegistry().slots[0] == SEED_PATIENTS[0];
  }

  lemma SeedUpdateScenario()
    ensures var o := UpdatePatient(SeedRegistry(), 3, "New Name", "555", "New History");
      && o.result.Ok?
      && o.after.slots[2] == Patient(3, "New Name", 25, "555", "New History", "password3", NO_APPOINTMENTS)
  {
    SeedValid();
    assert SeedRegistry().slots[2] == SEED_PATIENTS[2];
  }

  lemma SeedCreateScenario()
    ensures CreatePatient(SeedRegistry(), "Sam", 45, "555", "None", "pw").result == Ok(36)
    ensures CreatePatient(SeedRegistry(), "Sam", 0, "555", "None", "pw").result == Err(InvalidAge)
    ensures CreatePatient(SeedRegistry(), "Sam", 120, "555", "None", "pw").result == Err(InvalidAge)
  {
    SeedValid();
  }

  /** Whatever the operator does, the registry they start from stays valid. */
  lemma SeedSessionsValid(cmds: seq<Command>)
    ensures Valid(Run(SeedRegistry(), SEED_DOCTORS, cmds))
  {
    SeedValid();
    RunPreserves(SeedRegistry(), SEED_DOCTORS, cmds);
  }
}
