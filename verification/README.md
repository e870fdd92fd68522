# Hospital patient registry — a Dafny model

This project models the patient registry of the EL Samrout hospital management
program. The registry is a fixed array of 50 patient slots, of which the first
`count` are live, plus a fixed roster of 8 doctors. Five operations act on it:

- creating a patient, which appends to slot `count` with id `count + 1`;
- updating a patient's name, contact and medical history;
- scheduling an appointment, which overwrites the patient's reminder with a randomly
  chosen doctor and time;
- reading a patient's medical history behind a plaintext password check;
- listing the live patients, and listing their reminders.

The operations are validated by `isValidPatientId` and `isValidAge`.

Each operation is a pure function of the registry and the operator's inputs. The three
that write — creating, updating and scheduling — return an `Outcome`: the registry after
the call, and what the call reports (a value or an error kind). When their guard fails,
they return the registry they were given. The read-only operations — the history check
and the two listings — return only what they show (a `Result` or a sequence of rows).
They return no registry, so they cannot change it.

Files and modules:

- `digits.dfy` (`Digits`) models `std::to_string` on non-negative numbers, and the parse
  that reads the text back.
- `records.dfy` (`Records`) holds `Patient`, `Doctor`, the capacity constants, the two
  validators and the error kinds.
- `appointments.dfy` (`Appointments`) covers the random doctor and slot choice, the time
  text and the reminder text.
- `registry.dfy` (`PatientRegistry`) holds the registry, its invariant `Valid` and the
  operations.
- `registry_properties.dfy` (`RegistryProperties`) proves that the operations preserve the
  invariant, and how they relate to each other.
- `session.dfy` (`Session`) models a sequence of menu choices applied in order, and proves
  invariants over whole sessions.
- `seed.dfy` (`Seed`) holds the start-up data: 35 patients and 8 doctors.

Points where the code behaves differently from its own wording, or from what a reader
might assume. The model follows the code:

- Creating a patient does not set the reminder to "No upcoming appointments." as the
  seeds have it; it never writes the reminder at all. The new patient keeps the
  reminder already in its array slot. Slots past the 35 seeds are value-initialised, so
  this reminder is the empty string, not "No upcoming appointments."
  (`RegistryProperties.CreatedReminderIsEmpty`). To express this, the model keeps all 50
  slots, and `Valid` states that every slot past `count` is the value-initialised record.
- The age prompt says "1-120", but `isValidAge` rejects 120 as well as 0.
- The reminder text puts "Dr. " in front of a doctor name that already begins with "Dr. ".
  With the seed roster, every reminder therefore reads "Appointment with Dr. Dr. …"
  (`Seed.SeedReminderDoublesTitle`).
- The hour is written by `to_string` without zero padding ("8:30", not "08:30").
- The patient listing shows every live patient's medical history and asks for no
  password, although reading one history through the menu's history entry requires the
  patient's password (`RegistryProperties.ListingBypassesPassword`). The listing does
  not show passwords or reminders, and neither does the model's listing.
- The password is read with `>>`, which stores a non-empty token without whitespace
  whenever the read succeeds. The only way to get an empty password is a failed read at
  end of input, after which the menu can read no further choice. The model does not
  model the token reader and takes any string as the password, `""` included (see
  "## Left out").

## Model

| member | source | states |
|---|---|---|
| Records.IsValidPatientId | Final_Project_Jaber_Mahmoud.cpp:130-132 | an id is valid exactly when `id - 1` indexes one of the first `count` slots |
| Records.IsValidAge | Final_Project_Jaber_Mahmoud.cpp:135-137 | an age is accepted exactly when it lies in the closed range 1..119 |
| Records.AgeBoundaries | Final_Project_Jaber_Mahmoud.cpp:134-137 | 0 and 120 are both refused, and 1 and 119 are accepted, despite the "1-120" wording |
| PatientRegistry.ReadAge | Final_Project_Jaber_Mahmoud.cpp:155-159 | the prompt loop stops at the first acceptable answer; every earlier answer was unacceptable; if no answer is acceptable, it reads all of them |
| PatientRegistry.CreatePatient | Final_Project_Jaber_Mahmoud.cpp:140-174 | a full registry (count >= 50) or an unacceptable age changes nothing and reports why. Otherwise slot `count` gets id `count + 1`, the given fields and a valid age; its old reminder is kept; `count` grows by exactly one; every other slot is untouched |
| PatientRegistry.UpdatePatient | Final_Project_Jaber_Mahmoud.cpp:177-203 | an invalid id changes nothing. Otherwise only slot `id - 1` changes: its name, contact and history take the new values, and its id, age, password and reminder stay the same |
| PatientRegistry.ListPatients | Final_Project_Jaber_Mahmoud.cpp:206-217 | the listing has one row per live patient, in index order, showing that patient's id, name, age, contact and medical history (no password, no reminder) |
| PatientRegistry.ListReminders | Final_Project_Jaber_Mahmoud.cpp:364-370 | the view is the name and reminder of each of the first `count` slots, in index order |
| PatientRegistry.ScheduleAppointment | Final_Project_Jaber_Mahmoud.cpp:220-252 | an invalid id changes nothing. Otherwise the reported doctor is one of the roster, the hour lies in 8..16, and the reason is the one given; only slot `id - 1`'s reminder changes, to the text naming that doctor, slot and reason |
| PatientRegistry.AccessMedicalHistory | Final_Project_Jaber_Mahmoud.cpp:256-278 | the history is revealed if and only if the id is valid and the password equals the stored one exactly. An invalid id reports InvalidId, a mismatch reports WrongPassword, and nothing is revealed in either case |
| Appointments.ChooseDoctor | Final_Project_Jaber_Mahmoud.cpp:240 | the doctor drawn is always a valid roster index |
| Appointments.ChooseHour | Final_Project_Jaber_Mahmoud.cpp:243 | the hour drawn always lies in 8..16 |
| Appointments.ChooseHalf | Final_Project_Jaber_Mahmoud.cpp:243 | an even minute draw gives the minute text "00", and an odd one gives "30" |
| Appointments.MinuteText | Final_Project_Jaber_Mahmoud.cpp:243 | the minute text is "30" exactly for the half-hour and "00" exactly for the whole hour |
| Appointments.HourText | Final_Project_Jaber_Mahmoud.cpp:243 | an hour 8..9 is written as one digit, and an hour 10..16 as "1" followed by one digit |
| Appointments.WitnessDraws | Final_Project_Jaber_Mahmoud.cpp:240-243 | for any roster index, hour 8..16 and minute, it gives draws that choose exactly those |
| Appointments.EveryChoiceReachable | Final_Project_Jaber_Mahmoud.cpp:240-243 | every doctor, every hour 8..16 and both minutes can be produced by some draws |
| Appointments.SlotTime | Final_Project_Jaber_Mahmoud.cpp:243 | the time text is as long as the hour's decimal text plus three, with the colon third from the end; its content is pinned by SlotTimeParses and ParsedSlotPrints |
| Appointments.SlotTimeParses | Final_Project_Jaber_Mahmoud.cpp:243 | reading a time text back gives the hour and minute it was written from |
| Appointments.ParsedSlotPrints | Final_Project_Jaber_Mahmoud.cpp:243 | every text that reads as a slot is exactly the text of that slot |
| Appointments.SlotTimeInjective | Final_Project_Jaber_Mahmoud.cpp:243 | two slots have the same text if and only if they are the same slot, so the 18 slots give 18 distinct texts |
| Appointments.SlotTimesListed | Final_Project_Jaber_Mahmoud.cpp:243 | every time a draw can produce is one of "8:00", "8:30", …, "16:30", with no zero padding |
| Appointments.ReminderText | Final_Project_Jaber_Mahmoud.cpp:246-247 | the reminder starts with "Appointment with Dr. ", then carries the doctor name, " at ", the time, " for " and the reason verbatim, each at a fixed position, and ends in a full stop |
| Appointments.ReminderDeterminesReason | Final_Project_Jaber_Mahmoud.cpp:246-247 | for a fixed doctor and time, two reminders are equal if and only if their reasons are |
| Digits.ToString | Final_Project_Jaber_Mahmoud.cpp:243 | `to_string` of a non-negative number is a non-empty string of digits with no leading zero; it has one digit exactly when the number is below 10 |
| Digits.ParseToString | Final_Project_Jaber_Mahmoud.cpp:243 | reading the decimal text of a number gives the number back |
| Digits.ToStringParse | Final_Project_Jaber_Mahmoud.cpp:243 | every digit string without a leading zero is the decimal text of the number it denotes |
| Digits.ToStringInjective | Final_Project_Jaber_Mahmoud.cpp:243 | two numbers have the same decimal text if and only if they are equal |
| RegistryProperties.ValidIdIffStored | Final_Project_Jaber_Mahmoud.cpp:130-132 | in a valid registry, an id passes the check if and only if some live patient carries it |
| RegistryProperties.ListedIdsSequential | Final_Project_Jaber_Mahmoud.cpp:206-217 | in a valid registry, the listing shows ids 1, 2, …, count in order |
| RegistryProperties.ListingBypassesPassword | Final_Project_Jaber_Mahmoud.cpp:206-217 | for every valid id, the listing shows the same history that the password check releases, without any password |
| RegistryProperties.ScheduleShowsInReminders | Final_Project_Jaber_Mahmoud.cpp:364-370 | after scheduling, the reminder listing shows the new reminder text for that patient, and every other patient's entry as before |
| RegistryProperties.CreatePreservesValid | Final_Project_Jaber_Mahmoud.cpp:140-174 | creating a patient keeps the invariant: ids match positions, ages are valid, count <= 50, and slots past count are vacant |
| RegistryProperties.CreatedReminderIsEmpty | Final_Project_Jaber_Mahmoud.cpp:147-173 | a created patient's reminder is the empty string, not "No upcoming appointments." |
| RegistryProperties.CreateThenAccess | Final_Project_Jaber_Mahmoud.cpp:140-174 | the password given at creation unlocks the history given at creation, under the newly assigned id |
| RegistryProperties.FirstValidAgeCreates | Final_Project_Jaber_Mahmoud.cpp:155-159 | below capacity, every answer that the age prompt skips would be refused as InvalidAge with nothing changed, and the answer it stops at creates the patient with id `count + 1` and that age |
| RegistryProperties.CreateKeepsExistingAccess | Final_Project_Jaber_Mahmoud.cpp:147-173 | creating a patient changes nothing the history check shows for any existing patient |
| RegistryProperties.UpdatePreservesValid | Final_Project_Jaber_Mahmoud.cpp:188-200 | updating a patient keeps the invariant |
| RegistryProperties.UpdateThenAccess | Final_Project_Jaber_Mahmoud.cpp:188-200 | after an update, the unchanged stored password unlocks the new history, and every other password is still refused |
| RegistryProperties.UpdateLastWriteWins | Final_Project_Jaber_Mahmoud.cpp:177-203 | two updates of one patient leave what the second update alone would leave |
| RegistryProperties.ScheduleReportsDraws | Final_Project_Jaber_Mahmoud.cpp:240-252 | for a valid id, the appointment reported is the roster doctor, hour and minute that the three draws choose, with the given reason |
| RegistryProperties.ScheduleReachesEverySlot | Final_Project_Jaber_Mahmoud.cpp:240-252 | for a valid id, some draws make scheduling report any given roster doctor at any of the 18 slots |
| RegistryProperties.SchedulePreservesValid | Final_Project_Jaber_Mahmoud.cpp:246 | scheduling keeps the invariant |
| RegistryProperties.ScheduleKeepsAccess | Final_Project_Jaber_Mahmoud.cpp:246-247 | scheduling never changes what the history check answers, for any patient |
| RegistryProperties.ScheduleLastWriteWins | Final_Project_Jaber_Mahmoud.cpp:246-247 | a second appointment for the same patient replaces the first; no earlier appointment is kept |
| RegistryProperties.UpdateScheduleCommute | Final_Project_Jaber_Mahmoud.cpp:177-252 | updating and scheduling write disjoint fields, so applying them in either order gives the same registry |
| Session.Step | Final_Project_Jaber_Mahmoud.cpp:113-125 | one menu choice keeps the registry well formed and adds at most one patient |
| Session.Run | Final_Project_Jaber_Mahmoud.cpp:98-126 | a session keeps the registry well formed, never removes a patient, and adds at most one patient per choice |
| Session.CreateKeeps | Final_Project_Jaber_Mahmoud.cpp:140-174 | creating a patient keeps the invariant and every existing patient's id, age and password |
| Session.UpdateKeeps | Final_Project_Jaber_Mahmoud.cpp:177-203 | updating a patient keeps the invariant and every patient's id, age and password |
| Session.ScheduleKeeps | Final_Project_Jaber_Mahmoud.cpp:220-252 | scheduling keeps the invariant and every patient's id, age and password |
| Session.StepPreserves | Final_Project_Jaber_Mahmoud.cpp:113-125 | one menu choice keeps the invariant and never changes an existing patient's id, age or password |
| Session.RunPreserves | Final_Project_Jaber_Mahmoud.cpp:98-126 | a whole session keeps the invariant; existing patients' ids, ages and passwords never change, so ids are never reused or reassigned |
| Seed.SeedPatientsNumbered | Final_Project_Jaber_Mahmoud.cpp:46-80 | there are 35 seed patients; seed `i` has id `i + 1`, a valid age and the reminder "No upcoming appointments." |
| Seed.SeedValid | Final_Project_Jaber_Mahmoud.cpp:45-82 | the start-up registry satisfies the invariant, has 35 patients, and each of them has the reminder "No upcoming appointments." |
| Seed.SeedDoctorsTitled | Final_Project_Jaber_Mahmoud.cpp:84-94 | the roster has 8 doctors, and every name already begins with "Dr. " |
| Seed.ReminderDoublesTitle | Final_Project_Jaber_Mahmoud.cpp:246-247 | when every doctor's name begins with "Dr. ", every reminder scheduling writes begins "Appointment with Dr. Dr. " |
| Seed.SeedReminderDoublesTitle | Final_Project_Jaber_Mahmoud.cpp:246-247 | with the start-up roster, every reminder begins "Appointment with Dr. Dr. " |
| Seed.SeedAccessScenario | Final_Project_Jaber_Mahmoud.cpp:262-277 | patient 1 with "password1" gets "Diabetes"; "wrong" is refused; id 36 is invalid |
| Seed.SeedUpdateScenario | Final_Project_Jaber_Mahmoud.cpp:188-200 | updating patient 3 changes its name, contact and history, and keeps its id 3, age 25, password and reminder |
| Seed.SeedCreateScenario | Final_Project_Jaber_Mahmoud.cpp:142-173 | at start-up, creating a patient aged 45 assigns id 36; ages 0 and 120 are refused |
| Seed.SeedSessionsValid | Final_Project_Jaber_Mahmoud.cpp:98-126 | every session that starts from the start-up state keeps the invariant |

## Left out

- Console input and output are not modelled. This covers prompts and messages,
  `cin.ignore`, and the split between `getline` for whole lines and `>>` for
  whitespace-free tokens. Operations take the values the operator would type, and
  return what they report.
- `srand`/`rand` are not modelled as a random source. The three raw `rand()` results are
  parameters (`Draws`). C++ does not fix which of the two `rand()` calls on the
  time line runs first, so the model simply names the hour draw and the minute draw.
- PatientRegistry.CreatePatient: an unacceptable age is reported as `InvalidAge` with
  nothing changed. The program instead re-prompts forever, and never returns until a valid age arrives.
  `ReadAge` models that loop over a finite list of answers. The program also writes the
  id and name into slot `count` before the age prompt. That slot is not live, and
  it is only committed once a valid age is read, so the model writes the whole
  record at once. Passwords are taken as arbitrary strings, `""` included. `Valid`
  therefore does not carry the invariant that a password is never empty after creation,
  even though `>>` never stores an empty token.
- The `rand() % doctorCount` with no doctors is undefined behaviour. Scheduling therefore
  requires a non-empty roster when the id is valid. Sessions require a non-empty roster.
- `generateBill` is not modelled: it is interactive input around a `double` price, with
  no registry state.
- `listTests` and `emergency` are not modelled: they print fixed text only.
- The menu's exit and invalid-choice branches are not modelled: neither touches the
  registry. `Session` models only the operations that do.
- The formatting of the patient and reminder listings is not modelled. The listings are
  modelled as the fields they show, in order.
- C++ `int` overflow is not modelled. Stored ids and `count` stay within 0..50. Ids typed
  by the operator can be any `int`, but they are only compared, and `id - 1` is computed
  only after the id has passed validation. Ages are compared, never computed with.
