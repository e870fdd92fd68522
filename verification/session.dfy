/**
 A session of the menu: the operator's choices, each with the inputs it reads, applied
 to the registry in order. The billing, test-price and emergency entries touch no
 registry state and are not represented; viewing and the history gate only read it.
 */
module Session {
  import opened Records
  import opened Appointments
  import opened PatientRegistry
  import RegistryProperties

  datatype Command =
    | CreateCmd(name: string, age: int, contact: string, history: string, password: string)
    | UpdateCmd(id: int, name: string, contact: string, history: string)
    | ViewCmd
    | ScheduleCmd(id: int, reason: string, draws: Draws)
    | AccessCmd(id: int, password: string)
    | RemindersCmd

  /** The registry after one menu choice. */
  function Step(reg: Registry, doctors: seq<Doctor>, c: Command): (r: Registry)
    requires WellFormed(reg)
    requires |doctors| > 0
    ensures WellFormed(r)
    ensures reg.count <= r.count <= reg.count + 1
  {
    match c
    case CreateCmd(name, age, contact, history, password) =>
      CreatePatient(reg, name, age, contact, history, password).after
    case UpdateCmd(id, name, contact, history) =>
      UpdatePatient(reg, id, name, contact, history).after
    case ScheduleCmd(id, reason, draws) =>
      ScheduleAppointment(reg, doctors, id, reason, draws).after
    case ViewCmd => reg
    case AccessCmd(_, _) => reg
    case RemindersCmd => reg
  }

  /** The registry after a whole session. Patients are only ever added. */
  function Run(reg: Registry, doctors: seq<Doctor>, cmds: seq<Command>): (r: Registry)
    requires WellFormed(reg)
    requires |doctors| > 0
    ensures WellFormed(r)
    ensures reg.count <= r.count <= reg.count + |cmds|
    decreases |cmds|
  {
    if |cmds| == 0 then reg else Run(Step(reg, doctors, cmds[0]), doctors, cmds[1..])
  }

  /** What never changes for a patient once created: id, age and password. */
  predicate KeepsIdentity(before: Registry, after: Registry)
    requires WellFormed(before) && WellFormed(after)
  {
    && before.count <= after.count
    && forall i :: 0 <= i < before.count ==>
         after.slots[i].id == before.slots[i].id
         && after.slots[i].age == before.slots[i].age
         && after.slots[i].password == before.slots[i].password
  }

  lemma CreateKeeps(reg: Registry, name: string, age: int, contact: string, history: string,
                    password: string)
    requires Valid(reg)
    ensures Valid(CreatePatient(reg, name, age, contact, history, password).after)
    ensures KeepsIdentity(reg, CreatePatient(reg, name, age, contact, history, password).after)
  {
    RegistryProperties.CreatePreservesValid(reg, name, age, contact, history, password);
  }

  lemma UpdateKeeps(reg: Registry, id: int, name: string, contact: string, history: string)
    requires Valid(reg)
    ensures Valid(UpdatePatient(reg, id, name, contact, history).after)
    ensures KeepsIdentity(reg, UpdatePatient(reg, id, name, contact, history).after)
  {
    RegistryProperties.UpdatePreservesValid(reg, id, name, contact, history);
  }

  lemma ScheduleKeeps(reg: Registry, doctors: seq<Doctor>, id: int, reason: string, draws: Draws)
    requires Valid(reg)
    requires |doctors| > 0
    ensures Valid(ScheduleAppointment(reg, doctors, id, reason, draws).after)
    ensures KeepsIdentity(reg, ScheduleAppointment(reg, doctors, id, reason, draws).after)
  {
    RegistryProperties.SchedulePreservesValid(reg, doctors, id, reason, draws);
  }

  lemma StepPreserves(reg: Registry, doctors: seq<Doctor>, c: Command)
    requires Valid(reg)
    requires |doctors| > 0
    ensures Valid(Step(reg, doctors, c))
    ensures KeepsIdentity(reg, Step(reg, doctors, c))
  {
    match c
    case CreateCmd(name, age, contact, history, password) =>
      CreateKeeps(reg, name, age, contact, history, password);
    case UpdateCmd(id, name, contact, history) =>
      UpdateKeeps(reg, id, name, contact, history);
    case ScheduleCmd(id, reason, draws) =>
      ScheduleKeeps(reg, doctors, id, reason, draws);
    case _ =>
  }

  /**
   Every session keeps the invariant, and no existing patient's id, age or password is
   ever changed: ids are never reused or reassigned.
   */
  lemma {:induction false} RunPreserves(reg: Registry, doctors: seq<Doctor>, cmds: seq<Command>)
    requires Valid(reg)
    requires |doctors| > 0
    ensures Valid(Run(reg, doctors, cmds))
    ensures KeepsIdentity(reg, Run(reg, doctors, cmds))
    decreases |cmds|
  {
    if |cmds| > 0 {
      var next := Step(reg, doctors, cmds[0]);
      StepPreserves(reg, doctors, cmds[0]);
      RunPreserves(next, doctors, cmds[1..]);
    }
  }
}
