/**
 The records of the hospital registry (`Patient`, `Doctor`), its capacity constants,
 the two range validators and the error kinds its operations report.
 */
module Records {

  /** Capacity of the patient array. */
  const MAX_PATIENTS: int := 50
  /** Capacity of the doctor array. */
  const MAX_DOCTORS: int := 8
  /** The reminder the seed patients start with. */
  const NO_APPOINTMENTS: string := "No upcoming appointments."

  datatype Patient = Patient(
    id: int,
    name: string,
    age: int,
    contact: string,
    medicalHistory: string,
    password: string,
    appointmentReminder: string)

  datatype Doctor = Doctor(name: string, specialty: string)

  /** An array slot past the seeds: value-initialised, so zero numbers and empty strings. */
  const VACANT: Patient := Patient(0, "", 0, "", "", "", "")

  /** A patient id is valid when it addresses one of the first `count` slots. */
  function IsValidPatientId(id: int, count: int): (ok: bool)
    ensures ok <==> 0 <= id - 1 < count
  {
    id > 0 && id <= count
  }

  /** Ages 1 through 119 are accepted; 0 and 120 are both refused. */
  function IsValidAge(age: int): (ok: bool)
    ensures ok <==> 1 <= age <= 119
  {
    age > 0 && age < 120
  }

  lemma AgeBoundaries()
    ensures !IsValidAge(0) && IsValidAge(1) && IsValidAge(119) && !IsValidAge(120)
  {
  }

  datatype Option<T> = None | Some(value: T)

  datatype RegistryError =
    | CapacityFull
    | InvalidId
    | InvalidAge
    | WrongPassword

  datatype Result<T> = Ok(value: T) | Err(error: RegistryError)
}
