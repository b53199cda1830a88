/**
 * The hospital records (Hospital-Management-System/hospital.py): validated
 * people, the per-class id counters, procedures, a patient's medical history
 * and appointments, and the hospital's registries.
 */
module Hospital {
  import opened Wrappers
  import opened Python
  import opened Phone

  /** A procedure; durations are timedelta values, kept here in seconds. Price and surgery type are not validated. */
  datatype Procedure =
    | Surgery(duration: int, price: Value, surgeryType: Value)
    | Consultation(duration: int, price: Value)

  /** timedelta(minutes=30), in seconds. */
  const ConsultationSeconds: int := 30 * 60

  /** A medical-history entry: the procedure its description is formatted from, and its price. */
  datatype Record = Record(procedure: Procedure, price: Value)

  datatype Patient = Patient(name: string, age: nat, id: nat, phoneNumber: string,
                             medicalHistory: seq<Record>, appointments: seq<Procedure>)

  datatype Doctor = Doctor(name: string, age: nat, specialization: Value, contactInfo: Value, id: nat)

  datatype Nurse = Nurse(name: string, age: nat, contactInfo: Value, id: nat)

  datatype HospitalState = HospitalState(doctors: map<nat, Doctor>, nurses: map<nat, Nurse>,
                                         patients: map<nat, Patient>, procedures: seq<Procedure>)

  /**
   * The outcome of a constructor together with the class's id counter
   * afterwards: the counter can move even when the constructor raises.
   */
  datatype Created<T> = Created(result: Outcome<T>, counter: nat)

  /** The name setter: a str (TypeError) that is not empty (ValueError); it is stored as given, blanks included. */
  function ValidateName(v: Value): (r: Outcome<string>)
    ensures r.Ok? <==> v.StrValue? && v.s != []
    ensures r.Ok? ==> r.value == v.s
    ensures r.Err? ==> r.error == (if v.StrValue? then ValueError else TypeError)
  {
    if !v.StrValue? then Err(TypeError)
    else if v.s == [] then Err(ValueError)
    else Ok(v.s)
  }

  /** The age setter: an int (TypeError; bool counts) that is not negative (ValueError). */
  function ValidateAge(v: Value): (r: Outcome<nat>)
    ensures r.Ok? <==> IsInt(v) && AsInt(v) >= 0
    ensures r.Ok? ==> r.value == AsInt(v)
    ensures r.Err? ==> r.error == (if IsInt(v) then ValueError else TypeError)
  {
    if !IsInt(v) then Err(TypeError)
    else if AsInt(v) < 0 then Err(ValueError)
    else Ok(AsInt(v))
  }

  /** The phone_number setter: a str (TypeError) that the Armenian pattern accepts (ValueError). */
  function ValidatePhone(v: Value): (r: Outcome<string>)
    ensures r.Ok? <==> v.StrValue? && Matches(v.s)
    ensures r.Ok? ==> r.value == v.s
    ensures r.Err? ==> r.error == (if v.StrValue? then ValueError else TypeError)
  {
    if !v.StrValue? then Err(TypeError)
    else
      ValidIffMatches(v.s);
      if IsValidPhone(v.s) then Ok(v.s) else Err(ValueError)
  }

  /** Person.__init__: the name, then the age. */
  function ValidatePerson(name: Value, age: Value): (r: Outcome<(string, nat)>)
    ensures r.Ok? <==> ValidateName(name).Ok? && ValidateAge(age).Ok?
    ensures r.Ok? ==> r.value == (ValidateName(name).value, ValidateAge(age).value)
    ensures r.Err? ==> r.error == (if ValidateName(name).Err? then ValidateName(name).error else ValidateAge(age).error)
  {
    var n :- ValidateName(name);
    var a :- ValidateAge(age);
    Ok((n, a))
  }

  /**
   * Patient.__init__: the person is validated, the id is taken and the
   * counter advanced, and only then is the phone number checked. A missing
   * or empty history becomes an empty list.
   */
  function NewPatient(counter: nat, name: Value, age: Value, phone: Value, history: Option<seq<Record>>)
    : (r: Created<Patient>)
    ensures ValidatePerson(name, age).Err? ==> r == Created(Err(ValidatePerson(name, age).error), counter)
    ensures ValidatePerson(name, age).Ok? ==> r.counter == counter + 1
    ensures r.result.Ok? <==> ValidatePerson(name, age).Ok? && ValidatePhone(phone).Ok?
    ensures r.result.Ok? ==> var p := r.result.value;
              && p.id == counter && p.name == name.s && p.age == AsInt(age) && p.phoneNumber == phone.s
              && p.appointments == []
              && p.medicalHistory == (if history.Some? then history.value else [])
  {
    match ValidatePerson(name, age)
    case Err(e) => Created(Err(e), counter)
    case Ok((n, a)) =>
      match ValidatePhone(phone)
      case Err(e) => Created(Err(e), counter + 1)
      case Ok(ph) =>
        var h := if history.Some? && history.value != [] then history.value else [];
        Created(Ok(Patient(n, a, counter, ph, h, [])), counter + 1)
  }

  /** A refused phone number still uses up an id; a refused name does not. */
  lemma RefusedPhoneConsumesId(counter: nat)
    ensures NewPatient(counter, StrValue("Ann"), IntValue(30), StrValue("+37412345"), None)
            == Created(Err(ValueError), counter + 1)
    ensures NewPatient(counter, StrValue(""), IntValue(30), StrValue("+37499123456"), None)
            == Created(Err(ValueError), counter)
  {
    RefusedSamples();
  }

  /** Two patients created one after the other, whatever happened in between, get different ids. */
  lemma PatientIdsDiffer(counter: nat, n1: Value, a1: Value, p1: Value, h1: Option<seq<Record>>,
                         n2: Value, a2: Value, p2: Value, h2: Option<seq<Record>>)
    requires NewPatient(counter, n1, a1, p1, h1).result.Ok?
    ensures var c := NewPatient(counter, n1, a1, p1, h1).counter;
            NewPatient(c, n2, a2, p2, h2).result.Ok? ==>
              NewPatient(c, n2, a2, p2, h2).result.value.id != NewPatient(counter, n1, a1, p1, h1).result.value.id
  {
  }

  /** Doctor.__init__: the person is validated; specialization and contact are stored unchecked; then the id. */
  function NewDoctor(counter: nat, name: Value, age: Value, specialization: Value, contact: Value)
    : (r: Created<Doctor>)
    ensures r.result.Ok? <==> ValidatePerson(name, age).Ok?
    ensures r.result.Err? ==> r == Created(Err(ValidatePerson(name, age).error), counter)
    ensures r.result.Ok? ==> r.counter == counter + 1 && r.result.value.id == counter
                             && r.result.value.name == name.s && r.result.value.age == AsInt(age)
                             && r.result.value.specialization == specialization
                             && r.result.value.contactInfo == contact
  {
    match ValidatePerson(name, age)
    case Err(e) => Created(Err(e), counter)
    case Ok((n, a)) => Created(Ok(Doctor(n, a, specialization, contact, counter)), counter + 1)
  }

  /** Nurse.__init__: the person is validated, then the id; the contact is stored unchecked. */
  function NewNurse(counter: nat, name: Value, age: Value, contact: Value): (r: Created<Nurse>)
    ensures r.result.Ok? <==> ValidatePerson(name, age).Ok?
    ensures r.result.Err? ==> r == Created(Err(ValidatePerson(name, age).error), counter)
    ensures r.result.Ok? ==> r.counter == counter + 1 && r.result.value.id == counter
                             && r.result.value.name == name.s && r.result.value.age == AsInt(age)
                             && r.result.value.contactInfo == contact
  {
    match ValidatePerson(name, age)
    case Err(e) => Created(Err(e), counter)
    case Ok((n, a)) => Created(Ok(Nurse(n, a, contact, counter)), counter + 1)
  }

  /** Consultation(price): the duration is fixed at thirty minutes. */
  function NewConsultation(price: Value): (r: Procedure)
    ensures r.Consultation? && r.duration == 1800 && r.price == price
  {
    Consultation(ConsultationSeconds, price)
  }

  /** Patient.add_medical_history: anything but a Procedure fails the assertion; otherwise one record is appended. */
  function AddMedicalHistory(p: Patient, procedure: Arg<Procedure>): (r: Outcome<Patient>)
    ensures procedure.NotInstance? <==> r == Err(AssertionError)
    ensures r.Ok? ==> r.value.medicalHistory == p.medicalHistory + [Record(procedure.obj, procedure.obj.price)]
    ensures r.Ok? ==> r.value.(medicalHistory := p.medicalHistory) == p
  {
    match procedure
    case NotInstance => Err(AssertionError)
    case Instance(proc) => Ok(p.(medicalHistory := p.medicalHistory + [Record(proc, proc.price)]))
  }

  /** Patient.schedule_appointment: the procedure is appended to the appointments; the history is untouched. */
  function ScheduleAppointment(p: Patient, procedure: Arg<Procedure>): (r: Outcome<Patient>)
    ensures procedure.NotInstance? <==> r == Err(AssertionError)
    ensures r.Ok? ==> r.value.appointments == p.appointments + [procedure.obj]
    ensures r.Ok? ==> r.value.(appointments := p.appointments) == p
  {
    match procedure
    case NotInstance => Err(AssertionError)
    case Instance(proc) => Ok(p.(appointments := p.appointments + [proc]))
  }

  /** Recording a series of procedures, one add_medical_history call each. */
  function RecordAll(p: Patient, procedures: seq<Procedure>): Patient
    decreases |procedures|
  {
    if procedures == [] then p
    else RecordAll(AddMedicalHistory(p, Instance(procedures[0])).value, procedures[1..])
  }

  /** The records of a series come out in order, one per procedure with that procedure's price. */
  lemma {:induction false} RecordAllAppends(p: Patient, procedures: seq<Procedure>)
    ensures |RecordAll(p, procedures).medicalHistory| == |p.medicalHistory| + |procedures|
    ensures RecordAll(p, procedures).medicalHistory[..|p.medicalHistory|] == p.medicalHistory
    ensures forall i | 0 <= i < |procedures| ::
              RecordAll(p, procedures).medicalHistory[|p.medicalHistory| + i] == Record(procedures[i], procedures[i].price)
    ensures RecordAll(p, procedures).(medicalHistory := p.medicalHistory) == p
    decreases |procedures|
  {
    if procedures != [] {
      var q := AddMedicalHistory(p, Instance(procedures[0])).value;
      RecordAllAppends(q, procedures[1..]);
      var r := RecordAll(q, procedures[1..]);
      assert r.medicalHistory[..|q.medicalHistory|] == q.medicalHistory;
      assert r.medicalHistory[..|p.medicalHistory|] == q.medicalHistory[..|p.medicalHistory|];
      forall i | 0 <= i < |procedures|
        ensures r.medicalHistory[|p.medicalHistory| + i] == Record(procedures[i], procedures[i].price)
      {
        if i == 0 {
          assert r.medicalHistory[|p.medicalHistory|] == q.medicalHistory[|p.medicalHistory|];
        } else {
          assert procedures[1..][i - 1] == procedures[i];
        }
      }
    }
  }

  function EmptyHospital(): (h: HospitalState)
    ensures h.doctors == map[] && h.nurses == map[] && h.patients == map[] && h.procedures == []
  {
    HospitalState(map[], map[], map[], [])
  }

  /** Hospital.add_doctor: stored under its id, replacing any entry with that id; nothing else changes. */
  function AddDoctor(h: HospitalState, doctor: Arg<Doctor>): (r: Outcome<HospitalState>)
    ensures doctor.NotInstance? <==> r == Err(AssertionError)
    ensures r.Ok? ==> var d := doctor.obj;
              && r.value.doctors.Keys == h.doctors.Keys + {d.id}
              && r.value.doctors[d.id] == d
              && (forall id | id in h.doctors && id != d.id :: r.value.doctors[id] == h.doctors[id])
              && r.value.(doctors := h.doctors) == h
  {
    match doctor
    case NotInstance => Err(AssertionError)
    case Instance(d) => Ok(h.(doctors := h.doctors[d.id := d]))
  }

  /** Hospital.add_nurse, the same for nurses. */
  function AddNurse(h: HospitalState, nurse: Arg<Nurse>): (r: Outcome<HospitalState>)
    ensures nurse.NotInstance? <==> r == Err(AssertionError)
    ensures r.Ok? ==> var n := nurse.obj;
              && r.value.nurses.Keys == h.nurses.Keys + {n.id}
              && r.value.nurses[n.id] == n
              && (forall id | id in h.nurses && id != n.id :: r.value.nurses[id] == h.nurses[id])
              && r.value.(nurses := h.nurses) == h
  {
    match nurse
    case NotInstance => Err(AssertionError)
    case Instance(n) => Ok(h.(nurses := h.nurses[n.id := n]))
  }

  /** Hospital.add_patient, the same for patients. */
  function AddPatient(h: HospitalState, patient: Arg<Patient>): (r: Outcome<HospitalState>)
    ensures patient.NotInstance? <==> r == Err(AssertionError)
    ensures r.Ok? ==> var p := patient.obj;
              && r.value.patients.Keys == h.patients.Keys + {p.id}
              && r.value.patients[p.id] == p
              && (forall id | id in h.patients && id != p.id :: r.value.patients[id] == h.patients[id])
              && r.value.(patients := h.patients) == h
  {
    match patient
    case NotInstance => Err(AssertionError)
    case Instance(p) => Ok(h.(patients := h.patients[p.id := p]))
  }

  /** Hospital.add_procedure: appended to the list of procedures. */
  function AddProcedure(h: HospitalState, procedure: Arg<Procedure>): (r: Outcome<HospitalState>)
    ensures procedure.NotInstance? <==> r == Err(AssertionError)
    ensures r.Ok? ==> r.value == h.(procedures := h.procedures + [procedure.obj])
  {
    match procedure
    case NotInstance => Err(AssertionError)
    case Instance(proc) => Ok(h.(procedures := h.procedures + [proc]))
  }

  /**
   * A patient freshly created from the counter is new to a registry whose
   * ids all came from that counter: registering it adds one patient and
   * keeps every other one.
   */
  lemma NewPatientIsFresh(h: HospitalState, counter: nat, name: Value, age: Value, phone: Value,
                          history: Option<seq<Record>>)
    requires forall id | id in h.patients :: id < counter
    requires NewPatient(counter, name, age, phone, history).result.Ok?
    ensures var c := NewPatient(counter, name, age, phone, history);
            var h' := AddPatient(h, Instance(c.result.value)).value;
            && |h'.patients| == |h.patients| + 1
            && (forall id | id in h.patients :: id in h'.patients && h'.patients[id] == h.patients[id])
            && (forall id | id in h'.patients :: id < c.counter)
  {
    var p := NewPatient(counter, name, age, phone, history).result.value;
    assert p.id !in h.patients;
    var h' := AddPatient(h, Instance(p)).value;
    assert h'.patients.Keys == h.patients.Keys + {p.id};
  }
}
