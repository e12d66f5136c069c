/**
 * The backend's records (departments, employees, appointments), the
 * database constraints on them, and the reminder bookkeeping the employee
 * and appointment serializers perform when records are created or updated
 * through the REST API.
 */
module Store {
  import opened Wrappers
  import opened Text
  import opened Dates

  /** `CHARFIELD_DEFAULT_MAX_LENGTH`. */
  const MaxCharLength := 255

  /** Default `reminder_interval` of departments and employees: two years. */
  const DefaultReminderInterval := 24

  datatype Gender = Maennlich | Weiblich | Divers

  /** The stored text of each gender choice. */
  function GenderText(g: Gender): string
  {
    match g
    case Maennlich => "männlich"
    case Weiblich => "weiblich"
    case Divers => "divers"
  }

  /** The choice check of the gender field: exactly the three stored texts are accepted. */
  function GenderFromText(s: string): (r: Option<Gender>)
    ensures r.Some? ==> GenderText(r.value) == s
    ensures (exists g :: GenderText(g) == s) ==> r.Some?
  {
    if s == "männlich" then Some(Maennlich)
    else if s == "weiblich" then Some(Weiblich)
    else if s == "divers" then Some(Divers)
    else None
  }

  lemma GenderRoundTrip(g: Gender)
    ensures GenderFromText(GenderText(g)) == Some(g)
  {
  }

  datatype Department = Department(name: string, reminderInterval: int)

  datatype Employee = Employee(
    firstName: string,
    lastName: string,
    gender: Gender,
    employeeId: string,          // personnel number, unique
    dateOfBirth: Date,
    dateOfEntry: Date,
    dateOfExit: Option<Date>,
    notes: string,
    wantsReminder: bool,
    nextReminder: Option<Date>,
    active: bool,
    department: nat,             // protected reference to a Department
    reminderInterval: int)

  datatype Appointment = Appointment(date: Date, employee: nat, note: string, confirmed: bool)

  /** `Employee.__str__`: first and last name joined by a space. */
  function EmployeeText(e: Employee): (s: string)
    ensures |s| == |e.firstName| + 1 + |e.lastName|
    ensures s[..|e.firstName|] == e.firstName && s[|e.firstName|] == ' '
    ensures s[|e.firstName| + 1..] == e.lastName
  {
    JoinWithSpace(e.firstName, e.lastName)
  }

  /** The fields a create request for an employee carries once the dates are parsed. */
  datatype EmployeeInput = EmployeeInput(
    firstName: string,
    lastName: string,
    gender: string,
    employeeId: string,
    dateOfBirth: Date,
    dateOfEntry: Date,
    dateOfExit: Option<Date>,
    department: nat,
    wantsReminder: Option<bool>,
    nextReminder: Option<Date>,
    reminderInterval: Option<int>,
    notes: Option<string>,
    active: Option<bool>)

  datatype StoreError =
    | NotFound                 // 404: no record with that key
    | Invalid(field: string)   // 400: a field fails its own check
    | Duplicate(field: string) // 400: a unique field is already taken
    | Protected                // the department is still referenced by an employee
    | ReminderOutOfRange       // the reminder date falls outside Python's years 1 to 9999

  /** A required character field: not blank and at most 255 characters. */
  predicate ValidCharField(s: string)
  {
    0 < |s| <= MaxCharLength
  }

  predicate UniqueDepartmentNames(m: map<nat, Department>)
  {
    forall a, b :: a in m && b in m && a != b ==> m[a].name != m[b].name
  }

  predicate UniqueEmployeeIds(m: map<nat, Employee>)
  {
    forall a, b :: a in m && b in m && a != b ==> m[a].employeeId != m[b].employeeId
  }

  /** The first validation error of an employee create request, in field order, if any. */
  function EmployeeInputError(input: EmployeeInput, departments: map<nat, Department>, employees: map<nat, Employee>)
    : (err: Option<StoreError>)
    ensures err.None? <==>
      && ValidCharField(input.firstName) && ValidCharField(input.lastName)
      && GenderFromText(input.gender).Some?
      && ValidCharField(input.employeeId)
      && (forall k :: k in employees ==> employees[k].employeeId != input.employeeId)
      && input.department in departments
  {
    if !ValidCharField(input.firstName) then Some(Invalid("first_name"))
    else if !ValidCharField(input.lastName) then Some(Invalid("last_name"))
    else if GenderFromText(input.gender).None? then Some(Invalid("gender"))
    else if !ValidCharField(input.employeeId) then Some(Invalid("employee_id"))
    else if exists k :: k in employees && employees[k].employeeId == input.employeeId then Some(Duplicate("employee_id"))
    else if input.department !in departments then Some(Invalid("department"))
    else None
  }

  /**
   * The employee the create request stores: the model defaults fill the
   * fields the request leaves out, and `next_reminder` is the entry date
   * whatever the request said.
   */
  function NewEmployee(input: EmployeeInput): (e: Employee)
    requires GenderFromText(input.gender).Some?
    ensures e.firstName == input.firstName && e.lastName == input.lastName
    ensures GenderText(e.gender) == input.gender
    ensures e.employeeId == input.employeeId && e.department == input.department
    ensures e.dateOfBirth == input.dateOfBirth && e.dateOfEntry == input.dateOfEntry && e.dateOfExit == input.dateOfExit
    ensures e.nextReminder == Some(e.dateOfEntry)
    ensures e.wantsReminder == input.wantsReminder.GetOr(true) && e.active == input.active.GetOr(true)
    ensures e.reminderInterval == input.reminderInterval.GetOr(DefaultReminderInterval)
    ensures e.notes == input.notes.GetOr("")
  {
    Employee(input.firstName, input.lastName, GenderFromText(input.gender).value, input.employeeId,
             input.dateOfBirth, input.dateOfEntry, input.dateOfExit,
             input.notes.GetOr(""), input.wantsReminder.GetOr(true), Some(input.dateOfEntry),
             input.active.GetOr(true), input.department,
             input.reminderInterval.GetOr(DefaultReminderInterval))
  }

  /** The dates of all appointments of employee `e`. */
  function DatesOf(appointments: map<nat, Appointment>, e: nat): set<Date>
  {
    set k | k in appointments && appointments[k].employee == e :: appointments[k].date
  }

  /** `d` is the latest date of `s`. */
  predicate IsLatest(s: set<Date>, d: Date)
  {
    d in s && forall x :: x in s ==> DateLe(x, d)
  }

  /** The latest date of a non-empty set of dates. */
  ghost function MaxDate(s: set<Date>): (m: Date)
    requires s != {}
    ensures IsLatest(s, m)
    decreases |s|
  {
    var x :| x in s;
    if s == {x} then
      assert forall y :: y in s ==> y == x;
      x
    else
      var rest := MaxDate(s - {x});
      if DateLe(x, rest) then rest
      else
        assert forall y :: y in s ==> DateLe(y, x) by {
          DateLeTotal(x, rest);
          forall y | y in s ensures DateLe(y, x) {
            if y != x {
              DateLeTransitive(y, rest, x);
            }
          }
        }
        x
  }

  /**
   * The latest date is unique: whichever appointment `latest('date')`
   * returns among several on the same day, its date is `MaxDate`.
   */
  lemma LatestIsMaxDate(s: set<Date>, d: Date)
    requires IsLatest(s, d)
    ensures d == MaxDate(s)
  {
    DateLeAntisymmetric(d, MaxDate(s));
  }

  /** Adding an appointment for `e` adds its date to `e`'s dates and leaves every other employee's dates alone. */
  lemma DatesAfterInsert(appointments: map<nat, Appointment>, id: nat, a: Appointment, e: nat)
    requires id !in appointments
    ensures DatesOf(appointments[id := a], e) == DatesOf(appointments, e) + (if a.employee == e then {a.date} else {})
  {
    var after := appointments[id := a];
    forall d | d in DatesOf(after, e) ensures d in DatesOf(appointments, e) + (if a.employee == e then {a.date} else {}) {
      var k :| k in after && after[k].employee == e && after[k].date == d;
      if k != id {
        assert appointments[k].employee == e && appointments[k].date == d;
      }
    }
    if a.employee == e {
      assert after[id] == a;
    }
    forall d | d in DatesOf(appointments, e) ensures d in DatesOf(after, e) {
      var k :| k in appointments && appointments[k].employee == e && appointments[k].date == d;
      assert after[k] == appointments[k];
    }
  }

  /**
   * The latest date after a new appointment on `d` is the later of `d`
   * and the previous latest date.
   */
  lemma {:induction false} LatestAfterInsert(s: set<Date>, d: Date)
    ensures s == {} ==> MaxDate(s + {d}) == d
    ensures s != {} ==> MaxDate(s + {d}) == (if DateLe(d, MaxDate(s)) then MaxDate(s) else d)
  {
    var m := if s == {} then d else if DateLe(d, MaxDate(s)) then MaxDate(s) else d;
    assert IsLatest(s + {d}, m);
    LatestIsMaxDate(s + {d}, m);
  }

  /** Every appointment date is a real Python date, so months can be added to it. */
  predicate AppointmentDatesValid(appointments: map<nat, Appointment>)
  {
    forall k :: k in appointments ==> ValidDate(appointments[k].date) && InPythonRange(appointments[k].date)
  }

  /**
   * The reminder the serializers compute for employee `e`: the latest date
   * among `e`'s appointments plus `interval` months.
   */
  ghost function ReminderFor(appointments: map<nat, Appointment>, e: nat, interval: int): Date
    requires AppointmentDatesValid(appointments) && DatesOf(appointments, e) != {}
  {
    var latest := MaxDate(DatesOf(appointments, e));
    assert ValidDate(latest) by {
      var k :| k in appointments && appointments[k].employee == e && appointments[k].date == latest;
    }
    AddMonths(latest, interval)
  }

  /** Unique columns are unique, references resolve and appointment dates are real dates. */
  predicate TablesValid(departments: map<nat, Department>, employees: map<nat, Employee>, appointments: map<nat, Appointment>)
  {
    && UniqueDepartmentNames(departments)
    && UniqueEmployeeIds(employees)
    && (forall k :: k in employees ==> employees[k].department in departments)
    && (forall k :: k in appointments ==> appointments[k].employee in employees)
    && AppointmentDatesValid(appointments)
  }

  /** Rewriting an employee's reminder fields keeps the tables valid. */
  lemma ReminderUpdateKeepsTables(departments: map<nat, Department>, employees: map<nat, Employee>,
                                  appointments: map<nat, Appointment>, k: nat, updated: Employee)
    requires TablesValid(departments, employees, appointments)
    requires k in employees && updated.employeeId == employees[k].employeeId
    requires updated.department == employees[k].department
    ensures TablesValid(departments, employees[k := updated], appointments)
  {
  }

  /** Storing an appointment of an existing employee on a real date keeps the tables valid. */
  lemma AppointmentWriteKeepsTables(departments: map<nat, Department>, employees: map<nat, Employee>,
                                    appointments: map<nat, Appointment>, k: nat, a: Appointment)
    requires TablesValid(departments, employees, appointments)
    requires a.employee in employees && ValidDate(a.date) && InPythonRange(a.date)
    ensures TablesValid(departments, employees, appointments[k := a])
  {
  }

  /** The appointments that survive deleting employee `id`: all those of other employees. */
  function WithoutEmployee(appointments: map<nat, Appointment>, id: nat): (m: map<nat, Appointment>)
    ensures forall k :: k in m <==> k in appointments && appointments[k].employee != id
    ensures forall k :: k in m ==> m[k] == appointments[k]
  {
    map k | k in appointments && appointments[k].employee != id :: appointments[k]
  }

  /** Deleting an employee together with its appointments keeps the tables valid. */
  lemma CascadeKeepsTables(departments: map<nat, Department>, employees: map<nat, Employee>,
                           appointments: map<nat, Appointment>, id: nat)
    requires TablesValid(departments, employees, appointments)
    ensures TablesValid(departments, employees - {id}, WithoutEmployee(appointments, id))
  {
  }

  /** The in-memory database: three tables keyed by auto-incremented ids. */
  class Store {
    var departments: map<nat, Department>
    var employees: map<nat, Employee>
    var appointments: map<nat, Appointment>
    var nextDepartmentId: nat
    var nextEmployeeId: nat
    var nextAppointmentId: nat

    /** Keys are below the counters, unique columns are unique, references resolve. */
    ghost predicate Valid()
      reads this
    {
      && (forall k :: k in departments ==> k < nextDepartmentId)
      && (forall k :: k in employees ==> k < nextEmployeeId)
      && (forall k :: k in appointments ==> k < nextAppointmentId)
      && TablesValid(departments, employees, appointments)
    }

    constructor ()
      ensures Valid()
      ensures departments == map[] && employees == map[] && appointments == map[]
    {
      departments, employees, appointments := map[], map[], map[];
      nextDepartmentId, nextEmployeeId, nextAppointmentId := 0, 0, 0;
    }

    /**
     * Creates a department; its `reminder_interval` is 24 when the request
     * gives none (the REST serializer never gives one).
     */
    method CreateDepartment(name: string, interval: Option<int>) returns (r: Result<nat, StoreError>)
      requires Valid()
      modifies this
      ensures Valid()
      ensures !ValidCharField(name) ==> r == Err(Invalid("name")) && unchanged(this)
      ensures ValidCharField(name) && (exists k :: k in old(departments) && old(departments)[k].name == name) ==>
                r == Err(Duplicate("name")) && unchanged(this)
      ensures r.Ok? ==>
                && (forall k :: k in old(departments) ==> old(departments)[k].name != name)
                && r.value !in old(departments)
                && departments == old(departments)[r.value := Department(name, interval.GetOr(DefaultReminderInterval))]
                && employees == old(employees) && appointments == old(appointments)
      ensures ValidCharField(name) && (forall k :: k in old(departments) ==> old(departments)[k].name != name) ==> r.Ok?
    {
      if !ValidCharField(name) {
        return Err(Invalid("name"));
      }
      if exists k :: k in departments && departments[k].name == name {
        return Err(Duplicate("name"));
      }
      var id := nextDepartmentId;
      departments := departments[id := Department(name, interval.GetOr(DefaultReminderInterval))];
      nextDepartmentId := nextDepartmentId + 1;
      r := Ok(id);
    }

    /**
     * Changes a department's interval (an admin edit). Employees keep the
     * interval they have: it is copied only when an appointment is created.
     */
    method SetDepartmentInterval(id: nat, interval: int) returns (r: Result<(), StoreError>)
      requires Valid()
      modifies this
      ensures Valid()
      ensures id !in old(departments) ==> r == Err(NotFound) && unchanged(this)
      ensures id in old(departments) ==>
                && r == Ok(())
                && departments == old(departments)[id := old(departments)[id].(reminderInterval := interval)]
                && employees == old(employees) && appointments == old(appointments)
    {
      if id !in departments {
        return Err(NotFound);
      }
      departments := departments[id := departments[id].(reminderInterval := interval)];
      r := Ok(());
    }

    /** Deletes a department unless an employee still refers to it (`on_delete=PROTECT`). */
    method DeleteDepartment(id: nat) returns (r: Result<(), StoreError>)
      requires Valid()
      modifies this
      ensures Valid()
      ensures id !in old(departments) ==> r == Err(NotFound) && unchanged(this)
      ensures id in old(departments) && (exists k :: k in old(employees) && old(employees)[k].department == id) ==>
                r == Err(Protected) && unchanged(this)
      ensures id in old(departments) && (forall k :: k in old(employees) ==> old(employees)[k].department != id) ==>
                && r == Ok(())
                && departments == old(departments) - {id}
                && employees == old(employees) && appointments == old(appointments)
    {
      if id !in departments {
        return Err(NotFound);
      }
      if exists k :: k in employees && employees[k].department == id {
        return Err(Protected);
      }
      departments := departments - {id};
      r := Ok(());
    }

    /**
     * `EmployeeSerializer.create`: validates the request, stores the
     * employee with the model defaults, then overwrites `next_reminder`
     * with the entry date.
     */
    method CreateEmployee(input: EmployeeInput) returns (r: Result<nat, StoreError>)
      requires Valid()
      modifies this
      ensures Valid()
      ensures EmployeeInputError(input, old(departments), old(employees)).Some? ==>
                r == Err(EmployeeInputError(input, old(departments), old(employees)).value) && unchanged(this)
      ensures EmployeeInputError(input, old(departments), old(employees)).None? ==>
                && r == Ok(old(nextEmployeeId))
                && old(nextEmployeeId) !in old(employees)
                && employees == old(employees)[old(nextEmployeeId) := NewEmployee(input)]
                && departments == old(departments) && appointments == old(appointments)
    {
      var err := EmployeeInputError(input, departments, employees);
      if err.Some? {
        return Err(err.value);
      }
      var id := nextEmployeeId;
      employees := employees[id := NewEmployee(input)];
      nextEmployeeId := nextEmployeeId + 1;
      r := Ok(id);
    }

    /** Deletes an employee together with exactly its appointments (`on_delete=CASCADE`). */
    method DeleteEmployee(id: nat) returns (r: Result<(), StoreError>)
      requires Valid()
      modifies this
      ensures Valid()
      ensures id !in old(employees) ==> r == Err(NotFound) && unchanged(this)
      ensures id in old(employees) ==>
                && r == Ok(())
                && employees == old(employees) - {id}
                && appointments == WithoutEmployee(old(appointments), id)
                && departments == old(departments)
    {
      if id !in employees {
        return Err(NotFound);
      }
      CascadeKeepsTables(departments, employees, appointments, id);
      appointments := WithoutEmployee(appointments, id);
      employees := employees - {id};
      r := Ok(());
    }

    /**
     * `Appointment.objects.filter(employee=e).latest('date').date`: the
     * latest date among the employee's appointments, `None` when there is
     * no appointment (where `latest` raises `DoesNotExist`).
     */
    method LatestDate(e: nat) returns (latest: Option<Date>)
      ensures latest.None? <==> DatesOf(appointments, e) == {}
      ensures latest.Some? ==> IsLatest(DatesOf(appointments, e), latest.value)
    {
      latest := None;
      var remaining := appointments.Keys;
      while remaining != {}
        invariant remaining <= appointments.Keys
        invariant latest.None? ==> forall k :: k in appointments && k !in remaining ==> appointments[k].employee != e
        invariant latest.Some? ==> latest.value in DatesOf(appointments, e)
        invariant latest.Some? ==> forall k :: k in appointments && k !in remaining && appointments[k].employee == e ==>
                                     DateLe(appointments[k].date, latest.value)
        decreases remaining
      {
        var k :| k in remaining;
        var a := appointments[k];
        if a.employee == e && (latest.None? || !DateLe(a.date, latest.value)) {
          latest := Some(a.date);
        }
        remaining := remaining - {k};
      }
      if latest.None? {
        assert forall d :: d !in DatesOf(appointments, e);
      }
    }

    /**
     * The recomputation both appointment serializers end with: the
     * employee's `next_reminder` becomes its latest appointment date plus
     * the employee's current interval; with `refreshInterval` (create, not
     * update) the department's interval is then copied onto the employee.
     * When the reminder date is not a Python date nothing is written.
     */
    method RecomputeReminder(e: nat, refreshInterval: bool) returns (r: Result<(), StoreError>)
      requires Valid() && e in employees && DatesOf(appointments, e) != {}
      modifies this`employees
      ensures Valid()
      ensures var before := old(employees)[e];
              var reminder := ReminderFor(appointments, e, before.reminderInterval);
              if InPythonRange(reminder) then
                && r == Ok(())
                && employees == old(employees)[e := before.(
                     nextReminder := Some(reminder),
                     reminderInterval := if refreshInterval then departments[before.department].reminderInterval
                                         else before.reminderInterval)]
              else
                r == Err(ReminderOutOfRange) && employees == old(employees)
    {
      var latest := LatestDate(e);
      LatestIsMaxDate(DatesOf(appointments, e), latest.value);
      var before := employees[e];
      var reminder := AddMonths(latest.value, before.reminderInterval);
      assert reminder == ReminderFor(appointments, e, before.reminderInterval);
      if !InPythonRange(reminder) {
        return Err(ReminderOutOfRange);
      }
      var interval := if refreshInterval then departments[before.department].reminderInterval else before.reminderInterval;
      ReplaceEmployee(e, before.(nextReminder := Some(reminder), reminderInterval := interval));
      r := Ok(());
    }

    /** Overwrites a stored employee's row, keeping its id and department. */
    method ReplaceEmployee(e: nat, updated: Employee)
      requires Valid() && e in employees
      requires updated.employeeId == employees[e].employeeId && updated.department == employees[e].department
      modifies this`employees
      ensures Valid()
      ensures employees == old(employees)[e := updated]
    {
      ReminderUpdateKeepsTables(departments, employees, appointments, e, updated);
      employees := employees[e := updated];
    }

    /**
     * `AppointmentSerializer.create`: stores the appointment, sets the
     * employee's `next_reminder` to its latest appointment date (the new
     * one included) plus the employee's interval as it was before the call,
     * and only then copies the department's interval onto the employee. If
     * the reminder date is not a Python date the appointment stays stored
     * and the employee is unchanged.
     */
    method CreateAppointment(date: Date, employee: nat, note: Option<string>) returns (r: Result<nat, StoreError>)
      requires Valid()
      requires ValidDate(date) && InPythonRange(date)
      modifies this
      ensures Valid()
      ensures employee !in old(employees) ==> r == Err(Invalid("employee")) && unchanged(this)
      ensures employee in old(employees) ==>
                && old(nextAppointmentId) !in old(appointments)
                && appointments == old(appointments)[old(nextAppointmentId) := Appointment(date, employee, note.GetOr(""), false)]
                && departments == old(departments)
                && DatesOf(appointments, employee) != {}
                && var reminder := ReminderFor(appointments, employee, old(employees)[employee].reminderInterval);
                   if InPythonRange(reminder) then
                     && r == Ok(old(nextAppointmentId))
                     && employees == old(employees)[employee := old(employees)[employee].(
                          nextReminder := Some(reminder),
                          reminderInterval := departments[old(employees)[employee].department].reminderInterval)]
                   else
                     r == Err(ReminderOutOfRange) && employees == old(employees)
    {
      if employee !in employees {
        return Err(Invalid("employee"));
      }
      var id := nextAppointmentId;
      var a := Appointment(date, employee, note.GetOr(""), false);
      AppointmentWriteKeepsTables(departments, employees, appointments, id, a);
      appointments := appointments[id := a];
      nextAppointmentId := nextAppointmentId + 1;
      assert appointments[id] == a;
      assert date in DatesOf(appointments, employee);
      var saved := RecomputeReminder(employee, true);
      r := if saved.Ok? then Ok(id) else Err(saved.error);
    }

    /**
     * `AppointmentSerializer.update`: replaces the date and the employee
     * when the request gives them, never the note, and recomputes
     * `next_reminder` for the appointment's current employee only, with
     * that employee's interval left as it is.
     */
    method UpdateAppointment(id: nat, date: Option<Date>, employee: Option<nat>, note: Option<string>)
      returns (r: Result<(), StoreError>)
      requires Valid()
      requires date.Some? ==> ValidDate(date.value) && InPythonRange(date.value)
      modifies this`appointments, this`employees
      ensures Valid()
      ensures id !in old(appointments) ==> r == Err(NotFound) && unchanged(this)
      ensures id in old(appointments) && employee.Some? && employee.value !in old(employees) ==>
                r == Err(Invalid("employee")) && unchanged(this)
      ensures id in old(appointments) && (employee.Some? ==> employee.value in old(employees)) ==>
                var before := old(appointments)[id];
                var owner := employee.GetOr(before.employee);
                && appointments == old(appointments)[id := before.(date := date.GetOr(before.date), employee := owner)]
                && appointments[id].note == before.note
                && departments == old(departments)
                && owner in old(employees)
                && DatesOf(appointments, owner) != {}
                && var reminder := ReminderFor(appointments, owner, old(employees)[owner].reminderInterval);
                   if InPythonRange(reminder) then
                     && r == Ok(())
                     && employees == old(employees)[owner := old(employees)[owner].(nextReminder := Some(reminder))]
                   else
                     r == Err(ReminderOutOfRange) && employees == old(employees)
    {
      if id !in appointments {
        return Err(NotFound);
      }
      if employee.Some? && employee.value !in employees {
        return Err(Invalid("employee"));
      }
      var before := appointments[id];
      var owner := employee.GetOr(before.employee);
      ReplaceAppointment(id, before.(date := date.GetOr(before.date), employee := owner));
      r := RecomputeReminder(owner, false);
    }

    /** Overwrites a stored appointment with a valid row for a stored employee. */
    method ReplaceAppointment(id: nat, a: Appointment)
      requires Valid() && id in appointments
      requires a.employee in employees && ValidDate(a.date) && InPythonRange(a.date)
      modifies this`appointments
      ensures Valid()
      ensures appointments == old(appointments)[id := a]
      ensures a.date in DatesOf(appointments, a.employee)
    {
      AppointmentWriteKeepsTables(departments, employees, appointments, id, a);
      appointments := appointments[id := a];
      assert appointments[id] == a;
    }

    /** The default destroy: removes the appointment and recomputes nothing. */
    method DeleteAppointment(id: nat) returns (r: Result<(), StoreError>)
      requires Valid()
      modifies this
      ensures Valid()
      ensures id !in old(appointments) ==> r == Err(NotFound) && unchanged(this)
      ensures id in old(appointments) ==>
                && r == Ok(())
                && appointments == old(appointments) - {id}
                && employees == old(employees) && departments == old(departments)
    {
      if id !in appointments {
        return Err(NotFound);
      }
      appointments := appointments - {id};
      r := Ok(());
    }
  }
}
