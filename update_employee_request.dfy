/** The form request that validates an update of an employee: its rules, its
    custom messages and its (unconditional) authorization. */
module UpdateEmployeeRequest {
  import opened Wrappers
  import opened Text
  import opened Records
  import opened Validation

  datatype Field = EmployeeIdField | NameField | DepartmentField | GradeField | PhoneField

  const AllFields: set<Field> := {EmployeeIdField, NameField, DepartmentField, GradeField, PhoneField}

  /** The submitted form. */
  datatype EmployeeForm = EmployeeForm(
    employeeId: RequestValue,
    name: RequestValue,
    department: RequestValue,
    grade: RequestValue,
    phone: RequestValue)

  /** `authorize()`: every request may update an employee. */
  function Authorize(): (r: bool)
    ensures r
  {
    true
  }

  /** `Rule::unique('employees', 'employee_id')->ignore($employee, 'id')`: no row
      other than the one being updated (row id `ignoredId`) already uses `key`. */
  predicate UniqueIgnoring(key: string, employees: seq<Employee>, ignoredId: nat) {
    forall e :: e in employees && e.employeeId == key ==> e.id == ignoredId
  }

  /** The first failing rule of one field, in the order the rules are listed. */
  function FieldFailure(form: EmployeeForm, employees: seq<Employee>, ignoredId: nat, f: Field): Option<Rule> {
    match f
    case EmployeeIdField =>
      (match RequiredString(form.employeeId, 50)
       case Some(rule) => Some(rule)
       case None => if UniqueIgnoring(form.employeeId.s, employees, ignoredId) then None else Some(Unique))
    case NameField => RequiredString(form.name, 255)
    case DepartmentField => RequiredString(form.department, 100)
    case GradeField => RequiredString(form.grade, 50)
    case PhoneField => NullableString(form.phone, 20)
  }

  /** A non-blank string of at most `limit` characters. */
  predicate FilledUpTo(v: RequestValue, limit: nat) {
    v.Str? && !Blank(v.s) && |v.s| <= limit
  }

  /** What an acceptable update looks like, stated field by field. */
  predicate Acceptable(form: EmployeeForm, employees: seq<Employee>, ignoredId: nat) {
    && FilledUpTo(form.employeeId, 50)
    && (forall e :: e in employees && e.id != ignoredId ==> e.employeeId != form.employeeId.s)
    && FilledUpTo(form.name, 255)
    && FilledUpTo(form.department, 100)
    && FilledUpTo(form.grade, 50)
    && (form.phone.Null? || (form.phone.Str? && (Blank(form.phone.s) || |form.phone.s| <= 20)))
  }

  /** The validator's error bag: for each failing field, its first failing rule. */
  function Validate(form: EmployeeForm, employees: seq<Employee>, ignoredId: nat): (errors: map<Field, Rule>)
    ensures errors == map[] <==> Acceptable(form, employees, ignoredId)
    ensures EmployeeIdField in errors && errors[EmployeeIdField] == Unique <==>
              FilledUpTo(form.employeeId, 50) && !UniqueIgnoring(form.employeeId.s, employees, ignoredId)
    ensures EmployeeIdField in errors && errors[EmployeeIdField] == Required <==> !Present(form.employeeId)
    ensures PhoneField !in errors || errors[PhoneField] != Required
    ensures errors.Keys <= AllFields
    ensures EmployeeIdField in errors <==>
              !(FilledUpTo(form.employeeId, 50) && UniqueIgnoring(form.employeeId.s, employees, ignoredId))
    ensures RequiredString(form.employeeId, 50).Some? ==>
              errors[EmployeeIdField] == RequiredString(form.employeeId, 50).value
    ensures NameField in errors <==> !FilledUpTo(form.name, 255)
    ensures NameField in errors ==> errors[NameField] == RequiredString(form.name, 255).value
    ensures DepartmentField in errors <==> !FilledUpTo(form.department, 100)
    ensures DepartmentField in errors ==> errors[DepartmentField] == RequiredString(form.department, 100).value
    ensures GradeField in errors <==> !FilledUpTo(form.grade, 50)
    ensures GradeField in errors ==> errors[GradeField] == RequiredString(form.grade, 50).value
    ensures PhoneField in errors <==> NullableString(form.phone, 20).Some?
    ensures PhoneField in errors ==> errors[PhoneField] == NullableString(form.phone, 20).value
  {
    var errors := map f | f in AllFields && FieldFailure(form, employees, ignoredId, f).Some?
                    :: FieldFailure(form, employees, ignoredId, f).value;
    assert errors == map[] <==> forall f :: f in AllFields ==> FieldFailure(form, employees, ignoredId, f).None? by {
      if errors == map[] {
        forall f | f in AllFields ensures FieldFailure(form, employees, ignoredId, f).None? {
          assert f !in errors;
        }
      }
    }
    errors
  }

  /** `messages()`: the custom text for a failing rule, or None where the
      framework's default message applies. */
  function Message(f: Field, rule: Rule): (r: Option<string>)
    ensures r.Some? ==> rule == Required || (f == EmployeeIdField && rule == Unique)
    ensures rule == Required && f != PhoneField ==> r.Some?
  {
    match (f, rule)
    case (EmployeeIdField, Required) => Some("Employee ID is required.")
    case (EmployeeIdField, Unique) => Some("This employee ID already exists.")
    case (NameField, Required) => Some("Employee name is required.")
    case (DepartmentField, Required) => Some("Department is required.")
    case (GradeField, Required) => Some("Grade is required.")
    case _ => None
  }

  /** An update may resubmit the record's own employee id, as long as no other
      row holds it. */
  lemma KeepOwnEmployeeId(form: EmployeeForm, employees: seq<Employee>, self: Employee)
    requires self in employees
    requires forall e :: e in employees && e.employeeId == self.employeeId ==> e.id == self.id
    requires form.employeeId == Str(self.employeeId) && FilledUpTo(form.employeeId, 50)
    ensures EmployeeIdField !in Validate(form, employees, self.id)
  {
  }

  /** An employee id already used by another row fails with the custom duplicate message. */
  lemma DuplicateEmployeeIdRejected(form: EmployeeForm, employees: seq<Employee>, ignoredId: nat, other: Employee)
    requires other in employees && other.id != ignoredId
    requires form.employeeId == Str(other.employeeId) && FilledUpTo(form.employeeId, 50)
    ensures EmployeeIdField in Validate(form, employees, ignoredId)
    ensures Message(EmployeeIdField, Validate(form, employees, ignoredId)[EmployeeIdField])
            == Some("This employee ID already exists.")
  {
  }

  /** A phone sent as an empty array is not null, so `nullable` does not skip
      it and `string` rejects it. */
  lemma EmptyPhoneArrayRejected(form: EmployeeForm, employees: seq<Employee>, ignoredId: nat)
    requires form.phone == EmptyArray
    ensures PhoneField in Validate(form, employees, ignoredId)
    ensures Validate(form, employees, ignoredId)[PhoneField] == MustBeString
  {
    assert FieldFailure(form, employees, ignoredId, PhoneField) == Some(MustBeString);
  }
}
