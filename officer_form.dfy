/** The officer form of `client/src/components/Officers/AddOfficerModal.jsx`:
    its first state, the checks `validateForm` makes, the error clearing
    of `handleInputChange`, and the submission that only a valid form
    reaches. */
module OfficerForm {
  import opened Base
  import opened Json
  import opened Text

  /** The fields of the form. */
  const FormFields: set<string> := {
    "firstName", "lastName", "badgeNumber", "department", "position", "rank", "email", "phone",
    "dateJoined", "specialization", "yearsOfService", "supervisor", "shift", "status", "emergencyContact"}

  /** The value a field holds when no officer is being edited: "Day" for
      the shift, "active" for the status, empty otherwise. */
  function Default(f: string): string {
    if f == "shift" then "Day" else if f == "status" then "active" else ""
  }

  const Defaults: Form := map f | f in FormFields :: Default(f)

  /** The first state of the form: `editingOfficer?.f || default` for each
      field. A truthy value that is not text is kept as its text. */
  function InitialForm(editing: Option<Doc>): (r: Form)
    ensures r.Keys == Defaults.Keys
    ensures editing.None? ==> r == Defaults
    ensures forall f | f in r ::
      r[f] == (if editing.Some? && Truthy(Get(editing.value, f)) then ToText(Get(editing.value, f)) else Default(f))
  {
    map f | f in FormFields :: if editing.Some? && Truthy(Get(editing.value, f)) then ToText(Get(editing.value, f)) else Default(f)
  }

  /** An officer being edited fills every field it has a non-empty text
      for; a field it lacks keeps its default, so a new officer's shift is
      "Day" and status "active" unless the record says otherwise. */
  lemma InitialFormFromOfficer(o: Doc, f: string)
    requires f in FormFields
    ensures Get(o, f).Str? && Get(o, f).s != "" ==> InitialForm(Some(o))[f] == Get(o, f).s
    ensures !Truthy(Get(o, f)) ==> InitialForm(Some(o))[f] == Default(f)
  {
  }

  /** The fields `validateForm` checks, and so the only ones that can be
      shown in error. */
  datatype Checked = FirstName | LastName | Department | Position | Email | Phone {
    /** The field's name in the form. */
    function Name(): string {
      match this
      case FirstName => "firstName"
      case LastName => "lastName"
      case Department => "department"
      case Position => "position"
      case Email => "email"
      case Phone => "phone"
    }

    /** The message shown under the field when it is in error. */
    function Message(): string {
      match this
      case FirstName => "First name is required"
      case LastName => "Last name is required"
      case Department => "Department is required"
      case Position => "Position is required"
      case Email => "Please enter a valid email"
      case Phone => "Please enter a valid phone number"
    }
  }

  /** The checked field a form field name stands for, if any. */
  function CheckedNamed(name: string): (r: Option<Checked>)
    ensures r.Some? ==> r.value.Name() == name
    ensures r.None? ==> forall c: Checked :: c.Name() != name
  {
    if name == "firstName" then Some(FirstName)
    else if name == "lastName" then Some(LastName)
    else if name == "department" then Some(Department)
    else if name == "position" then Some(Position)
    else if name == "email" then Some(Email)
    else if name == "phone" then Some(Phone)
    else None
  }

  /** The check `validateForm` makes on the text of one field: a name must
      not be blank (`!v.trim()`, which holds exactly when `v` is all white
      space, by `Text.TrimEmptyIffAllSpace`), a department and a position
      must be chosen, and an e-mail or a phone number, when given, must
      match its pattern. */
  predicate Fails(c: Checked, v: string) {
    match c
    case FirstName => AllSpace(v)
    case LastName => AllSpace(v)
    case Department => v == ""
    case Position => v == ""
    case Email => v != "" && !MatchesEmailPattern(v)
    case Phone => v != "" && !MatchesPhonePattern(v)
  }

  /** Whether field `c` of the form is in error. */
  predicate FailsIn(form: Form, c: Checked) {
    Fails(c, Field(form, c.Name()))
  }

  /** The errors `validateForm` records for a form: a field is in the map
      exactly when its check fails, with its message. */
  function FieldErrors(form: Form): (e: map<Checked, string>)
    ensures forall c: Checked :: c in e <==> FailsIn(form, c)
    ensures forall c | c in e :: e[c] == c.Message()
  {
    map c: Checked | FailsIn(form, c) :: c.Message()
  }

  /** Six checks, each recorded exactly when it fails, record the failing
      fields and no other. */
  lemma FailingCovers(form: Form, failing: set<Checked>, first: bool, last: bool, department: bool,
                      position: bool, email: bool, phone: bool)
    requires first == FailsIn(form, FirstName) && last == FailsIn(form, LastName)
    requires department == FailsIn(form, Department) && position == FailsIn(form, Position)
    requires email == FailsIn(form, Email) && phone == FailsIn(form, Phone)
    requires (FirstName in failing <==> first) && (LastName in failing <==> last)
    requires (Department in failing <==> department) && (Position in failing <==> position)
    requires (Email in failing <==> email) && (Phone in failing <==> phone)
    ensures (map c | c in failing :: c.Message()) == FieldErrors(form)
    ensures failing == {} <==> FieldErrors(form) == map[]
  {
    forall c: Checked ensures c in failing <==> FailsIn(form, c) {
      match c
      case FirstName =>
      case LastName =>
      case Department =>
      case Position =>
      case Email =>
      case Phone =>
    }
    if failing != {} {
      var c :| c in failing;
      assert c in FieldErrors(form);
    }
  }

  /** The form is valid exactly when both names hold a character that is
      not white space, a department and a position are chosen, and the
      e-mail and phone are each either left empty or well formed. */
  lemma ValidIff(form: Form)
    ensures FieldErrors(form) == map[] <==>
      && !AllSpace(Field(form, "firstName")) && !AllSpace(Field(form, "lastName"))
      && Field(form, "department") != "" && Field(form, "position") != ""
      && (Field(form, "email") == "" || MatchesEmailPattern(Field(form, "email")))
      && (Field(form, "phone") == "" || MatchesPhonePattern(Field(form, "phone")))
  {
    var e := FieldErrors(form);
    if e != map[] {
      var c :| c in e;
      assert FailsIn(form, c);
    } else {
      assert !FailsIn(form, FirstName) && !FailsIn(form, LastName) && !FailsIn(form, Department);
      assert !FailsIn(form, Position) && !FailsIn(form, Email) && !FailsIn(form, Phone);
    }
  }

  /** The form a new officer starts with is refused, with exactly the four
      required fields in error. */
  lemma EmptyFormRefused()
    ensures FieldErrors(InitialForm(None)).Keys == {FirstName, LastName, Department, Position}
  {
    forall c: Checked ensures FailsIn(Defaults, c) <==> c in {FirstName, LastName, Department, Position} {
      var f := c.Name();
      assert f in FormFields && Default(f) == "";
      assert Field(Defaults, f) == "";
    }
  }

  /** Whether a field is in error depends on that field alone: changing
      one field leaves the verdict on every other field as it was. */
  lemma ErrorsAreFieldLocal(form: Form, name: string, value: string)
    ensures forall c: Checked | c.Name() != name :: c in FieldErrors(form[name := value]) <==> c in FieldErrors(form)
  {
    var after := form[name := value];
    forall c: Checked | c.Name() != name
      ensures FailsIn(after, c) <==> FailsIn(form, c)
    {
      assert Field(after, c.Name()) == Field(form, c.Name());
    }
  }

  /** A number written as '+' and digits is accepted; one holding a
      letter is refused, and so are "+" and the empty string. */
  lemma PhonePatternShape(s: string)
    ensures |s| > 1 && s[0] == '+' && (forall i | 1 <= i < |s| :: IsDigit(s[i])) ==> MatchesPhonePattern(s)
    ensures (exists i | 0 <= i < |s| :: IsLowerLetter(s[i]) || IsUpperLetter(s[i])) ==> !MatchesPhonePattern(s)
    ensures s == "+" || s == "" ==> !MatchesPhonePattern(s)
  {
    if |s| > 1 && s[0] == '+' && (forall i | 1 <= i < |s| :: IsDigit(s[i])) {
      forall j | 0 <= j < |s| - 1 ensures IsPhoneChar(s[1..][j]) {
        assert s[1..][j] == s[j + 1];
      }
    }
    if exists i | 0 <= i < |s| :: IsLowerLetter(s[i]) || IsUpperLetter(s[i]) {
      var i :| 0 <= i < |s| && (IsLowerLetter(s[i]) || IsUpperLetter(s[i]));
      if |s| > 0 && s[0] == '+' {
        assert i > 0 && s[1..][i - 1] == s[i];
      } else {
        assert !IsPhoneChar(s[i]);
      }
    }
  }

  /** The modal: the form, the error messages shown under the fields, the
      forms handed to `onSubmit`, and whether `onClose` was called. */
  class OfficerModal {
    var form: Form
    var errors: map<Checked, string>
    var submitted: seq<Form>
    var closed: bool

    /** The modal opens on the officer being edited, or on the defaults,
        with no errors. */
    constructor (editing: Option<Doc>)
      ensures form == InitialForm(editing) && errors == map[] && submitted == [] && !closed
    {
      form := InitialForm(editing);
      errors := map[];
      submitted := [];
      closed := false;
    }

    /** `handleInputChange`: the field takes the value typed, and an error
        shown for that field, and only that one, is cleared. */
    method HandleInputChange(name: string, value: string)
      modifies this
      ensures form == old(form)[name := value]
      ensures forall c: Checked :: c in errors <==> c in old(errors)
      ensures forall c | c in errors ::
        errors[c] == if c.Name() == name then "" else old(errors)[c]
      ensures submitted == old(submitted) && closed == old(closed)
    {
      form := form[name := value];
      var c := CheckedNamed(name);
      if c.Some? && c.value in errors && errors[c.value] != "" {
        errors := errors[c.value := ""];
      }
    }

    /** `validateForm`: the checks run one after the other, each failing
        one recording its field's message; the form is valid exactly when
        none was recorded. */
    method ValidateForm() returns (valid: bool)
      modifies this`errors
      ensures errors == FieldErrors(form)
      ensures valid <==> errors == map[]
    {
      var f := form;
      var first, last, department, position, email, phone :=
        FailsIn(f, FirstName), FailsIn(f, LastName), FailsIn(f, Department),
        FailsIn(f, Position), FailsIn(f, Email), FailsIn(f, Phone);
      var failing: set<Checked> := {};
      if first {
        failing := failing + {FirstName};
      }
      if last {
        failing := failing + {LastName};
      }
      if department {
        failing := failing + {Department};
      }
      if position {
        failing := failing + {Position};
      }
      if email {
        failing := failing + {Email};
      }
      if phone {
        failing := failing + {Phone};
      }
      FailingCovers(f, failing, first, last, department, position, email, phone);
      errors := map c | c in failing :: c.Message();
      valid := failing == {};
    }

    /** `handleSubmit`: an invalid form goes no further; a valid one is
        handed to `onSubmit`, and the modal is closed when that succeeds
        (`accepted`). */
    method HandleSubmit(accepted: bool) returns (valid: bool)
      modifies this`errors, this`submitted, this`closed
      ensures errors == FieldErrors(form)
      ensures valid <==> errors == map[]
      ensures submitted == if valid then old(submitted) + [form] else old(submitted)
      ensures closed == (old(closed) || (valid && accepted))
    {
      valid := ValidateForm();
      if !valid {
        return;
      }
      submitted := submitted + [form];
      if accepted {
        closed := true;
      }
    }
  }
}
