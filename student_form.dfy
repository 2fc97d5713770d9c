/** The add/edit form: the four input values and the submitting flag. */
module StudentForm {
  import opened Wrappers
  import opened Records

  /** The `name` attribute of an input. */
  datatype Input = NameInput | EmailInput | CourseInput | StatusInput

  datatype Form = Form(name: string, email: string, course: string, status: string) {
    function Get(input: Input): string {
      match input
      case NameInput => name
      case EmailInput => email
      case CourseInput => course
      case StatusInput => status
    }

    /** `{ ...f, [input]: value }`: the named input takes the value, the
        others keep theirs. */
    function With(input: Input, value: string): (f: Form)
      ensures f.Get(input) == value
      ensures forall other :: other != input ==> f.Get(other) == Get(other)
    {
      match input
      case NameInput => this.(name := value)
      case EmailInput => this.(email := value)
      case CourseInput => this.(course := value)
      case StatusInput => this.(status := value)
    }

    /** `{ ...form }` as a payload: the four properties, nothing else. */
    function ToPayload(): (p: Student)
      ensures p.name == Some(name) && p.email == Some(email)
      ensures p.course == Some(course) && p.status == Some(status)
      ensures p.id.None? && p.createdAt.None? && p.updatedAt.None?
    {
      NoFields.(name := Some(name), email := Some(email), course := Some(course), status := Some(status))
    }
  }

  /** The blank form: no text, status Active. */
  const Empty := Form("", "", "", "Active")

  /** The blank form is what a record with no values fills in, and it comes
      back unchanged from its own payload. */
  lemma BlankForm()
    ensures FromRecord(NoFields) == Empty
    ensures FromRecord(Empty.ToPayload()) == Empty
  {
  }

  /** The form filled from a record: each field falls back to the blank
      form's value when the record's is missing or empty. */
  function FromRecord(s: Student): (f: Form)
    ensures Truthy(s.name) ==> f.name == s.name.value
    ensures Truthy(s.email) ==> f.email == s.email.value
    ensures Truthy(s.course) ==> f.course == s.course.value
    ensures Truthy(s.status) ==> f.status == s.status.value
    ensures forall input :: !Truthy(Get(s, FieldOf(input))) ==> f.Get(input) == Empty.Get(input)
  {
    Form(Or(s.name, ""), Or(s.email, ""), Or(s.course, ""), Or(s.status, "Active"))
  }

  /** The record property an input edits. */
  function FieldOf(input: Input): Records.Field {
    match input
    case NameInput => Name
    case EmailInput => Email
    case CourseInput => Course
    case StatusInput => Status
  }

  /** `isEdit`: the form edits when it was given a record with an id. */
  predicate IsEdit(defaultValues: Option<Student>): (r: bool)
    ensures r ==> defaultValues.Some? && defaultValues.value.id.Some? && defaultValues.value.id.value != ""
    ensures defaultValues.Some? && Truthy(defaultValues.value.id) ==> r
  {
    defaultValues.Some? && Truthy(defaultValues.value.id)
  }

  /** Filling the form from the record the form itself sends back loses
      nothing: the four values come back as they were, as long as none is
      empty. */
  lemma {:induction false} FormRoundTrip(f: Form)
    requires f.name != "" && f.email != "" && f.course != "" && f.status != ""
    ensures FromRecord(f.ToPayload()) == f
  {
  }

  class FormState {
    var form: Form
    var submitting: bool

    constructor ()
      ensures form == Empty && !submitting
    {
      form, submitting := Empty, false;
    }

    /** The effect on `defaultValues`: a record fills the form, none leaves
        it as it is. */
    method ApplyDefaults(defaultValues: Option<Student>)
      modifies this
      ensures defaultValues.Some? ==> form == FromRecord(defaultValues.value)
      ensures defaultValues.None? ==> form == old(form)
      ensures submitting == old(submitting)
    {
      if defaultValues.Some? {
        form := FromRecord(defaultValues.value);
      }
    }

    /** `handleChange(e)`: only the named input changes. */
    method HandleChange(input: Input, value: string)
      modifies this
      ensures form.Get(input) == value
      ensures forall other :: other != input ==> form.Get(other) == old(form).Get(other)
      ensures submitting == old(submitting)
    {
      form := form.With(input, value);
    }

    /** The first half of `handleSubmit`: the flag goes up and a copy of the
        form is handed to `onSubmit`. */
    method BeginSubmit() returns (payload: Student)
      modifies this
      ensures submitting
      ensures payload == form.ToPayload() && form == old(form)
    {
      submitting := true;
      payload := form.ToPayload();
    }

    /** The second half, once `onSubmit` settled: success clears the form, a
        rejection keeps what was typed; the flag goes down either way. */
    method FinishSubmit(succeeded: bool)
      modifies this
      ensures !submitting
      ensures succeeded ==> form == Empty
      ensures !succeeded ==> form == old(form)
    {
      if succeeded {
        form := Empty;
      }
      submitting := false;
    }
  }
}
