/** The "Add New Task" form of src/components/TaskForm.tsx. */
module TaskForm {
  import opened Outcomes
  import opened Tasks
  import opened Text

  /** The controlled inputs; every one holds text, the empty text when blank. */
  datatype FormData = FormData(title: string, description: string, priority: string,
                               dueDate: string, category: string)

  /** The state the form starts in and returns to after a successful submit. */
  const InitialForm := FormData("", "", Medium, "", "")

  /** `value || undefined`: a blank optional input is left out of the request. */
  function Optional(value: string): (r: Field<string>)
    ensures r.Absent? <==> value == ""
    ensures r.Value? ==> r.value == value
    ensures !r.Null?
  {
    if value == "" then Absent else Value(value)
  }

  /** The argument of `onSubmit`. */
  function Payload(form: FormData): (r: CreateTaskData)
    ensures r.title == form.title && r.priority == Value(form.priority)
    ensures r.description == Optional(form.description)
    ensures r.dueDate == Optional(form.dueDate)
    ensures r.category == Optional(form.category)
  {
    CreateTaskData(form.title, Optional(form.description), Value(form.priority),
                   Optional(form.dueDate), Optional(form.category))
  }

  /** The payload never carries an empty optional text, and leaves a field out exactly when its
      input is blank. */
  lemma PayloadHasNoEmptyText(form: FormData)
    ensures forall v :: (Payload(form).description == Value(v) || Payload(form).dueDate == Value(v)
                         || Payload(form).category == Value(v)) ==> v != ""
    ensures Payload(form).description.Absent? <==> form.description == ""
    ensures Payload(form).dueDate.Absent? <==> form.dueDate == ""
    ensures Payload(form).category.Absent? <==> form.category == ""
  {
  }

  /** The submit button: disabled while a request is pending or the title is blank. */
  predicate SubmitEnabled(loading: bool, form: FormData) {
    !loading && Trim(form.title) != ""
  }

  /** The initial form cannot be submitted. */
  lemma InitialFormCannotSubmit(loading: bool)
    ensures !SubmitEnabled(loading, InitialForm)
  {
    assert InitialForm.title == "";
  }

  /** A title made only of white space is blank. */
  lemma BlankTitle(form: FormData)
    ensures Trim(form.title) == "" <==> AllSpace(form.title)
  {
    TrimEmptyIff(form.title);
  }

  class TaskFormState {
    var formData: FormData

    constructor()
      ensures formData == InitialForm
    {
      formData := InitialForm;
    }

    /** `handleSubmit`: a blank title sends nothing; otherwise the payload is sent and the form
        is reset if `onSubmit` resolved, kept if it threw. */
    method HandleSubmit(onSubmit: Outcome) returns (sent: Option<CreateTaskData>)
      modifies this
      ensures Trim(old(formData.title)) == "" ==> sent.None? && formData == old(formData)
      ensures Trim(old(formData.title)) != "" ==> sent == Some(Payload(old(formData)))
      ensures Trim(old(formData.title)) != "" && onSubmit.Done? ==> formData == InitialForm
      ensures onSubmit.Threw? ==> formData == old(formData)
    {
      if Trim(formData.title) == "" {
        return None;
      }
      sent := Some(Payload(formData));
      if onSubmit.Done? {
        formData := InitialForm;
      }
    }
  }
}
