/** The reusable signup form component (src/components/waitlist/WaitlistForm.tsx):
    its form-data record, updated one named field per keystroke, and the
    forwarding of that record to the parent's onSubmit callback. The parent's
    `error` and `isLoading` props decide what the form shows. */
module WaitlistFormComponent {

  /** The component's form-data record (lines 6-10). */
  datatype FormData = FormData(fullName: string, email: string, startupName: string)

  /** The `name` attribute of each of the three inputs. */
  datatype FieldName = FullName | Email | StartupName

  /** The record the component starts with: every field empty. */
  const InitialFormData: FormData := FormData("", "", "")

  /** The value of a named field. */
  function Field(d: FormData, n: FieldName): string {
    match n
    case FullName => d.fullName
    case Email => d.email
    case StartupName => d.startupName
  }

  /** `{ ...prev, [name]: value }`: the record with field `n` set to `v`. */
  function WithField(d: FormData, n: FieldName, v: string): (r: FormData)
    ensures Field(r, n) == v
    ensures forall m :: m != n ==> Field(r, m) == Field(d, m)
  {
    match n
    case FullName => d.(fullName := v)
    case Email => d.(email := v)
    case StartupName => d.(startupName := v)
  }

  /** Setting a field to the value it already holds changes nothing. */
  lemma WithFieldSameValue(d: FormData, n: FieldName)
    ensures WithField(d, n, Field(d, n)) == d
  {
  }

  /** Applying the same change twice is the same as applying it once. */
  lemma WithFieldIdempotent(d: FormData, n: FieldName, v: string)
    ensures WithField(WithField(d, n, v), n, v) == WithField(d, n, v)
  {
  }

  /** Of two changes to the same field, the later one wins. */
  lemma WithFieldLastWins(d: FormData, n: FieldName, v: string, w: string)
    ensures WithField(WithField(d, n, v), n, w) == WithField(d, n, w)
  {
  }

  /** Changes to two different fields can be made in either order. */
  lemma WithFieldCommutes(d: FormData, n: FieldName, v: string, m: FieldName, w: string)
    requires n != m
    ensures WithField(WithField(d, n, v), m, w) == WithField(WithField(d, m, w), n, v)
  {
  }

  /** What the form renders from the parent's props and its own record. */
  datatype FormView = FormView(values: FormData, errorLine: string, errorShown: bool,
                               buttonDisabled: bool, buttonLabel: string)

  class WaitlistForm {
    var formData: FormData
    /** The parent's `error` prop. */
    var error: string
    /** The parent's `isLoading` prop. */
    var isLoading: bool
    /** The records handed to the parent's onSubmit, oldest first. */
    var submittedData: seq<FormData>

    /** The component as first rendered with the given props. */
    constructor (error: string, isLoading: bool)
      ensures formData == InitialFormData && forall n :: Field(formData, n) == ""
      ensures this.error == error && this.isLoading == isLoading && submittedData == []
    {
      formData := InitialFormData;
      this.error := error;
      this.isLoading := isLoading;
      submittedData := [];
    }

    /** A re-render with new props; the component's own record is kept. */
    method ReceiveProps(error: string, isLoading: bool)
      modifies this`error, this`isLoading
      ensures this.error == error && this.isLoading == isLoading
    {
      this.error := error;
      this.isLoading := isLoading;
    }

    /** handleInputChange: the input named `name` now holds `value`; the other
        fields keep their values. */
    method HandleInputChange(name: FieldName, value: string)
      modifies this`formData
      ensures formData == WithField(old(formData), name, value)
      ensures Field(formData, name) == value
      ensures forall m :: m != name ==> Field(formData, m) == Field(old(formData), m)
    {
      formData := WithField(formData, name, value);
    }

    /** handleSubmit: hands the current record, unchanged, to onSubmit; the
        record itself stays as it is. */
    method HandleSubmit()
      modifies this`submittedData
      ensures submittedData == old(submittedData) + [formData]
    {
      submittedData := submittedData + [formData];
    }

    /** The form as rendered: the error paragraph appears exactly when `error`
        is a non-empty string, and the button is disabled exactly while loading. */
    function Render(): (v: FormView)
      reads this
      ensures v.values == formData
      ensures v.errorShown <==> |error| > 0
      ensures v.errorShown ==> v.errorLine == error
      ensures v.buttonDisabled <==> isLoading
      ensures v.buttonLabel == (if isLoading then "Joining..." else "Join the Waitlist")
    {
      FormView(formData, error, error != "", isLoading,
               if isLoading then "Joining..." else "Join the Waitlist")
    }
  }

  /** Typing into each input of a fresh form and submitting hands exactly the
      typed values to onSubmit. */
  method FillAndSubmit(name: string, email: string, startup: string) returns (f: WaitlistForm)
    ensures fresh(f)
    ensures f.submittedData == [FormData(name, email, startup)]
    ensures f.formData == FormData(name, email, startup)
  {
    f := new WaitlistForm("", false);
    f.HandleInputChange(Email, email);
    f.HandleInputChange(StartupName, startup);
    f.HandleInputChange(FullName, name);
    f.HandleSubmit();
  }
}
