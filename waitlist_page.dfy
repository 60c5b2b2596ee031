/** The waitlist page's submission controller (src/pages/Index.tsx, lines 31-68
    and the bindings at 153, 192-213): the signup form record, the `submitted`
    and `loading` flags, the ordered guard checks of handleSubmit and the
    resolution of its simulated call. Toasts are recorded as a log. */
module WaitlistPage {
  import opened Validators

  datatype Option<T> = None | Some(value: T)

  /** The page's form record: one string per input. */
  datatype SignupForm = SignupForm(fullName: string, email: string, linkedin: string)

  /** The record the page starts with. */
  const EmptyForm: SignupForm := SignupForm("", "", "")

  /** A toast notification: its kind and its text. */
  datatype Toast = ErrorToast(text: string) | SuccessToast(text: string)

  const SuccessText: string := "Successfully joined the waitlist!"
  const FailureText: string := "Something went wrong. Please try again."

  // ---------------------------------------------------------------------------
  // The guard phase of handleSubmit
  // ---------------------------------------------------------------------------

  /** The three checks of handleSubmit. */
  datatype Check = NameGiven | EmailValid | LinkedInValid

  /** The order in which handleSubmit runs the checks. */
  const CheckOrder: seq<Check> := [NameGiven, EmailValid, LinkedInValid]

  /** Whether `form` passes check `c`. `!form.fullName` is true exactly for the empty string. */
  predicate Passes(c: Check, form: SignupForm) {
    match c
    case NameGiven => form.fullName != ""
    case EmailValid => ValidateEmail(form.email)
    case LinkedInValid => ValidateLinkedIn(form.linkedin)
  }

  /** The error toast text of a failing check. */
  function ErrorText(c: Check): string {
    match c
    case NameGiven => "Please enter your name"
    case EmailValid => "Please enter a valid email"
    case LinkedInValid => "Please enter a valid LinkedIn URL"
  }

  /** Different checks have different messages, so a toast tells which check failed. */
  lemma ErrorTextsDistinct(c: Check, d: Check)
    requires c != d
    ensures ErrorText(c) != ErrorText(d)
  {
  }

  /** The check that stops handleSubmit, if any: the chain of early returns. */
  function FirstFailure(form: SignupForm): (r: Option<Check>)
    ensures r.None? <==> forall c :: Passes(c, form)
    ensures r.Some? ==> !Passes(r.value, form)
  {
    if form.fullName == "" then
      assert !Passes(NameGiven, form); Some(NameGiven)
    else if !ValidateEmail(form.email) then
      assert !Passes(EmailValid, form); Some(EmailValid)
    else if !ValidateLinkedIn(form.linkedin) then
      assert !Passes(LinkedInValid, form); Some(LinkedInValid)
    else None
  }

  /** The check reported is the earliest failing one in CheckOrder: it fails and
      every check before it passes. */
  lemma FirstFailureIsEarliest(form: SignupForm, i: nat)
    requires i < |CheckOrder|
    ensures FirstFailure(form) == Some(CheckOrder[i])
        <==> !Passes(CheckOrder[i], form) && forall j :: 0 <= j < i ==> Passes(CheckOrder[j], form)
  {
    assert CheckOrder[0] == NameGiven && CheckOrder[1] == EmailValid && CheckOrder[2] == LinkedInValid;
  }

  /** An empty name is reported first, whatever the other fields hold. */
  lemma EmptyNameReportedFirst(form: SignupForm)
    requires form.fullName == ""
    ensures FirstFailure(form) == Some(NameGiven)
    ensures ErrorText(FirstFailure(form).value) == "Please enter your name"
  {
  }

  /** A named signup whose address the pattern rejects is reported as an email
      error, whatever the LinkedIn field holds. */
  lemma BadEmailReported(form: SignupForm)
    requires form.fullName != "" && !ValidateEmail(form.email)
    ensures FirstFailure(form) == Some(EmailValid)
    ensures ErrorText(FirstFailure(form).value) == "Please enter a valid email"
  {
    FirstFailureIsEarliest(form, 1);
  }

  // ---------------------------------------------------------------------------
  // The rendered view
  // ---------------------------------------------------------------------------

  /** What the page shows where the form sits: the welcome card once submitted,
      otherwise the form, with its submit button disabled while loading. */
  datatype View = WelcomeCard | FormView(values: SignupForm, buttonDisabled: bool, buttonLabel: string)

  // ---------------------------------------------------------------------------
  // The page component
  // ---------------------------------------------------------------------------

  class Page {
    var form: SignupForm
    var submitted: bool
    var loading: bool
    /** Simulated calls that handleSubmit has started and that have not resolved yet. */
    var inFlight: nat
    /** The toasts emitted so far, oldest first. */
    var toasts: seq<Toast>

    /** `loading` is only ever true while a simulated call is outstanding. */
    ghost predicate Valid()
      reads this
    {
      loading ==> inFlight > 0
    }

    /** The state of a freshly mounted page. */
    constructor ()
      ensures Valid()
      ensures form == EmptyForm && !submitted && !loading && inFlight == 0 && toasts == []
    {
      form := EmptyForm;
      submitted := false;
      loading := false;
      inFlight := 0;
      toasts := [];
    }

    /** The full-name input's onChange: replaces that field only. */
    method EditFullName(value: string)
      modifies this`form
      ensures form.fullName == value
      ensures form.email == old(form.email) && form.linkedin == old(form.linkedin)
    {
      form := form.(fullName := value);
    }

    /** The email input's onChange: replaces that field only. */
    method EditEmail(value: string)
      modifies this`form
      ensures form.email == value
      ensures form.fullName == old(form.fullName) && form.linkedin == old(form.linkedin)
    {
      form := form.(email := value);
    }

    /** The LinkedIn input's onChange: replaces that field only. */
    method EditLinkedIn(value: string)
      modifies this`form
      ensures form.linkedin == value
      ensures form.fullName == old(form.fullName) && form.email == old(form.email)
    {
      form := form.(linkedin := value);
    }

    /** The synchronous part of handleSubmit: the checks in order, then the
        start of loading and of the simulated call. `started` tells whether
        the call was started. The form and `submitted` are left alone. */
    method Submit() returns (started: bool)
      requires Valid()
      modifies this`loading, this`inFlight, this`toasts
      ensures Valid()
      ensures started <==> FirstFailure(form).None?
      ensures !started ==>
        toasts == old(toasts) + [ErrorToast(ErrorText(FirstFailure(form).value))]
        && loading == old(loading) && inFlight == old(inFlight)
      ensures started ==> loading && inFlight == old(inFlight) + 1 && toasts == old(toasts)
    {
      if form.fullName == "" {
        toasts := toasts + [ErrorToast("Please enter your name")];
        return false;
      }
      if !ValidateEmail(form.email) {
        toasts := toasts + [ErrorToast("Please enter a valid email")];
        return false;
      }
      if !ValidateLinkedIn(form.linkedin) {
        toasts := toasts + [ErrorToast("Please enter a valid LinkedIn URL")];
        return false;
      }
      loading := true;
      inFlight := inFlight + 1;
      started := true;
    }

    /** The resolution of one outstanding simulated call: `ok` tells whether
        it resolved (the try block) or rejected (the catch block); the finally
        block clears `loading` on both paths. */
    method Complete(ok: bool)
      requires Valid() && inFlight > 0
      modifies this`submitted, this`loading, this`inFlight, this`toasts
      ensures Valid()
      ensures !loading && inFlight == old(inFlight) - 1
      ensures submitted == (old(submitted) || ok)
      ensures toasts == old(toasts) + [if ok then SuccessToast(SuccessText) else ErrorToast(FailureText)]
    {
      if ok {
        submitted := true;
        toasts := toasts + [SuccessToast(SuccessText)];
      } else {
        toasts := toasts + [ErrorToast(FailureText)];
      }
      loading := false;
      inFlight := inFlight - 1;
    }

    /** The form area of the page. */
    function Render(): (v: View)
      reads this
      ensures v.WelcomeCard? <==> submitted
      ensures v.FormView? ==> v.values == form && (v.buttonDisabled <==> loading)
      ensures v.FormView? ==> v.buttonLabel == (if loading then "Processing..." else "Join Waitlist")
    {
      if submitted then WelcomeCard
      else FormView(form, loading, if loading then "Processing..." else "Join Waitlist")
    }
  }

  // ---------------------------------------------------------------------------
  // Whole interactions
  // ---------------------------------------------------------------------------

  /** Submitting a fresh page with an empty name shows the name error and
      neither starts loading nor marks the page submitted. */
  method EmptyNameInteraction(email: string, linkedin: string) returns (p: Page)
    ensures fresh(p)
    ensures !p.loading && !p.submitted && p.inFlight == 0
    ensures p.toasts == [ErrorToast("Please enter your name")]
  {
    p := new Page();
    p.EditEmail(email);
    p.EditLinkedIn(linkedin);
    var started := p.Submit();
  }

  /** Filling the form with valid values, submitting and letting the simulated
      call resolve: loading is on while the call is outstanding, and at the end
      the page is submitted, not loading, shows the welcome card and has toasted
      exactly the success message. */
  method JoinInteraction(name: string, email: string, linkedin: string) returns (p: Page)
    requires name != "" && ValidateEmail(email) && ValidateLinkedIn(linkedin)
    ensures fresh(p)
    ensures p.submitted && !p.loading && p.inFlight == 0
    ensures p.Render() == WelcomeCard
    ensures p.toasts == [SuccessToast(SuccessText)]
  {
    p := new Page();
    p.EditFullName(name);
    p.EditEmail(email);
    p.EditLinkedIn(linkedin);
    var started := p.Submit();
    assert started && p.loading;
    assert p.Render().FormView? && p.Render().buttonDisabled;
    p.Complete(true);
  }

  /** A call that rejects leaves the page unsubmitted, not loading, and with the
      failure message as its last toast, so the form can be submitted again. */
  method FailedJoinInteraction(name: string, email: string, linkedin: string) returns (p: Page)
    requires name != "" && ValidateEmail(email) && ValidateLinkedIn(linkedin)
    ensures fresh(p)
    ensures fresh(p)
    ensures !p.submitted && !p.loading && p.inFlight == 0
    ensures p.Render().FormView? && !p.Render().buttonDisabled
    ensures p.toasts == [ErrorToast(FailureText)]
  {
    p := new Page();
    p.EditFullName(name);
    p.EditEmail(email);
    p.EditLinkedIn(linkedin);
    var started := p.Submit();
    p.Complete(false);
  }
}
