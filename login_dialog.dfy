/**
 * The registration half of the login/register dialog
 * (eazydoc_webapp3/src/components/login-dailog.tsx).
 *
 * The component's four state cells become the fields of class `Dialog`; its two
 * handlers become the methods `Change` and `Submit`; the tab links and the tab
 * strip become `SelectTab`. The network call of the submit handler is replaced
 * by an `Outcome` passed in, and the request it would send is returned.
 */
module LoginDialog {
  import opened Wrappers

  /** The two tabs of the dialog. */
  datatype Tab = Login | Register

  /** The `name` attributes of the four register inputs. */
  datatype Field = Name | Email | Password | ConfirmPassword

  /** The register form's record. */
  datatype RegisterData = RegisterData(name: string, email: string, password: string, confirmPassword: string)
  {
    function Get(k: Field): string
    {
      match k
      case Name => name
      case Email => email
      case Password => password
      case ConfirmPassword => confirmPassword
    }

    /** `{ ...prev, [k]: v }`: field `k` takes `v`, every other field keeps its value. */
    function With(k: Field, v: string): (r: RegisterData)
      ensures r.Get(k) == v
      ensures forall j: Field :: j != k ==> r.Get(j) == Get(j)
    {
      match k
      case Name => this.(name := v)
      case Email => this.(email := v)
      case Password => this.(password := v)
      case ConfirmPassword => this.(confirmPassword := v)
    }

    predicate PasswordsMatch()
    {
      password == confirmPassword
    }
  }

  const EmptyRegisterData := RegisterData("", "", "", "")

  /** The JSON body of the create-user request: confirmPassword is not part of it. */
  datatype CreateUserBody = CreateUserBody(name: string, email: string, password: string)

  /**
   * What the create-user request came to: a response whose `ok` is true, one whose
   * `ok` is false carrying the `message` of its JSON body (if any), or an exception
   * from the request or from parsing the body.
   */
  datatype Outcome = Ok | NotOk(message: Option<string>) | Threw

  const PasswordMismatchError := "Passwords do not match"
  const FallbackError := "An error occurred. Please try again."

  /** `data.message || fallback`: a missing or empty server message falls back. */
  function FailureMessage(message: Option<string>): (r: string)
    ensures r != ""
    ensures message.Some? && message.value != "" ==> r == message.value
    ensures message.None? || message.value == "" ==> r == FallbackError
  {
    match message
    case Some(m) => if m != "" then m else FallbackError
    case None => FallbackError
  }

  /** The dialog's state as a value. */
  datatype FormState = FormState(activeTab: Tab, registerData: RegisterData, error: string, isLoading: bool)

  /** The state the component starts in. */
  const Initial := FormState(Login, EmptyRegisterData, "", false)

  /** The submit control is disabled exactly while a submission is loading. */
  predicate SubmitDisabled(s: FormState)
  {
    s.isLoading
  }

  /** The state after an input's change event. */
  function Changed(s: FormState, k: Field, v: string): (r: FormState)
    ensures r.registerData.Get(k) == v
    ensures forall j: Field :: j != k ==> r.registerData.Get(j) == s.registerData.Get(j)
    ensures r.activeTab == s.activeTab && r.error == s.error && r.isLoading == s.isLoading
  {
    s.(registerData := s.registerData.With(k, v))
  }

  /** What one submission does: the request it sends, if any, and the state it leaves. */
  datatype SubmitResult = SubmitResult(request: Option<CreateUserBody>, after: FormState)

  /**
   * The submit handler as its steps: clear the error and set loading; on a password
   * mismatch set the mismatch error, clear loading and stop before any request;
   * otherwise send the request, map its outcome to an error or a switch to the
   * login tab, and clear loading in the `finally`.
   */
  function Submitted(s: FormState, outcome: Outcome): (r: SubmitResult)
    // the request is skipped exactly on a mismatch, and otherwise carries name, email and password
    ensures r.request.None? <==> !s.registerData.PasswordsMatch()
    ensures r.request.Some? ==>
      r.request.value == CreateUserBody(s.registerData.name, s.registerData.email, s.registerData.password)
    // on every path loading ends false and the form's record is untouched
    ensures !r.after.isLoading && !SubmitDisabled(r.after)
    ensures r.after.registerData == s.registerData
    // the error and the tab on each path
    ensures !s.registerData.PasswordsMatch() ==>
      r.after.error == PasswordMismatchError && r.after.activeTab == s.activeTab
    ensures s.registerData.PasswordsMatch() && outcome.Ok? ==>
      r.after.error == "" && r.after.activeTab == Login
    ensures s.registerData.PasswordsMatch() && outcome.NotOk? ==>
      r.after.error == FailureMessage(outcome.message) && r.after.activeTab == s.activeTab
    ensures s.registerData.PasswordsMatch() && outcome.Threw? ==>
      r.after.error == FallbackError && r.after.activeTab == s.activeTab
    // an error is shown exactly when the submission did not succeed
    ensures r.after.error == "" <==> (r.request.Some? && outcome.Ok?)
  {
    var loading := s.(error := "", isLoading := true);
    if loading.registerData.password != loading.registerData.confirmPassword then
      SubmitResult(None, loading.(error := PasswordMismatchError, isLoading := false))
    else
      var d := loading.registerData;
      var body := CreateUserBody(d.name, d.email, d.password);
      var settled :=
        match outcome
        case Ok => loading.(activeTab := Login)
        case NotOk(message) => loading.(error := FailureMessage(message))
        case Threw => loading.(error := FallbackError);
      SubmitResult(Some(body), settled.(isLoading := false))
  }

  /** A user interaction with the dialog. */
  datatype Event = Edit(k: Field, v: string) | Submit(outcome: Outcome) | SwitchTab(t: Tab)

  function Apply(s: FormState, e: Event): FormState
  {
    match e
    case Edit(k, v) => Changed(s, k, v)
    case Submit(outcome) => Submitted(s, outcome).after
    case SwitchTab(t) => s.(activeTab := t)
  }

  /** The state after a sequence of interactions, applied in order. */
  function Run(s: FormState, es: seq<Event>): FormState
  {
    if es == [] then s else Apply(Run(s, es[..|es| - 1]), es[|es| - 1])
  }

  /** Between interactions the dialog is never loading: the submit control is usable again. */
  lemma {:induction false} RunStaysIdle(s: FormState, es: seq<Event>)
    requires !s.isLoading
    ensures !Run(s, es).isLoading && !SubmitDisabled(Run(s, es))
  {
    if es != [] {
      RunStaysIdle(s, es[..|es| - 1]);
    }
  }

  /** Only change events alter the form's record; submissions and tab switches never do. */
  lemma {:induction false} RunWithoutEditsKeepsData(s: FormState, es: seq<Event>)
    requires forall i :: 0 <= i < |es| ==> !es[i].Edit?
    ensures Run(s, es).registerData == s.registerData
  {
    if es != [] {
      RunWithoutEditsKeepsData(s, es[..|es| - 1]);
    }
  }

  /** The dialog component: its state cells, and the log of interactions that produced them. */
  class Dialog {
    var activeTab: Tab
    var registerData: RegisterData
    var error: string
    var isLoading: bool
    ghost var history: seq<Event>

    function State(): FormState
      reads this
    {
      FormState(activeTab, registerData, error, isLoading)
    }

    /** Every state of the dialog is reached from the initial one by its history. */
    ghost predicate Valid()
      reads this
    {
      State() == Run(Initial, history)
    }

    constructor ()
      ensures Valid() && history == []
      ensures activeTab == Login
      ensures registerData == RegisterData("", "", "", "")
      ensures error == "" && !isLoading
    {
      activeTab := Login;
      registerData := EmptyRegisterData;
      error := "";
      isLoading := false;
      history := [];
    }

    /** `handleRegisterChange`: the input named `k` now holds `v`. */
    method Change(k: Field, v: string)
      requires Valid()
      modifies this
      ensures Valid() && history == old(history) + [Edit(k, v)]
      ensures State() == Changed(old(State()), k, v)
      ensures registerData.Get(k) == v
      ensures forall j: Field :: j != k ==> registerData.Get(j) == old(registerData.Get(j))
    {
      registerData := registerData.With(k, v);
      history := history + [Edit(k, v)];
      assert history[..|history| - 1] == old(history);
    }

    /** The tab strip and the "Sign up" / "Login" links. */
    method SelectTab(t: Tab)
      requires Valid()
      modifies this
      ensures Valid() && history == old(history) + [SwitchTab(t)]
      ensures activeTab == t
      ensures registerData == old(registerData) && error == old(error) && isLoading == old(isLoading)
    {
      activeTab := t;
      history := history + [SwitchTab(t)];
      assert history[..|history| - 1] == old(history);
    }

    /**
     * `handleRegisterSubmit`, with the create-user request's result given as
     * `outcome`; `request` is the body it sends, or None when it sends nothing.
     */
    method Submit(outcome: Outcome) returns (request: Option<CreateUserBody>)
      requires Valid()
      modifies this
      ensures Valid() && history == old(history) + [Event.Submit(outcome)]
      ensures SubmitResult(request, State()) == Submitted(old(State()), outcome)
      ensures !isLoading && registerData == old(registerData)
      ensures request.None? <==> old(registerData.password) != old(registerData.confirmPassword)
    {
      error := "";
      isLoading := true;

      if registerData.password != registerData.confirmPassword {
        error := PasswordMismatchError;
        isLoading := false;
        request := None;
      } else {
        request := Some(CreateUserBody(registerData.name, registerData.email, registerData.password));
        match outcome {
          case Ok => activeTab := Login;
          case NotOk(message) => error := FailureMessage(message);
          case Threw => error := FallbackError;
        }
        isLoading := false;
      }
      history := history + [Event.Submit(outcome)];
      assert history[..|history| - 1] == old(history);
    }

    /** The submit control's `disabled`: between handler calls it is never set. */
    method IsSubmitDisabled() returns (disabled: bool)
      requires Valid()
      ensures disabled == SubmitDisabled(State())
      ensures !disabled
    {
      RunStaysIdle(Initial, history);
      disabled := isLoading;
    }
  }
}
