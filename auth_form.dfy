/**
 * The sign-in / sign-up form of components/AuthModal.tsx: its validation,
 * the submit sequence over `error`, `isLoading` and `formData`, and the mode
 * toggle. The awaited `onLogin` / `onRegister` callback is outside the form;
 * how it settles is an input to `Submit`.
 */
module AuthForm {

  import opened Types

  /** The four text fields of the form. */
  datatype FormData = FormData(email: string, password: string, name: string, village: string)

  const EmptyForm: FormData := FormData("", "", "", "")

  /** Shown when the callback fails with an empty message. */
  const FallbackMessage: string := "Authentication failed. Please try again."

  /** The localized "fill in all fields" message of each language. */
  function FillAllFieldsMessage(language: Language): string
  {
    match language
    case English => "Please fill in all fields"
    case Hindi => "कृपया सभी फ़ील्ड भरें"
    case Telugu => "దయచేసి అన్ని వివరాలను పూరించండి"
    case Tamil => "தயவுசெய்து அனைத்து தகவல்களையும் நிரப்பவும்"
    case Malayalam => "ദയവായി എല്ലാ വിവരങ്ങളും നൽകുക"
  }

  /**
   * The validation of `handleSubmit`: email and password are always
   * required, name and village only when signing up.
   */
  function MissingFields(form: FormData, isSignUp: bool): (missing: bool)
    ensures !missing ==> form.email != [] && form.password != []
    ensures !missing && isSignUp ==> form.name != [] && form.village != []
    ensures missing ==> form.email == [] || form.password == [] || (isSignUp && (form.name == [] || form.village == []))
  {
    form.email == [] || form.password == [] || (isSignUp && (form.name == [] || form.village == []))
  }

  /** Signing in never looks at the name or the village. */
  lemma SignInIgnoresProfileFields(form: FormData, name: string, village: string)
    ensures MissingFields(form, false) == MissingFields(form.(name := name, village := village), false)
  {
  }

  /** Whatever signing in rejects, signing up rejects too; signing up also needs a name and a village. */
  lemma SignUpIsStricter(form: FormData)
    ensures MissingFields(form, false) ==> MissingFields(form, true)
    ensures !MissingFields(form, true) <==> !MissingFields(form, false) && form.name != [] && form.village != []
  {
  }

  /** `err.message || fallback`: the text shown after a failed callback; never empty. */
  function FailureText(message: string): (text: string)
    ensures text != []
    ensures message != [] ==> text == message
    ensures message == [] ==> text == FallbackMessage
  {
    if message != [] then message else FallbackMessage
  }

  /** The callback a valid submit makes, with the form data as it was. */
  datatype Callback = OnLogin(data: FormData) | OnRegister(data: FormData)

  /** How the awaited callback settled: resolved, or thrown with a message. */
  datatype Outcome = Resolved | Rejected(message: string)

  class AuthModal {
    const language: Language
    var isSignUp: bool
    var isLoading: bool
    var formData: FormData
    var error: string

    /** The form as first shown: sign-in mode, empty fields, no error. */
    constructor (language: Language)
      ensures this.language == language
      ensures !isSignUp && !isLoading && formData == EmptyForm && error == []
    {
      this.language := language;
      isSignUp := false;
      isLoading := false;
      formData := EmptyForm;
      error := [];
    }

    /**
     * `handleSubmit`. An incomplete form shows the localized message and calls
     * nothing. A complete one calls `onRegister` in sign-up mode or `onLogin`
     * otherwise, once, with the form data; on success the modal is closed and
     * the form emptied, on failure the thrown message (or the fallback) is shown
     * and the form kept. Loading is off again once the callback has settled; an
     * incomplete form leaves it as it was.
     */
    method Submit(outcome: Outcome) returns (call: Option<Callback>, closed: bool)
      modifies this
      ensures isSignUp == old(isSignUp)
      ensures MissingFields(old(formData), old(isSignUp)) ==>
        isLoading == old(isLoading) && call == None && !closed && error == FillAllFieldsMessage(language) && formData == old(formData)
      ensures !MissingFields(old(formData), old(isSignUp)) ==>
        !isLoading && call == Some(if old(isSignUp) then OnRegister(old(formData)) else OnLogin(old(formData)))
      ensures !MissingFields(old(formData), old(isSignUp)) && outcome.Resolved? ==>
        closed && formData == EmptyForm && error == []
      ensures !MissingFields(old(formData), old(isSignUp)) && outcome.Rejected? ==>
        !closed && formData == old(formData) && error == FailureText(outcome.message)
    {
      error := [];
      call := None;
      closed := false;
      if formData.email == [] || formData.password == [] {
        error := FillAllFieldsMessage(language);
        return;
      }
      if isSignUp && (formData.name == [] || formData.village == []) {
        error := FillAllFieldsMessage(language);
        return;
      }
      isLoading := true;
      if isSignUp {
        call := Some(OnRegister(formData));
      } else {
        call := Some(OnLogin(formData));
      }
      match outcome {
        case Resolved =>
          closed := true;
          formData := EmptyForm;
        case Rejected(message) =>
          error := FailureText(message);
      }
      isLoading := false;
    }

    /** The "already have an account / no account" link: flips the mode and clears the error. */
    method ToggleMode()
      modifies this
      ensures isSignUp == !old(isSignUp) && error == []
      ensures formData == old(formData) && isLoading == old(isLoading)
    {
      isSignUp := !isSignUp;
      error := [];
    }
  }
}
