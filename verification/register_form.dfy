/** The registration form's submit handler
    (components/auth/register-form.tsx): four checks in a fixed order, the
    first failing one deciding the error toast, and the register call with
    its success or failure toast. */
module RegisterForm {
  import opened Wrappers
  import opened AuthContext
  import opened JsString

  datatype Fields = Fields(name: string, email: string, password: string, confirmPassword: string, acceptTerms: bool)

  datatype Toast = Toast(title: string, description: string, destructive: bool)

  const MissingField := "Compila tutti i campi"
  const PasswordMismatch := "Le password non coincidono"
  const PasswordTooShort := "La password deve essere di almeno 6 caratteri"
  const TermsNotAccepted := "Devi accettare i termini e condizioni"
  const RegistrationFailed := "Errore durante la registrazione"
  const MinPasswordLength := 6

  function ErrorToast(description: string): Toast
  {
    Toast("Errore", description, true)
  }

  const Welcome: Toast := Toast("Registrazione completata", "Benvenuto in NicoLog!", false)

  /** An empty string is falsy. */
  predicate AllFilled(f: Fields)
  {
    f.name != "" && f.email != "" && f.password != "" && f.confirmPassword != ""
  }

  /** What submitting the form does before the register call returns. */
  datatype Submission = Rejected(toast: Toast) | RegisterCall(email: string, password: string, name: string)

  /** The early-return chain: each message is shown exactly when every
      check before it passes and its own fails, and register is called
      exactly when all four pass. */
  function Validate(f: Fields): (r: Submission)
    ensures r.RegisterCall? <==>
              AllFilled(f) && f.password == f.confirmPassword && Utf16Length(f.password) >= MinPasswordLength && f.acceptTerms
    ensures r.RegisterCall? ==> r == RegisterCall(f.email, f.password, f.name)
    ensures r == Rejected(ErrorToast(MissingField)) <==> !AllFilled(f)
    ensures r == Rejected(ErrorToast(PasswordMismatch)) <==> AllFilled(f) && f.password != f.confirmPassword
    ensures r == Rejected(ErrorToast(PasswordTooShort)) <==>
              AllFilled(f) && f.password == f.confirmPassword && Utf16Length(f.password) < MinPasswordLength
    ensures r == Rejected(ErrorToast(TermsNotAccepted)) <==>
              AllFilled(f) && f.password == f.confirmPassword && Utf16Length(f.password) >= MinPasswordLength && !f.acceptTerms
  {
    if !AllFilled(f) then Rejected(ErrorToast(MissingField))
    else if f.password != f.confirmPassword then Rejected(ErrorToast(PasswordMismatch))
    else if Utf16Length(f.password) < MinPasswordLength then Rejected(ErrorToast(PasswordTooShort))
    else if !f.acceptTerms then Rejected(ErrorToast(TermsNotAccepted))
    else RegisterCall(f.email, f.password, f.name)
  }

  /** password.length counts UTF-16 code units: three characters from outside
      the Basic Multilingual Plane make a password of length 6, which passes
      the length check. */
  lemma SupplementaryPassword(name: string, email: string)
    requires name != "" && email != ""
    ensures var p := "\U{1F600}\U{1F600}\U{1F600}";
      |p| == 3 && Validate(Fields(name, email, p, p, true)) == RegisterCall(email, p, name)
  {
    var p := "\U{1F600}\U{1F600}\U{1F600}";
    Utf16LengthAppend(p[..2], p[2..]);
    Utf16LengthAppend(p[..1], p[1..2]);
    assert p[..2][..1] == p[..1] && p[..2][1..] == p[1..2];
    assert p[..2] + p[2..] == p;
  }

  /** What a failed register call throws: an Error with its message, or
      some other value. */
  datatype Thrown = ErrorObject(message: string) | OtherValue

  /** The toast after the register call: the welcome on success; on failure
      the Error's message, or the fixed text for anything else. */
  function RegistrationToast(failure: Option<Thrown>): (t: Toast)
    ensures t.destructive <==> failure.Some?
    ensures failure == None ==> t == Welcome
    ensures failure.Some? ==> t.title == "Errore"
    ensures failure.Some? && failure.value.ErrorObject? ==> t.description == failure.value.message
    ensures failure == Some(OtherValue) ==> t.description == RegistrationFailed
  {
    match failure
    case None => Welcome
    case Some(ErrorObject(message)) => ErrorToast(message)
    case Some(OtherValue) => ErrorToast(RegistrationFailed)
  }

  /** handleSubmit against the mock provider, whose register never throws:
      valid fields sign in a user with the given name and address; invalid
      ones change nothing and show the first failing check's message. */
  method HandleSubmit(auth: AuthProvider, f: Fields) returns (toast: Toast)
    modifies auth
    ensures Validate(f).Rejected? ==>
              toast == Validate(f).toast && unchanged(auth)
    ensures Validate(f).RegisterCall? ==>
              toast == Welcome && auth.user == Some(EmailUser(f.email, f.name)) && auth.Synced() && !auth.loading
  {
    var submission := Validate(f);
    if submission.Rejected? {
      toast := submission.toast;
      return;
    }
    auth.Register(f.email, f.password, f.name);
    toast := RegistrationToast(None);
  }
}
