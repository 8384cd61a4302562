/** The e-mail sign-up handler of the sign-up page (app/auth/signup/page.tsx,
    `handleSignUpWithEmail`): the form fields and the React state it updates are the fields of
    a `SignUpPage`; `createClient()` and `signUpWithEmail` are parameters. */
module SignUp {
  import opened Effects
  import opened JsStrings

  /** The part of `signUpWithEmail`'s answer the handler looks at: `data.user`, if any, and
      whether its `email_confirmed_at` is set. */
  datatype SignUpUser = SignUpUser(emailConfirmed: bool)

  /** One call of `signUpWithEmail`: the credentials and the state just before it. */
  datatype Attempt = Attempt(email: string, password: string, loading: bool, error: Option<string>, success: Option<string>)

  const NotConfigured: string := "Supabase is not configured"
  const FieldsMissing: string := "Please fill in all fields"
  const PasswordMismatch: string := "Passwords do not match"
  const PasswordTooShort: string := "Password must be at least 6 characters long"
  const SignUpFailed: string := "An error occurred during sign up. Please try again."

  /** The message of the first form check that fails, in the order the handler runs them. */
  function FormError(email: string, password: string, confirmPassword: string): Option<string>
  {
    if email == "" || password == "" || confirmPassword == "" then Some(FieldsMissing)
    else if password != confirmPassword then Some(PasswordMismatch)
    else if Utf16Length(password) < 6 then Some(PasswordTooShort)
    else None
  }

  /** The form passes exactly when every field is filled, the passwords agree and the password
      has at least six code units. */
  lemma FormErrorNoneIff(email: string, password: string, confirmPassword: string)
    ensures FormError(email, password, confirmPassword) == None <==>
              email != "" && password != "" && password == confirmPassword && Utf16Length(password) >= 6
  {
  }

  /** An empty field is reported first, whatever the passwords are. */
  lemma EmptyFieldReportedFirst(email: string, password: string, confirmPassword: string)
    requires email == "" || password == "" || confirmPassword == ""
    ensures FormError(email, password, confirmPassword) == Some(FieldsMissing)
  {
  }

  /** Different passwords are reported before their length. */
  lemma MismatchReportedBeforeLength(email: string, password: string, confirmPassword: string)
    requires email != "" && password != "" && confirmPassword != "" && password != confirmPassword
    ensures FormError(email, password, confirmPassword) == Some(PasswordMismatch)
  {
  }

  /** Filled, equal passwords shorter than six code units are reported as too short. */
  lemma ShortPasswordReported(email: string, password: string, confirmPassword: string)
    requires email != "" && password != "" && password == confirmPassword
    requires Utf16Length(password) < 6
    ensures FormError(email, password, confirmPassword) == Some(PasswordTooShort)
  {
  }

  /** The minimum is inclusive: "abcdef" passes, "abcde" does not. */
  lemma MinimumLengthIsSix()
    ensures FormError("a@b.c", "abcdef", "abcdef") == None
    ensures FormError("a@b.c", "abcde", "abcde") == Some(PasswordTooShort)
  {
  }

  function SuccessMessage(email: string): string
  {
    "Please check your email (" + email + ") and click the confirmation link to complete your registration."
  }

  /** `(err as Error).message || "An error occurred ..."`. */
  function ThrownError(message: string): (r: string)
    ensures r != ""
    ensures message != "" ==> r == message
    ensures message == "" ==> r == SignUpFailed
  {
    if message != "" then message else SignUpFailed
  }

  class SignUpPage {
    var email: string
    var password: string
    var confirmPassword: string
    var error: Option<string>
    var success: Option<string>
    var isEmailLoading: bool
    /** `window.location.href`, once the handler assigns it. */
    var location: Option<string>
    /** Every call of `signUpWithEmail` so far. */
    ghost var attempts: seq<Attempt>

    constructor(email: string, password: string, confirmPassword: string)
      ensures this.email == email && this.password == password && this.confirmPassword == confirmPassword
      ensures error == None && success == None && !isEmailLoading && location == None && attempts == []
    {
      this.email := email;
      this.password := password;
      this.confirmPassword := confirmPassword;
      error := None;
      success := None;
      isEmailLoading := false;
      location := None;
      attempts := [];
    }

    /** `handleSignUpWithEmail`. `clientConfigured` is whether `createClient()` gave a client;
        `signUp` is what `signUpWithEmail` returned (`data?.user`) or the error it threw. */
    method HandleSignUpWithEmail(clientConfigured: bool, signUp: Call<Option<SignUpUser>>)
      modifies this
      ensures email == old(email) && password == old(password) && confirmPassword == old(confirmPassword)
      ensures !clientConfigured ==>
                error == Some(NotConfigured) && success == old(success) && isEmailLoading == old(isEmailLoading)
                && location == old(location) && attempts == old(attempts)
      ensures clientConfigured && FormError(email, password, confirmPassword).Some? ==>
                error == FormError(email, password, confirmPassword) && success == old(success)
                && isEmailLoading == old(isEmailLoading) && location == old(location) && attempts == old(attempts)
      ensures clientConfigured && FormError(email, password, confirmPassword).None? ==>
                attempts == old(attempts) + [Attempt(email, password, true, None, None)] && !isEmailLoading
      ensures clientConfigured && FormError(email, password, confirmPassword).None? ==>
                match signUp
                case Threw(message) =>
                  error == Some(ThrownError(message)) && success == None && location == old(location)
                case Returned(None) =>
                  error == None && success == None && location == old(location)
                case Returned(Some(user)) =>
                  error == None
                  && (user.emailConfirmed ==> success == None && location == Some("/"))
                  && (!user.emailConfirmed ==> success == Some(SuccessMessage(email)) && location == old(location))
    {
      if !clientConfigured {
        error := Some(NotConfigured);
        return;
      }
      if email == "" || password == "" || confirmPassword == "" {
        error := Some(FieldsMissing);
        return;
      }
      if password != confirmPassword {
        error := Some(PasswordMismatch);
        return;
      }
      if Utf16Length(password) < 6 {
        error := Some(PasswordTooShort);
        return;
      }
      isEmailLoading := true;
      error := None;
      success := None;
      attempts := attempts + [Attempt(email, password, isEmailLoading, error, success)];
      match signUp {
        case Returned(data) =>
          if data.Some? {
            if data.value.emailConfirmed {
              location := Some("/");
            } else {
              success := Some(SuccessMessage(email));
            }
          }
        case Threw(message) =>
          error := Some(ThrownError(message));
      }
      isEmailLoading := false;
    }
  }
}
