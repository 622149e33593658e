/** The registration page: client-side checks on the form, then one call to
    the authentication context with the cleaned-up fields. */
module RegisterPage {
  import opened Wrappers
  import JsText
  import Api
  import Auth

  /** The form as typed. */
  datatype RegisterForm = RegisterForm(email: string, password: string, confirmPassword: string,
                                       fullName: string, phone: string)

  /** The outcome of one submit: the error shown, the data passed to
      `register` (if it was called) and whether the page moves to the
      dashboard. */
  datatype Submit = Submit(error: string, submitted: Option<Auth.RegisterData>, navigates: bool)

  const MismatchError: string := "Парольдер сәйкес келмейді"
  const ShortPasswordError: string := "Пароль кемінде 6 таңбадан тұруы керек"
  const ThrownError: string := "Тіркелу кезінде қате пайда болды, бірақ demo режимде жұмыс істейді"

  /** The shortest password the page accepts, in UTF-16 code units. */
  const MinPasswordLength: nat := 6

  /** The data handed to `register`: e-mail and name trimmed, the password as
      typed, the phone trimmed or left undefined when blank. */
  function RegisterDataOf(f: RegisterForm): (r: Auth.RegisterData)
    ensures r.email == JsText.Trim(f.email) && r.fullName == JsText.Trim(f.fullName) && r.password == f.password
    ensures r.phone.None? <==> JsText.IsBlank(f.phone)
    ensures r.phone.Some? ==> r.phone.value == JsText.Trim(f.phone) && r.phone.value != ""
    ensures r.schoolId.None? && r.classId.None? && r.role.None?
  {
    var phone := JsText.Trim(f.phone);
    Auth.RegisterData(JsText.Trim(f.email), f.password, JsText.Trim(f.fullName),
                      if phone != "" then Some(phone) else None, None, None, None)
  }

  /** `handleRegister`: the error is cleared, then a password mismatch and then
      a short password stop the submit with their message; otherwise
      `register` is called and the page moves on to the dashboard, after
      showing a notice if the call threw (`threw`). */
  function HandleRegister(f: RegisterForm, threw: bool): (r: Submit)
    ensures f.password != f.confirmPassword ==> r == Submit(MismatchError, None, false)
    ensures f.password == f.confirmPassword && JsText.Utf16Length(f.password) < MinPasswordLength ==>
      r == Submit(ShortPasswordError, None, false)
    ensures r.submitted.Some? <==> f.password == f.confirmPassword && JsText.Utf16Length(f.password) >= MinPasswordLength
    ensures r.submitted.Some? ==> r.submitted.value == RegisterDataOf(f) && r.navigates
    ensures r.submitted.Some? ==> r.error == (if threw then ThrownError else "")
  {
    if f.password != f.confirmPassword then Submit(MismatchError, None, false)
    else if JsText.Utf16Length(f.password) < MinPasswordLength then Submit(ShortPasswordError, None, false)
    else Submit(if threw then ThrownError else "", Some(RegisterDataOf(f)), true)
  }

  /** Submitting the cleaned-up values again sends the same data: cleaning is
      idempotent. */
  lemma ResubmitSendsSameData(f: RegisterForm)
    ensures var d := RegisterDataOf(f);
      RegisterDataOf(RegisterForm(d.email, d.password, f.confirmPassword, d.fullName, d.phone.GetOr(""))) == d
  {
    JsText.TrimIdempotent(f.email);
    JsText.TrimIdempotent(f.fullName);
    JsText.TrimIdempotent(f.phone);
  }

  /** A submit that passes the checks leaves the user signed in under the
      trimmed e-mail, whatever the server answers, so no error is shown. */
  lemma AcceptedSubmitSignsIn(f: RegisterForm, s: Auth.AuthState, reply: Api.AuthReply)
    requires f.password == f.confirmPassword && JsText.Utf16Length(f.password) >= MinPasswordLength
    ensures var r := HandleRegister(f, false);
      r.error == "" && r.navigates &&
      Auth.IsAuthenticated(Auth.Register(s, r.submitted.value, reply)) &&
      Auth.Register(s, r.submitted.value, reply).user.value.email == JsText.Trim(f.email)
  {
  }
}
