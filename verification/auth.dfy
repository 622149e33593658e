/** The authentication context: who is signed in, what is remembered in browser
    storage under `user`, and the demo-mode fallback that keeps sign-in and
    registration from ever failing. */
module Auth {
  import opened Wrappers
  import JsText
  import Seqs
  import Api

  /** The signed-in user; the optional fields are `None` when undefined. */
  datatype User = User(email: string, fullName: string, phone: Option<string>,
                       schoolId: Option<string>, classId: Option<string>, role: Option<string>)

  /** The registration form as the page submits it. */
  datatype RegisterData = RegisterData(email: string, password: string, fullName: string, phone: Option<string>,
                                       schoolId: Option<string>, classId: Option<string>, role: Option<string>)

  /** The `user` entry of browser storage: missing, a user serialised by this
      context, or text that does not parse as JSON. */
  datatype SavedUser = Missing | Saved(user: User) | Corrupt

  /** The context's state, the client's session and the stored `user` entry. */
  datatype AuthState = AuthState(user: Option<User>, saved: SavedUser, session: Api.Session, isLoading: bool)

  /** The token the client holds in demo mode. */
  const DemoToken: string := "demo-token"

  /** The name shown for a demo user whose e-mail has nothing before the `@`. */
  const DefaultName: string := "Мұғалім"

  /** The role sent with `/auth/register`: the given one when truthy, else
      `teacher`. */
  function RegisterRole(d: RegisterData): (r: string)
    ensures r != ""
    ensures Api.StringTruthy(d.role) ==> r == d.role.value
    ensures !Api.StringTruthy(d.role) ==> r == "teacher"
  {
    if Api.StringTruthy(d.role) then d.role.value else "teacher"
  }

  /** `email.split('@')[0]`: the text before the first `@`, or all of it. */
  function LocalPart(email: string): (r: string)
    ensures '@' !in r
    ensures |r| <= |email| && email[..|r|] == r
    ensures |r| < |email| ==> email[|r|] == '@'
  {
    JsText.SplitHeadPrefix(email, '@');
    JsText.Split(email, '@')[0]
  }

  /** `isAuthenticated`: exactly when a user is set. */
  predicate IsAuthenticated(s: AuthState)
  {
    s.user.Some?
  }

  /** The user built from the login e-mail on either branch. */
  function LoginUser(email: string, demo: bool): (r: User)
    ensures r.email == email
    ensures !demo ==> r.fullName == LocalPart(email)
    ensures demo ==> r.fullName == (if LocalPart(email) != "" then LocalPart(email) else DefaultName)
    ensures r.phone.None? && r.schoolId.None? && r.classId.None? && r.role.None?
  {
    var name := LocalPart(email);
    User(email, if demo && name == "" then DefaultName else name, None, None, None, None)
  }

  /** `login`: on success the user is `{email, full_name: local part}`; on any
      failure the same user (with a default name if the local part is empty)
      is set anyway and the client switches to the demo token. The call never
      throws. */
  function Login(s: AuthState, email: string, reply: Api.AuthReply): (r: AuthState)
    ensures IsAuthenticated(r) && r.user.value.email == email
    ensures r.saved == Saved(r.user.value)
    ensures reply.Tokens? ==> r.session.token == Some(reply.access) && r.user.value.fullName == LocalPart(email)
    ensures !reply.Tokens? ==> r.session.token == Some(DemoToken) && r.user.value.fullName != ""
    ensures reply.Tokens? && reply.access != "" ==> r.session.accessKey == Some(reply.access)
    ensures !reply.Tokens? ==> r.session.accessKey == Some(DemoToken)
    ensures r.isLoading == s.isLoading
  {
    var call := Api.Authenticate(s.session, reply);
    if call.succeeded then
      var u := LoginUser(email, false);
      AuthState(Some(u), Saved(u), call.session, s.isLoading)
    else
      var u := LoginUser(email, true);
      AuthState(Some(u), Saved(u), Api.SetToken(call.session, Some(DemoToken)), s.isLoading)
  }

  /** The user built from the registration form; the role is not copied. */
  function RegisteredUser(d: RegisterData): (r: User)
    ensures r.email == d.email && r.fullName == d.fullName
    ensures r.phone == d.phone && r.schoolId == d.schoolId && r.classId == d.classId
    ensures r.role.None?
  {
    User(d.email, d.fullName, d.phone, d.schoolId, d.classId, None)
  }

  /** `register`: both branches set the user from the submitted fields; only the
      failure branch switches to the demo token. The call never throws. */
  function Register(s: AuthState, d: RegisterData, reply: Api.AuthReply): (r: AuthState)
    ensures r.user == Some(RegisteredUser(d)) && r.saved == Saved(RegisteredUser(d))
    ensures reply.Tokens? ==> r.session.token == Some(reply.access)
    ensures !reply.Tokens? ==> r.session.token == Some(DemoToken)
    ensures reply.Tokens? && reply.access != "" ==> r.session.accessKey == Some(reply.access)
    ensures !reply.Tokens? ==> r.session.accessKey == Some(DemoToken)
    ensures r.isLoading == s.isLoading
  {
    var call := Api.Authenticate(s.session, reply);
    var u := RegisteredUser(d);
    if call.succeeded then AuthState(Some(u), Saved(u), call.session, s.isLoading)
    else AuthState(Some(u), Saved(u), Api.SetToken(call.session, Some(DemoToken)), s.isLoading)
  }

  /** `logout`: whatever the server answers, the user is cleared, the stored
      entry removed and the tokens dropped. */
  function Logout(s: AuthState, reply: Api.AuthReply): (r: AuthState)
    ensures !IsAuthenticated(r) && r.saved == Missing
    ensures r.session.token.None? && r.session.accessKey.None? && r.session.refreshKey.None?
    ensures r.isLoading == s.isLoading
  {
    AuthState(None, Missing, Api.Logout(s.session, reply), s.isLoading)
  }

  /** The mount effect: with a truthy token, a stored user that parses is
      restored and an unparsable one is ignored; either way loading ends. */
  function Restore(s: AuthState): (r: AuthState)
    ensures !r.isLoading
    ensures r.saved == s.saved && r.session == s.session
    ensures Api.StringTruthy(s.session.token) && s.saved.Saved? ==> r.user == Some(s.saved.user)
    ensures !(Api.StringTruthy(s.session.token) && s.saved.Saved?) ==> r.user == s.user
  {
    if Api.StringTruthy(s.session.token) && s.saved.Saved? then s.(user := Some(s.saved.user), isLoading := false)
    else s.(isLoading := false)
  }

  /** A page reload: in-memory state is lost and browser storage survives; the
      new client takes its token from the `access_token` entry. */
  function Reload(s: AuthState): (r: AuthState)
    ensures r.user.None? && r.isLoading && r.saved == s.saved
    ensures r.session.accessKey == s.session.accessKey && r.session.refreshKey == s.session.refreshKey
    ensures r.session.token == s.session.accessKey
  {
    AuthState(None, s.saved, s.session.(token := s.session.accessKey), true)
  }

  /** After a login, a reload restores the same user, unless the server handed
      out an empty access token (which the client does not treat as a token). */
  lemma LoginSurvivesReload(s: AuthState, email: string, reply: Api.AuthReply)
    requires reply.Tokens? ==> reply.access != ""
    ensures var after := Login(s, email, reply);
      Restore(Reload(after)).user == after.user && IsAuthenticated(Restore(Reload(after)))
  {
    var after := Login(s, email, reply);
    assert Api.StringTruthy(after.session.accessKey);
  }

  /** The same holds after registration. */
  lemma RegisterSurvivesReload(s: AuthState, d: RegisterData, reply: Api.AuthReply)
    requires reply.Tokens? ==> reply.access != ""
    ensures var after := Register(s, d, reply);
      Restore(Reload(after)).user == Some(RegisteredUser(d))
  {
    var after := Register(s, d, reply);
    assert Api.StringTruthy(after.session.accessKey);
  }

  /** After a logout, a reload leaves nobody signed in. */
  lemma LogoutSurvivesReload(s: AuthState, reply: Api.AuthReply)
    ensures !IsAuthenticated(Restore(Reload(Logout(s, reply))))
  {
  }
}
