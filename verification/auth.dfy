/** Who is signed in (client/src/hooks/useAuth.ts): a mock user kept in the
    browser's store takes precedence over the user the server reports, and
    the flags the pages read are derived from whichever user wins. Also the
    sign-out action and the admin page's sign-in gate
    (client/src/pages/Admin.tsx). */
module Auth {
  import opened Common

  /** The user record as far as the pages read it; a field other than a
      boolean `isAdmin` is not modelled. */
  datatype User = User(id: string, email: string, isAdmin: Option<bool>)

  /** The text under the `mockAuthUser` key after `JSON.parse`: a value that
      JavaScript treats as false (`null`, `false`, `0`, `""`), a value
      treated as true (read as a user; a non-object has no `isAdmin`), or
      text that does not parse, on which `JSON.parse` throws. */
  datatype Parsed = Falsy | Truthy(user: User) | Unparseable

  /** What the storage key holds. The empty string is false in
      JavaScript and is never parsed. */
  datatype MockSlot = NoMock | MockText(text: string)

  /** The server user query as the hook sees it: its data (`null` and
      `undefined` both `None`) and its loading flag. */
  datatype ServerAnswer = ServerAnswer(data: Option<User>, isLoading: bool)

  /** The object `useAuth()` returns, plus whether the server query runs. */
  datatype AuthState = AuthState(
    user: Option<User>, isLoading: bool, isAuthenticated: bool, isAdmin: bool, queryEnabled: bool)

  datatype AuthError = MockParseError

  /** `parsedMockUser`: the stored text parsed, or nothing when the key is
      missing or empty. */
  function ParsedMock(slot: MockSlot, parse: string -> Parsed): Parsed {
    match slot
    case NoMock => Falsy
    case MockText(t) => if t == "" then Falsy else parse(t)
  }

  /** `useAuth()` given the stored mock and the server's answer. */
  function ResolveAuth(mock: Parsed, server: ServerAnswer): (r: Result<AuthState, AuthError>)
    ensures r.Err? <==> mock.Unparseable?
    ensures mock.Truthy? ==> r.Ok? && r.value.user == Some(mock.user)
                             && !r.value.isLoading && !r.value.queryEnabled
    ensures mock.Falsy? ==> r.Ok? && r.value.user == server.data
                            && r.value.isLoading == server.isLoading && r.value.queryEnabled
    ensures r.Ok? ==> (r.value.isAuthenticated <==> r.value.user.Some?)
    ensures r.Ok? ==> (r.value.isAdmin <==> r.value.user.Some? && r.value.user.value.isAdmin == Some(true))
  {
    match mock
    case Unparseable => Err(MockParseError)
    case Truthy(u) => Ok(Derive(Some(u), false, false))
    case Falsy => Ok(Derive(server.data, server.isLoading, true))
  }

  /** `isAuthenticated: !!finalUser` and `isAdmin: finalUser?.isAdmin ?? false`. */
  function Derive(user: Option<User>, isLoading: bool, queryEnabled: bool): AuthState {
    var admin := if user.Some? then user.value.isAdmin.GetOr(false) else false;
    AuthState(user, isLoading, user.Some?, admin, queryEnabled)
  }

  /** A stored mock user makes the server's answer irrelevant. */
  lemma MockOverridesServer(u: User, s1: ServerAnswer, s2: ServerAnswer)
    ensures ResolveAuth(Truthy(u), s1) == ResolveAuth(Truthy(u), s2)
  {
  }

  /** Nobody is an administrator without being signed in. */
  lemma AdminImpliesAuthenticated(mock: Parsed, server: ServerAnswer)
    requires ResolveAuth(mock, server).Ok?
    ensures ResolveAuth(mock, server).value.isAdmin ==> ResolveAuth(mock, server).value.isAuthenticated
  {
  }

  /** The storage keys and the page the browser shows. */
  datatype Browser = Browser(store: map<string, string>, location: string)

  const MockKey := "mockAuthUser"

  function MockSlotOf(store: map<string, string>): MockSlot {
    if MockKey in store then MockText(store[MockKey]) else NoMock
  }

  /** `useLogout()`'s action: the mock key is removed, every other key is
      kept, and the browser goes to the home page. */
  function Logout(b: Browser): (r: Browser)
    ensures MockKey !in r.store
    ensures forall k :: k != MockKey ==> (k in r.store <==> k in b.store)
    ensures forall k :: k in r.store ==> r.store[k] == b.store[k]
    ensures r.location == "/"
  {
    Browser(b.store - {MockKey}, "/")
  }

  /** After signing out, only the server decides who is signed in. */
  lemma LogoutLeavesServerOnly(b: Browser, parse: string -> Parsed, server: ServerAnswer)
    ensures ResolveAuth(ParsedMock(MockSlotOf(Logout(b).store), parse), server)
            == Ok(Derive(server.data, server.isLoading, true))
  {
  }

  // ----- the admin page's gate -----

  datatype View = LoginPrompt | Dashboard

  /** Every JavaScript object is truthy, whatever its fields hold. */
  predicate ObjectIsTruthy(a: AuthState) {
    true
  }

  /** The gate as written: `const user = useAuth()` binds the whole result
      object, and `if (!user)` tests that object, not the user in it. */
  function AdminGateAsWritten(a: AuthState): (v: View)
    ensures v == Dashboard
  {
    if !ObjectIsTruthy(a) then LoginPrompt else Dashboard
  }

  /** A visitor nobody signed in as still gets the dashboard. */
  lemma AdminGateAsWrittenLetsEveryoneIn()
    ensures var a := ResolveAuth(Falsy, ServerAnswer(None, false));
            a.Ok? && !a.value.isAuthenticated && AdminGateAsWritten(a.value) == Dashboard
  {
  }

  /** The gate as evidently intended (the page goes on to read
      `user.email`): the login prompt unless someone is signed in. */
  function AdminGate(a: AuthState): (v: View)
    ensures v == Dashboard <==> a.user.Some?
  {
    if a.user.None? then LoginPrompt else Dashboard
  }

  /** With the corrected gate the dashboard is shown exactly to signed-in
      visitors, whichever way they signed in. */
  lemma AdminGateAdmitsExactlySignedIn(mock: Parsed, server: ServerAnswer)
    requires ResolveAuth(mock, server).Ok?
    ensures AdminGate(ResolveAuth(mock, server).value) == Dashboard
            <==> ResolveAuth(mock, server).value.isAuthenticated
    ensures mock.Truthy? ==> AdminGate(ResolveAuth(mock, server).value) == Dashboard
    ensures mock.Falsy? && server.data.None? ==> AdminGate(ResolveAuth(mock, server).value) == LoginPrompt
  {
  }
}
