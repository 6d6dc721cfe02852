/** The login/logout/register menu end to end: the three-flag reply the
    server computes from the session, and what the page's flag tests do
    with it. */
module Menu {
  import opened UserState
  import opened Handlers
  import opened JQuery

  /** Whether the browser's session names a logged-in user. */
  predicate SessionLoggedIn(s: Store, c: Cookie) {
    GetBrowserUsername(c) != "" && IsLoggedIn(s, GetBrowserUsername(c))
  }

  /** A logged-in session leaves only Logout visible; any other session
      leaves Login and Register visible. */
  lemma MenuFollowsSession(s: Store, c: Cookie, logintag: string, logouttag: string, registertag: string)
    ensures var flags := ShowLoginLogoutRegister(s, c);
            if SessionLoggedIn(s, c) then
              && Run(HideTests(logintag, logouttag, registertag), flags) == [Hide(logintag), Hide(registertag)]
              && Run(ShowTests(logintag, logouttag, registertag), flags) == [ShowInline(logouttag)]
            else
              && Run(HideTests(logintag, logouttag, registertag), flags) == [Hide(logouttag)]
              && Run(ShowTests(logintag, logouttag, registertag), flags) == [ShowInline(logintag), ShowInline(registertag)]
  {
    var flags := ShowLoginLogoutRegister(s, c);
    var hiding := HideTests(logintag, logouttag, registertag);
    var showing := ShowTests(logintag, logouttag, registertag);
    RunThree(hiding, flags);
    RunThree(showing, flags);
    if SessionLoggedIn(s, c) {
      assert flags == "010";
    } else {
      assert flags == "101";
    }
  }
}
