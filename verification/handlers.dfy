/** The request handlers of the account system, one pure function per
    handler: each takes the store, the browser's session cookie and the
    request's inputs, and yields an outcome, the new store and the new cookie.
    Outcomes stand for the message pages the handlers render. */
module Handlers {
  import opened Wrappers
  import opened Redis
  import opened UserState

  /** The request parameters (`ctx.Params`). */
  type Params = map<string, string>

  /** The username held by the browser's signed "user" cookie, if any; the
      signature check itself is not modelled. */
  type Cookie = Option<string>

  datatype Response<O> = Response(outcome: O, store: Store, cookie: Cookie)

  /** The confirmation mail handed to the mail sender. */
  datatype Mail = Mail(site: string, url: string, username: string, email: string)

  const SITE := "archlinux.no"
  const CONFIRM_URL := "https://archlinux.no/confirm/"

  // The three-flag menu selector values: login, logout, register
  const ONLY_LOGIN := "100"
  const ONLY_LOGOUT := "010"
  const ONLY_REGISTER := "001"
  const EXCEPT_LOGIN := "011"
  const EXCEPT_LOGOUT := "101"
  const EXCEPT_REGISTER := "110"
  const NOTHING := "000"

  /** A parameter that was sent and is not empty. */
  predicate Filled(params: Params, key: string) {
    key in params && params[key] != ""
  }

  /** The email check: contains "@" and "." and no space. */
  predicate ValidEmail(email: string) {
    '@' in email && '.' in email && ' ' !in email
  }

  /** Both passwords were sent, are not empty and are equal. */
  predicate PasswordsAgree(params: Params) {
    Filled(params, "password1") && Filled(params, "password2") && params["password1"] == params["password2"]
  }

  /** An email parameter was sent and passes the email check. */
  predicate EmailAccepted(params: Params) {
    "email" in params && ValidEmail(params["email"])
  }

  /** Every rune of the username is an allowed letter. */
  predicate AllowedUsername(username: string) {
    forall i :: 0 <= i < |username| ==> AllowedLetter(username[i])
  }

  /** The letters of USERNAME_ALLOWED_LETTERS, written as the ranges a-z,
      A-Z and 0-9 plus the six Norwegian letters and '_'; the ranges keep
      proofs about usernames from unfolding the whole constant. */
  predicate AllowedLetter(ch: char) {
    || 'a' <= ch <= 'z' || 'A' <= ch <= 'Z' || '0' <= ch <= '9' || ch == '_'
    || ch == '\U{e6}' || ch == '\U{f8}' || ch == '\U{e5}' || ch == '\U{c6}' || ch == '\U{d8}' || ch == '\U{c5}'
  }

  /** The ranges accept exactly the runes of USERNAME_ALLOWED_LETTERS, the
      string the registration loop scans. */
  lemma AllowedLetterIsConstant(ch: char)
    ensures AllowedLetter(ch) <==> ch in USERNAME_ALLOWED_LETTERS
  {
    var lower, lowerExtra, upper, upperExtra, digits :=
      "abcdefghijklmnopqrstuvwxyz", "\U{e6}\U{f8}\U{e5}", "ABCDEFGHIJKLMNOPQRSTUVWXYZ", "\U{c6}\U{d8}\U{c5}", "0123456789";
    assert USERNAME_ALLOWED_LETTERS == lower + lowerExtra + upper + upperExtra + ("_" + digits);
    LetterRuns();
    RunMembership(lower, 'a', ch);
    RunMembership(upper, 'A', ch);
    RunMembership(digits, '0', ch);
  }

  /** A string of consecutive code points holds exactly the runes of its range. */
  lemma RunMembership(run: string, first: char, ch: char)
    requires forall i :: 0 <= i < |run| ==> run[i] as int == first as int + i
    ensures ch in run <==> first as int <= ch as int < first as int + |run|
  {
    if first as int <= ch as int < first as int + |run| {
      assert run[ch as int - first as int] == ch;
    }
  }

  /** The three runs inside USERNAME_ALLOWED_LETTERS are consecutive code points. */
  lemma LetterRuns()
    ensures forall i :: 0 <= i < 26 ==> "abcdefghijklmnopqrstuvwxyz"[i] as int == 'a' as int + i
    ensures forall i :: 0 <= i < 26 ==> "ABCDEFGHIJKLMNOPQRSTUVWXYZ"[i] as int == 'A' as int + i
    ensures forall i :: 0 <= i < 10 ==> "0123456789"[i] as int == '0' as int + i
  {
  }

  // ---------------------------------------------------------------- session

  /** `GetBrowserUsername`: the cookie's username, or "" without a cookie;
      a missing or unreadable cookie reads as "". */
  function GetBrowserUsername(c: Cookie): (username: string)
    ensures c == None ==> username == ""
    ensures username != "" <==> c.Some? && c.value != ""
    ensures username != "" ==> c == Some(username)
  {
    c.GetOr("")
  }

  datatype CookieError = EmptyUsername | NoSuchUser

  /** `SetBrowserUsername`: binds the browser to a known, non-empty username
      (for one hour, at path "/"); otherwise refuses and keeps the cookie. */
  function SetBrowserUsername(s: Store, c: Cookie, username: string): (r: (Option<CookieError>, Cookie))
    ensures r.0 == None <==> username != "" && HasUser(s, username)
    ensures r.0 == Some(EmptyUsername) <==> username == ""
    ensures r.0 == None ==> GetBrowserUsername(r.1) == username
    ensures r.0.Some? ==> r.1 == c
  {
    if username == "" then (Some(EmptyUsername), c)
    else if !HasUser(s, username) then (Some(NoSuchUser), c)
    else (None, Some(username))
  }

  datatype SetCookieOutcome =
    | CookieRefused(reason: CookieError)
    | CookieStored(username: string)   // "Cookie stored: user = ..."

  /** The set-cookie handler: the same checks and binding as
      `SetBrowserUsername`, for the username in the URL. */
  function SetCookie(s: Store, c: Cookie, username: string): (r: Response<SetCookieOutcome>)
    ensures r.store == s
    ensures r.outcome.CookieStored? <==> username != "" && HasUser(s, username)
    ensures r.outcome.CookieStored? ==> r.outcome.username == username && r.cookie == Some(username)
    ensures r.outcome.CookieRefused? ==> r.cookie == c
  {
    if username == "" then Response(CookieRefused(EmptyUsername), s, c)
    else if !HasUser(s, username) then Response(CookieRefused(NoSuchUser), s, c)
    else Response(CookieStored(username), s, Some(username))
  }

  // ---------------------------------------------------------------- register

  datatype RegisterError =
    | MissingPassword       // "Can't register without a password."
    | MissingConfirmation   // "Please confirm the password by typing it in twice."
    | PasswordsDiffer       // "The password and confirmation password must be equal."
    | MissingEmail          // "Can't register without an email address."
    | InvalidEmail          // "Please use a valid email address."
    | MissingUsername       // "Can't register without a username."
    | UsernameTaken         // "That user already exists, try another username."
    | DisallowedLetter      // "Only a-å, A-Å, 0-9 and _ are allowed in usernames."
    | UsernameIsPassword    // "Username and password must be different, ..."

  datatype RegisterOutcome = Rejected(reason: RegisterError) | Registered(mail: Mail)

  /** The guards of registration, in the order the handler tests them; the
      first that fails names the rejection. */
  function RegisterGuards(s: Store, params: Params, username: string): Option<RegisterError> {
    if !Filled(params, "password1") then Some(MissingPassword)
    else if !Filled(params, "password2") then Some(MissingConfirmation)
    else if params["password1"] != params["password2"] then Some(PasswordsDiffer)
    else if "email" !in params then Some(MissingEmail)
    else if !ValidEmail(params["email"]) then Some(InvalidEmail)
    else if username == "" then Some(MissingUsername)
    else if HasUser(s, username) then Some(UsernameTaken)
    else if !AllowedUsername(username) then Some(DisallowedLetter)
    else if username == params["password1"] then Some(UsernameIsPassword)
    else None
  }

  /** `secret` is the candidate drawn at its own length, and every shorter
      candidate from the minimum length up was held by some scanned user:
      the length grows by one per collision. */
  predicate DrawnAfterCollisions(s: Store, scanned: set<string>, draw: Draw, secret: string) {
    && secret == RandomHumanFriendlyString(draw, |secret|)
    && forall n :: MINIMUM_CONFIRMATION_CODE_LENGTH <= n < |secret| ==>
         exists u :: u in scanned && Field(s, u, SECRET) == Some(RandomHumanFriendlyString(draw, n))
  }

  /** Registration proper, once the guards pass: create the user with the
      hashed password, pick an unused secret, mail it, mark the user
      unconfirmed and store the secret. */
  function RegisterAccepted(s: Store, draw: Draw, username: string, password: string, email: string): (r: (Store, Mail))
    ensures r.0.usernames == s.usernames + {username}
    ensures r.0.unconfirmed == s.unconfirmed + {username}
    ensures Field(r.0, username, PASSWORD) == Some(HashPassword(password))
    ensures Field(r.0, username, EMAIL) == Some(email)
    ensures Field(r.0, username, LOGGEDIN) == Some("false")
    ensures Field(r.0, username, CONFIRMED) == Some("false")
    ensures forall u, f :: u != username ==> Field(r.0, u, f) == Field(s, u, f)
    ensures r.1 == Mail(SITE, CONFIRM_URL + MailSecret(r.1), username, email)
    ensures Field(r.0, username, SECRET) == Some(MailSecret(r.1))
    ensures |MailSecret(r.1)| >= MINIMUM_CONFIRMATION_CODE_LENGTH
    ensures forall u :: u in s.usernames + {username} ==> Field(s, u, SECRET) != Some(MailSecret(r.1))
    ensures DrawnAfterCollisions(s, s.usernames + {username}, draw, MailSecret(r.1))
  {
    var s1 := AddUserUnchecked(s, username, HashPassword(password), email);
    var s2 := s1.(users := HSet(s1.users, username, CONFIRMED, "false"));
    var secret := GenerateSecret(s2, draw, MINIMUM_CONFIRMATION_CODE_LENGTH);
    assert forall u :: u in s2.usernames ==> Field(s2, u, SECRET) == Field(s, u, SECRET);
    var mail := Mail(SITE, CONFIRM_URL + secret, username, email);
    var s3 := s2.(unconfirmed := s2.unconfirmed + {username});
    (s3.(users := HSet(s3.users, username, SECRET, secret)), mail)
  }

  /** The secret a confirmation mail carries: the URL after the confirm prefix. */
  function MailSecret(m: Mail): string {
    if |CONFIRM_URL| <= |m.url| then m.url[|CONFIRM_URL|..] else ""
  }

  /** The register handler (`val` is the username from the URL). */
  function Register(s: Store, c: Cookie, draw: Draw, params: Params, username: string): (r: Response<RegisterOutcome>)
    ensures r.cookie == c
    ensures r.outcome.Rejected? ==> r.store == s
    // each rejection, exactly when the earlier guards pass and its own fails
    ensures r.outcome == Rejected(MissingPassword) <==> !Filled(params, "password1")
    ensures r.outcome == Rejected(MissingConfirmation) <==>
              Filled(params, "password1") && !Filled(params, "password2")
    ensures r.outcome == Rejected(PasswordsDiffer) <==>
              Filled(params, "password1") && Filled(params, "password2") && params["password1"] != params["password2"]
    ensures r.outcome == Rejected(MissingEmail) <==>
              PasswordsAgree(params) && "email" !in params
    ensures r.outcome == Rejected(InvalidEmail) <==>
              PasswordsAgree(params) && "email" in params && !ValidEmail(params["email"])
    ensures r.outcome == Rejected(MissingUsername) <==>
              PasswordsAgree(params) && EmailAccepted(params) && username == ""
    ensures r.outcome == Rejected(UsernameTaken) <==>
              PasswordsAgree(params) && EmailAccepted(params) && username != "" && HasUser(s, username)
    ensures r.outcome == Rejected(DisallowedLetter) <==>
              PasswordsAgree(params) && EmailAccepted(params) && username != "" && !HasUser(s, username) && !AllowedUsername(username)
    ensures r.outcome == Rejected(UsernameIsPassword) <==>
              PasswordsAgree(params) && EmailAccepted(params) && username != "" && !HasUser(s, username) && AllowedUsername(username)
              && username == params["password1"]
    ensures r.outcome.Registered? ==>
              && username != "" && username !in s.usernames
              && r.store.usernames == s.usernames + {username}
              && r.store.unconfirmed == s.unconfirmed + {username}
              && Field(r.store, username, PASSWORD) == Some(HashPassword(params["password1"]))
              && Field(r.store, username, EMAIL) == Some(params["email"])
              && Field(r.store, username, LOGGEDIN) == Some("false")
              && Field(r.store, username, CONFIRMED) == Some("false")
              && (forall u, f :: u != username ==> Field(r.store, u, f) == Field(s, u, f))
    // the secret: mailed, stored, long enough and unlike every secret scanned
    ensures r.outcome.Registered? ==>
              var secret := MailSecret(r.outcome.mail);
              && r.outcome.mail == Mail(SITE, CONFIRM_URL + secret, username, params["email"])
              && Field(r.store, username, SECRET) == Some(secret)
              && |secret| >= MINIMUM_CONFIRMATION_CODE_LENGTH
              && (forall u :: u in s.usernames + {username} ==> Field(s, u, SECRET) != Some(secret))
              && DrawnAfterCollisions(s, s.usernames + {username}, draw, secret)
  {
    match RegisterGuards(s, params, username)
    case Some(e) => Response(Rejected(e), s, c)
    case None =>
      var (s', mail) := RegisterAccepted(s, draw, username, params["password1"], params["email"]);
      Response(Registered(mail), s', c)
  }

  // ---------------------------------------------------------------- confirm

  /** The user found by the confirm handler's scan: the first listed user
      whose "secret" field equals `secret`, or "" when none does. */
  function SecretOwner(s: Store, listing: seq<string>, secret: string): (owner: string)
    ensures owner != "" ==>
              exists i :: 0 <= i < |listing| && listing[i] == owner && Field(s, owner, SECRET) == Some(secret)
                          && forall j :: 0 <= j < i ==> Field(s, listing[j], SECRET) != Some(secret)
    ensures (forall i :: 0 <= i < |listing| ==> Field(s, listing[i], SECRET) != Some(secret)) ==> owner == ""
    ensures owner == "" && "" !in listing ==>
              forall i :: 0 <= i < |listing| ==> Field(s, listing[i], SECRET) != Some(secret)
  {
    if |listing| == 0 then ""
    else if Field(s, listing[0], SECRET) == Some(secret) then listing[0]
    else
      var owner := SecretOwner(s, listing[1..], secret);
      assert owner != "" ==> exists i :: 1 <= i < |listing| && listing[i] == owner
                                         && Field(s, owner, SECRET) == Some(secret)
                                         && forall j :: 0 <= j < i ==> Field(s, listing[j], SECRET) != Some(secret) by {
        if owner != "" {
          var k :| 0 <= k < |listing[1..]| && listing[1..][k] == owner && Field(s, owner, SECRET) == Some(secret)
                   && forall j :: 0 <= j < k ==> Field(s, listing[1..][j], SECRET) != Some(secret);
          assert listing[k + 1] == owner;
          assert forall j :: 0 <= j < k + 1 ==> Field(s, listing[j], SECRET) != Some(secret) by {
            forall j | 0 <= j < k + 1
              ensures Field(s, listing[j], SECRET) != Some(secret)
            {
              if j > 0 {
                assert listing[j] == listing[1..][j - 1];
              }
            }
          }
        }
      }
      owner
  }

  datatype ConfirmOutcome =
    | LinkInvalid            // "The confirmation link is no longer valid."
    | UserGone               // "The user you wish to confirm does not exist anymore."
    | Confirmed(username: string)

  /** The confirm handler: `listing` is the `SMEMBERS usernames` reply it
      scans and `secret` the value from the URL. */
  function Confirm(s: Store, c: Cookie, listing: seq<string>, secret: string): (r: Response<ConfirmOutcome>)
    ensures r.cookie == c
    ensures !r.outcome.Confirmed? ==> r.store == s
    ensures r.outcome.Confirmed? ==>
              var u := r.outcome.username;
              && u == SecretOwner(s, listing, secret)
              && u != "" && u in listing && HasUser(s, u) && Field(s, u, SECRET) == Some(secret)
              && r.store.usernames == s.usernames
              && r.store.unconfirmed == s.unconfirmed - {u}
              && Field(r.store, u, SECRET) == None
              && Field(r.store, u, CONFIRMED) == Some("true")
              && (forall f :: f != SECRET && f != CONFIRMED ==> Field(r.store, u, f) == Field(s, u, f))
              && (forall v, f :: v != u ==> Field(r.store, v, f) == Field(s, v, f))
    ensures r.outcome == UserGone ==> exists i :: 0 <= i < |listing| && listing[i] !in s.usernames
    // against a true `SMEMBERS` reply the link works exactly when some user holds the secret
    ensures IsMembersReply(listing, s.usernames) && "" !in s.usernames ==>
              (r.outcome.Confirmed? <==> SecretInUse(s, secret)) && r.outcome != UserGone
  {
    var username := SecretOwner(s, listing, secret);
    if username == "" then
      Response(LinkInvalid, s, c)
    else if !HasUser(s, username) then
      Response(UserGone, s, c)
    else
      var unconfirmed := s.unconfirmed - {username};
      var users := HDel(s.users, username, SECRET);
      var users := HSet(users, username, CONFIRMED, "true");
      Response(Confirmed(username), Store(s.usernames, unconfirmed, users), c)
  }

  // ---------------------------------------------------------------- remove

  datatype RemoveOutcome =
    | BlankUser              // "Can't remove blank user"
    | UnknownUser            // "user ... doesn't exists, could not remove"
    | Removed(username: string)

  /** The remove handler: drops the name from "usernames" and deletes only
      the "loggedin" field; the rest of the user's hash and any
      "unconfirmed" membership stay behind. */
  function Remove(s: Store, c: Cookie, username: string): (r: Response<RemoveOutcome>)
    ensures r.cookie == c
    ensures r.outcome == BlankUser <==> username == ""
    ensures r.outcome == UnknownUser <==> username != "" && !HasUser(s, username)
    ensures !r.outcome.Removed? ==> r.store == s
    ensures r.outcome.Removed? ==>
              && r.outcome.username == username
              && r.store.usernames == s.usernames - {username}
              && !HasUser(r.store, username)
              && r.store.unconfirmed == s.unconfirmed
              && Field(r.store, username, LOGGEDIN) == None
              && (forall f :: f != LOGGEDIN ==> Field(r.store, username, f) == Field(s, username, f))
              && (forall v, f :: v != username ==> Field(r.store, v, f) == Field(s, v, f))
  {
    if username == "" then Response(BlankUser, s, c)
    else if !HasUser(s, username) then Response(UnknownUser, s, c)
    else
      var s' := Store(s.usernames - {username}, s.unconfirmed, HDel(s.users, username, LOGGEDIN));
      Response(Removed(username), s', c)
  }

  // ---------------------------------------------------------------- login

  datatype LoginOutcome =
    | NoPassword             // "Can't log in without a password."
    | BlankUsername          // "Can't log in with a blank username."
    | UnknownLogin           // "User ... does not exist, could not log in."
    | NotConfirmed           // "The email for ... has not been confirmed, ..."
    | WrongPassword          // "Wrong password."
    | LoggedIn(username: string)

  /** The login handler (`username` from the URL, the password from the
      "password" parameter). */
  function Login(s: Store, c: Cookie, params: Params, username: string): (r: Response<LoginOutcome>)
    ensures r.outcome == NoPassword <==> "password" !in params
    ensures r.outcome == BlankUsername <==> "password" in params && username == ""
    ensures r.outcome == UnknownLogin <==> "password" in params && username != "" && !HasUser(s, username)
    ensures r.outcome == NotConfirmed <==>
              "password" in params && username != "" && HasUser(s, username) && !IsConfirmed(s, username)
    ensures r.outcome == WrongPassword <==>
              "password" in params && username != "" && IsConfirmed(s, username)
              && !CorrectPassword(s, username, params["password"])
    ensures r.outcome.LoggedIn? <==>
              "password" in params && username != "" && IsConfirmed(s, username)
              && CorrectPassword(s, username, params["password"])
    ensures !r.outcome.LoggedIn? ==> r.store == s && r.cookie == c
    ensures r.outcome.LoggedIn? ==>
              && r.outcome.username == username
              && r.cookie == Some(username)
              && r.store.usernames == s.usernames && r.store.unconfirmed == s.unconfirmed
              && IsLoggedIn(r.store, username)
              && (forall f :: f != LOGGEDIN ==> Field(r.store, username, f) == Field(s, username, f))
              && (forall v, f :: v != username ==> Field(r.store, v, f) == Field(s, v, f))
  {
    if "password" !in params then Response(NoPassword, s, c)
    else if username == "" then Response(BlankUsername, s, c)
    else if !HasUser(s, username) then Response(UnknownLogin, s, c)
    else if !IsConfirmed(s, username) then Response(NotConfirmed, s, c)
    else if !CorrectPassword(s, username, params["password"]) then Response(WrongPassword, s, c)
    else
      var s' := s.(users := HSet(s.users, username, LOGGEDIN, "true"));
      var (_, c') := SetBrowserUsername(s', c, username);
      Response(LoggedIn(username), s', c')
  }

  // ---------------------------------------------------------------- logout

  datatype LogoutOutcome =
    | NoUserToLogOut         // "No user to log out"
    | UnknownLogout          // "user ... does not exist, could not log out"
    | LoggedOut(username: string)

  /** The logout handler: clears the "loggedin" flag of the cookie's user
      and leaves the cookie in place. */
  function Logout(s: Store, c: Cookie): (r: Response<LogoutOutcome>)
    ensures r.cookie == c
    ensures r.outcome == NoUserToLogOut <==> GetBrowserUsername(c) == ""
    ensures r.outcome == UnknownLogout <==> GetBrowserUsername(c) != "" && !HasUser(s, GetBrowserUsername(c))
    ensures !r.outcome.LoggedOut? ==> r.store == s
    ensures r.outcome.LoggedOut? ==>
              && r.outcome.username == GetBrowserUsername(c)
              && r.store.usernames == s.usernames && r.store.unconfirmed == s.unconfirmed
              && Field(r.store, r.outcome.username, LOGGEDIN) == Some("false")
              && !IsLoggedIn(r.store, r.outcome.username)
              && (forall f :: f != LOGGEDIN ==> Field(r.store, r.outcome.username, f) == Field(s, r.outcome.username, f))
              && (forall v, f :: v != r.outcome.username ==> Field(r.store, v, f) == Field(s, v, f))
  {
    var username := GetBrowserUsername(c);
    if username == "" then Response(NoUserToLogOut, s, c)
    else if !HasUser(s, username) then Response(UnknownLogout, s, c)
    else Response(LoggedOut(username), s.(users := HSet(s.users, username, LOGGEDIN, "false")), c)
  }

  /** Logging out twice leaves the same store as logging out once. */
  lemma LogoutIdempotent(s: Store, c: Cookie)
    ensures Logout(Logout(s, c).store, c).store == Logout(s, c).store
  {
    var r := Logout(s, c);
    if r.outcome.LoggedOut? {
      var u := r.outcome.username;
      var r2 := Logout(r.store, c);
      assert r2.outcome.LoggedOut?;
      assert r2.store.users == r.store.users by {
        assert r.store.users[u][LOGGEDIN := "false"] == r.store.users[u];
      }
    }
  }

  // ---------------------------------------------------------------- status

  datatype StatusOutcome =
    | NoUsernameGiven        // "No username given"
    | StatusUnknown          // "... does not exist"
    | Status(loggedIn: bool, confirmed: bool)

  /** The status handler for a named user (read-only). */
  function UserStatus(s: Store, username: string): (r: StatusOutcome)
    ensures r == NoUsernameGiven <==> username == ""
    ensures r == StatusUnknown <==> username != "" && !HasUser(s, username)
    ensures r.Status? ==> HasUser(s, username)
                          && (r.loggedIn <==> Field(s, username, LOGGEDIN) == Some("true"))
                          && (r.confirmed <==> Field(s, username, CONFIRMED) == Some("true"))
  {
    if username == "" then NoUsernameGiven
    else if !HasUser(s, username) then StatusUnknown
    else Status(IsLoggedIn(s, username), IsConfirmed(s, username))
  }

  datatype CurrentStatusOutcome =
    | NoUserLoggedIn         // "No user logged in"
    | CurrentUnknown(username: string)
    | NotLoggedIn(username: string)
    | LoggedInAs(username: string)

  /** The status handler for the cookie's user (read-only). */
  function CurrentUserStatus(s: Store, c: Cookie): (r: CurrentStatusOutcome)
    ensures r == NoUserLoggedIn <==> GetBrowserUsername(c) == ""
    ensures !r.NoUserLoggedIn? ==> r.username == GetBrowserUsername(c)
    ensures r.LoggedInAs? <==> GetBrowserUsername(c) != "" && IsLoggedIn(s, GetBrowserUsername(c))
    ensures r.CurrentUnknown? <==> GetBrowserUsername(c) != "" && !HasUser(s, GetBrowserUsername(c))
  {
    var username := GetBrowserUsername(c);
    if username == "" then NoUserLoggedIn
    else if !HasUser(s, username) then CurrentUnknown(username)
    else if !IsLoggedIn(s, username) then NotLoggedIn(username)
    else LoggedInAs(username)
  }

  /** The menu selector: "010" (only Logout) when the browser's user is
      logged in, "101" (Login and Register) otherwise. */
  function ShowLoginLogoutRegister(s: Store, c: Cookie): (flags: string)
    ensures flags == ONLY_LOGOUT <==> GetBrowserUsername(c) != "" && IsLoggedIn(s, GetBrowserUsername(c))
    ensures flags == EXCEPT_LOGOUT <==> !(GetBrowserUsername(c) != "" && IsLoggedIn(s, GetBrowserUsername(c)))
    ensures flags != NOTHING
  {
    var username := GetBrowserUsername(c);
    if username != "" then
      if IsLoggedIn(s, username) then ONLY_LOGOUT else EXCEPT_LOGOUT
    else
      EXCEPT_LOGOUT
  }
}
