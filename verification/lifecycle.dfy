/** Properties of whole request sequences: a registration, its confirmation
    and a login end with a confirmed, logged-in user; a confirmation link
    works once; and concrete registration and login scenarios. */
module Lifecycle {
  import opened Wrappers
  import opened Redis
  import opened UserState
  import opened Handlers
  import opened Invariants

  /** The parameters of a register form. */
  function RegisterForm(password1: string, password2: string, email: string): Params {
    map["password1" := password1, "password2" := password2, "email" := email]
  }

  /** The parameters of a login form. */
  function LoginForm(password: string): Params {
    map["password" := password]
  }

  /** Inputs every registration guard lets through, for a form that sends
      the same password twice. */
  predicate Registrable(s: Store, username: string, password: string, email: string) {
    && password != "" && ValidEmail(email)
    && username != "" && !HasUser(s, username) && AllowedUsername(username) && username != password
  }

  /** A register form with one password twice is accepted exactly when its
      inputs are registrable. */
  lemma RegisterAcceptsRegistrable(s: Store, c: Cookie, draw: Draw, username: string, password: string, email: string)
    ensures Register(s, c, draw, RegisterForm(password, password, email), username).outcome.Registered?
            <==> Registrable(s, username, password, email)
  {
    var form := RegisterForm(password, password, email);
    assert "password1" in form && "password2" in form && "email" in form;
    assert form["password1"] == password == form["password2"] && form["email"] == email;
  }

  /** On a consistent store a confirmation finds the unique user holding the
      secret, and a second use of the same link changes nothing. */
  lemma ConfirmIsSingleUse(s: Store, c: Cookie, listing: seq<string>, listing': seq<string>, secret: string)
    requires Valid(s)
    requires Confirm(s, c, listing, secret).outcome.Confirmed?
    ensures var r := Confirm(s, c, listing, secret);
            var r' := Confirm(r.store, r.cookie, listing', secret);
            && !r'.outcome.Confirmed?
            && r'.store == r.store
            && (IsMembersReply(listing', r.store.usernames) ==> r'.outcome == LinkInvalid)
  {
  }

  /** Confirming with the mailed secret confirms the registered user, who
      is then logged out and holds the registered password. */
  lemma RegisterThenConfirm(s: Store, c: Cookie, draw: Draw, username: string, password: string, email: string,
                            listing: seq<string>)
    requires Valid(s)
    requires Registrable(s, username, password, email)
    requires IsMembersReply(listing, s.usernames + {username})
    ensures var r1 := Register(s, c, draw, RegisterForm(password, password, email), username);
            var r2 := Confirm(r1.store, r1.cookie, listing, MailSecret(r1.outcome.mail));
            && r2.outcome == Confirmed(username)
            && r2.cookie == c
            && IsConfirmed(r2.store, username)
            && !IsLoggedIn(r2.store, username)
            && Field(r2.store, username, PASSWORD) == Some(HashPassword(password))
  {
    RegisterAcceptsRegistrable(s, c, draw, username, password, email);
    var form := RegisterForm(password, password, email);
    var r1 := Register(s, c, draw, form, username);
    var secret := MailSecret(r1.outcome.mail);
    RegisterPreservesValid(s, c, draw, form, username);
    var r2 := Confirm(r1.store, r1.cookie, listing, secret);
    assert SecretInUse(r1.store, secret);
    assert r2.outcome.Confirmed?;
    var v := r2.outcome.username;
    assert v == username by {
      assert Field(r1.store, v, SECRET) == Some(secret) == Field(r1.store, username, SECRET);
    }
  }

  /** Register, then confirm with the mailed secret, then log in with the
      registered password: the user ends confirmed, logged in and bound to
      the browser, and the menu offers only Logout. */
  lemma RegisterConfirmLogin(s: Store, c: Cookie, draw: Draw, username: string, password: string, email: string,
                             listing: seq<string>)
    requires Valid(s)
    requires Registrable(s, username, password, email)
    requires IsMembersReply(listing, s.usernames + {username})
    ensures var r1 := Register(s, c, draw, RegisterForm(password, password, email), username);
            var r2 := Confirm(r1.store, r1.cookie, listing, MailSecret(r1.outcome.mail));
            var r3 := Login(r2.store, r2.cookie, LoginForm(password), username);
            && r3.outcome == LoggedIn(username)
            && r3.cookie == Some(username)
            && UserStatus(r3.store, username) == Status(true, true)
            && ShowLoginLogoutRegister(r3.store, r3.cookie) == ONLY_LOGOUT
  {
    RegisterThenConfirm(s, c, draw, username, password, email, listing);
    var r1 := Register(s, c, draw, RegisterForm(password, password, email), username);
    var r2 := Confirm(r1.store, r1.cookie, listing, MailSecret(r1.outcome.mail));
    CorrectPasswordIffSame(r2.store, username, password, password);
  }

  /** Logging in right after registering is refused as unconfirmed and
      leaves the user logged out. */
  lemma LoginBeforeConfirmation(s: Store, c: Cookie, draw: Draw, username: string, password: string, email: string)
    requires Registrable(s, username, password, email)
    ensures var r1 := Register(s, c, draw, RegisterForm(password, password, email), username);
            var r2 := Login(r1.store, r1.cookie, LoginForm(password), username);
            && r2.outcome == NotConfirmed
            && !IsLoggedIn(r2.store, username)
  {
    RegisterAcceptsRegistrable(s, c, draw, username, password, email);
  }

  /** After confirmation, a password other than the registered one is
      refused and the user stays logged out. */
  lemma LoginWithWrongPassword(s: Store, c: Cookie, draw: Draw, username: string, password: string, email: string,
                               listing: seq<string>, wrong: string)
    requires Valid(s)
    requires Registrable(s, username, password, email)
    requires IsMembersReply(listing, s.usernames + {username})
    requires wrong != password
    ensures var r1 := Register(s, c, draw, RegisterForm(password, password, email), username);
            var r2 := Confirm(r1.store, r1.cookie, listing, MailSecret(r1.outcome.mail));
            var r3 := Login(r2.store, r2.cookie, LoginForm(wrong), username);
            && r3.outcome == WrongPassword
            && !IsLoggedIn(r3.store, username)
  {
    RegisterThenConfirm(s, c, draw, username, password, email, listing);
    var r1 := Register(s, c, draw, RegisterForm(password, password, email), username);
    var r2 := Confirm(r1.store, r1.cookie, listing, MailSecret(r1.outcome.mail));
    CorrectPasswordIffSame(r2.store, username, password, wrong);
  }

  /** A username with a disallowed rune is refused and nothing is stored. */
  lemma RegisterDisallowedLetter(s: Store, c: Cookie, draw: Draw)
    requires !HasUser(s, "arni!")
    ensures var r := Register(s, c, draw, RegisterForm("hunter2", "hunter2", "a@b.no"), "arni!");
            r.outcome == Rejected(DisallowedLetter) && r.store == s
  {
    var form := RegisterForm("hunter2", "hunter2", "a@b.no");
    ExclamationMarkDisallowed();
    assert form["password1"] == "hunter2" == form["password2"] && form["email"] == "a@b.no";
    assert ValidEmail("a@b.no");
    assert RegisterGuards(s, form, "arni!") == Some(DisallowedLetter);
  }

  /** "!" is not an allowed username letter. */
  lemma ExclamationMarkDisallowed()
    ensures !AllowedUsername("arni!")
  {
    var name := "arni!";
    assert name[4] == '!';
  }

  /** Two different passwords are refused and nothing is stored. */
  lemma RegisterPasswordsDiffer(s: Store, c: Cookie, draw: Draw)
    ensures var r := Register(s, c, draw, RegisterForm("x", "y", "a@b.no"), "bob");
            r.outcome == Rejected(PasswordsDiffer) && r.store == s
  {
    var form := RegisterForm("x", "y", "a@b.no");
    assert form["password1"] == "x" && form["password2"] == "y";
    assert RegisterGuards(s, form, "bob") == Some(PasswordsDiffer);
  }

  /** Registering a taken name again is refused and the first account is
      left as it was. */
  lemma RegisterTwice(s: Store, c: Cookie, draw: Draw, draw': Draw, username: string, form: Params, form': Params)
    requires PasswordsAgree(form) && EmailAccepted(form)
    requires username != "" && !HasUser(s, username) && AllowedUsername(username) && username != form["password1"]
    requires PasswordsAgree(form') && EmailAccepted(form')
    ensures var r1 := Register(s, c, draw, form, username);
            var r2 := Register(r1.store, r1.cookie, draw', form', username);
            r2.outcome == Rejected(UsernameTaken) && r2.store == r1.store
  {
  }

  /** After a logout the menu offers Login and Register again. */
  lemma LogoutShowsLogin(s: Store, c: Cookie)
    ensures ShowLoginLogoutRegister(Logout(s, c).store, c) == EXCEPT_LOGOUT
  {
  }
}
