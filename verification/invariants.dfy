/** The consistency the handlers keep between the two sets and the user
    hashes, and the end-to-end properties of the account life cycle:
    register, confirm, log in, log out. */
module Invariants {
  import opened Wrappers
  import opened Redis
  import opened UserState
  import opened Handlers

  /** A flag field holds one of the two values the system writes. */
  predicate IsFlag(v: Option<string>) {
    v == Some("true") || v == Some("false")
  }

  /** What holds of every user in "usernames":
      - the name is not empty;
      - password, email and both flags are stored;
      - unconfirmed exactly when the "confirmed" flag is "false", which is
        exactly when a secret is stored;
      - logged in only once confirmed;
      and no two users carry the same secret. */
  ghost predicate Valid(s: Store) {
    && "" !in s.usernames
    && (forall u :: u in s.usernames ==>
          && Field(s, u, PASSWORD).Some? && Field(s, u, EMAIL).Some?
          && IsFlag(Field(s, u, LOGGEDIN)) && IsFlag(Field(s, u, CONFIRMED))
          && (u in s.unconfirmed <==> Field(s, u, CONFIRMED) == Some("false"))
          && (Field(s, u, SECRET).Some? <==> Field(s, u, CONFIRMED) == Some("false"))
          && (Field(s, u, LOGGEDIN) == Some("true") ==> Field(s, u, CONFIRMED) == Some("true")))
    && (forall u, v :: u in s.usernames && v in s.usernames && u != v && Field(s, u, SECRET).Some? ==>
          Field(s, v, SECRET) != Field(s, u, SECRET))
  }

  lemma EmptyStoreValid()
    ensures Valid(EmptyStore)
  {
  }

  lemma RegisterPreservesValid(s: Store, c: Cookie, draw: Draw, params: Params, username: string)
    requires Valid(s)
    ensures Valid(Register(s, c, draw, params, username).store)
  {
    if RegisterGuards(s, params, username).None? {
      RegisterAcceptedPreservesValid(s, draw, username, params["password1"], params["email"]);
    }
  }

  lemma RegisterAcceptedPreservesValid(s: Store, draw: Draw, username: string, password: string, email: string)
    requires Valid(s)
    requires username != "" && username !in s.usernames
    ensures Valid(RegisterAccepted(s, draw, username, password, email).0)
  {
    var (t, mail) := RegisterAccepted(s, draw, username, password, email);
    NewUnconfirmedUserKeepsValid(s, t, username, MailSecret(mail));
  }

  /** Adding one unconfirmed user with fresh password, email, both flags
      "false" and a secret nobody holds keeps the store consistent. */
  lemma NewUnconfirmedUserKeepsValid(s: Store, t: Store, username: string, secret: string)
    requires Valid(s)
    requires username != "" && username !in s.usernames
    requires t.usernames == s.usernames + {username} && t.unconfirmed == s.unconfirmed + {username}
    requires Field(t, username, PASSWORD).Some? && Field(t, username, EMAIL).Some?
    requires Field(t, username, LOGGEDIN) == Some("false") && Field(t, username, CONFIRMED) == Some("false")
    requires Field(t, username, SECRET) == Some(secret)
    requires forall u, f :: u != username ==> Field(t, u, f) == Field(s, u, f)
    requires forall u :: u in s.usernames ==> Field(s, u, SECRET) != Some(secret)
    ensures Valid(t)
  {
    forall u | u in t.usernames
      ensures && Field(t, u, PASSWORD).Some? && Field(t, u, EMAIL).Some?
              && IsFlag(Field(t, u, LOGGEDIN)) && IsFlag(Field(t, u, CONFIRMED))
              && (u in t.unconfirmed <==> Field(t, u, CONFIRMED) == Some("false"))
              && (Field(t, u, SECRET).Some? <==> Field(t, u, CONFIRMED) == Some("false"))
              && (Field(t, u, LOGGEDIN) == Some("true") ==> Field(t, u, CONFIRMED) == Some("true"))
    {
      if u != username {
        assert u in s.usernames;
      }
    }
    forall u, v | u in t.usernames && v in t.usernames && u != v && Field(t, u, SECRET).Some?
      ensures Field(t, v, SECRET) != Field(t, u, SECRET)
    {
      if u == username {
        assert Field(t, v, SECRET) == Field(s, v, SECRET);
      } else if v == username {
        assert Field(t, u, SECRET) == Field(s, u, SECRET);
      }
    }
  }

  lemma ConfirmPreservesValid(s: Store, c: Cookie, listing: seq<string>, secret: string)
    requires Valid(s)
    ensures Valid(Confirm(s, c, listing, secret).store)
  {
  }

  lemma LoginPreservesValid(s: Store, c: Cookie, params: Params, username: string)
    requires Valid(s)
    ensures Valid(Login(s, c, params, username).store)
  {
  }

  lemma LogoutPreservesValid(s: Store, c: Cookie)
    requires Valid(s)
    ensures Valid(Logout(s, c).store)
  {
  }

  lemma RemovePreservesValid(s: Store, c: Cookie, username: string)
    requires Valid(s)
    ensures Valid(Remove(s, c, username).store)
  {
  }
}
