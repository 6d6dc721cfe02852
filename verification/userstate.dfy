/** The state of the account system and the helpers every handler uses:
    `HasUser`, `AddUserUnchecked`, `IsConfirmed`, `IsLoggedIn`,
    `CorrectPassword`, `HashPassword` and the confirmation-secret machinery
    (`AlreadyHasSecret` and the collision-avoiding generation loop). */
module UserState {
  import opened Wrappers
  import opened Redis

  const MINIMUM_CONFIRMATION_CODE_LENGTH: nat := 20

  /** The runes a username may consist of: a-z, æ, ø, å, A-Z, Æ, Ø, Å,
      underscore and the ten digits (written as its five groups, one string). */
  const USERNAME_ALLOWED_LETTERS: string :=
    "abcdefghijklmnopqrstuvwxyz" + "\U{e6}\U{f8}\U{e5}" + "ABCDEFGHIJKLMNOPQRSTUVWXYZ" + "\U{c6}\U{d8}\U{c5}" + "_0123456789"

  // The field names of a user's hash
  const PASSWORD := "password"
  const EMAIL := "email"
  const LOGGEDIN := "loggedin"
  const CONFIRMED := "confirmed"
  const SECRET := "secret"

  /** Everything the account system keeps in Redis: the set "usernames" of all
      users, the set "unconfirmed" of users awaiting confirmation, and the
      hash map "users" with one hash of fields per username. */
  datatype Store = Store(usernames: set<string>, unconfirmed: set<string>, users: HashMap)

  /** The store of a fresh Redis database. */
  const EmptyStore := Store({}, {}, map[])

  /** `HGET users:<username> <field>`. */
  function Field(s: Store, username: string, field: string): Option<string> {
    HGet(s.users, username, field)
  }

  /** The flag reading the source delegates to `TruthValue`: only the values
      the system itself writes, "true" and "false", are given a meaning. */
  predicate TruthValue(v: string) {
    v == "true"
  }

  /** `SISMEMBER usernames <username>`. */
  predicate HasUser(s: Store, username: string) {
    username in s.usernames
  }

  /** Reads a "true"/"false" field of a known user; an unknown user or a
      missing field reads as false. */
  predicate Flag(s: Store, username: string, field: string)
    ensures Flag(s, username, field) <==> HasUser(s, username) && Field(s, username, field) == Some("true")
  {
    && HasUser(s, username)
    && match Field(s, username, field)
       case Some(v) => TruthValue(v)
       case None => false
  }

  /** `HasUser` asks `SISMEMBER`; against a true `SMEMBERS` reply it agrees
      with the listing. */
  lemma HasUserIffListed(s: Store, listing: seq<string>, username: string)
    requires IsMembersReply(listing, s.usernames)
    ensures HasUser(s, username) <==> exists i :: 0 <= i < |listing| && listing[i] == username
  {
  }

  /** Whether the user's email address has been confirmed. */
  predicate IsConfirmed(s: Store, username: string)
    ensures !HasUser(s, username) ==> !IsConfirmed(s, username)
    ensures IsConfirmed(s, username) <==> HasUser(s, username) && Field(s, username, CONFIRMED) == Some("true")
  {
    Flag(s, username, CONFIRMED)
  }

  /** Whether the user is logged in; the source has this check twice, as
      `IsLoggedIn` and as the method `LoggedIn`, with the same body. */
  predicate IsLoggedIn(s: Store, username: string)
    ensures !HasUser(s, username) ==> !IsLoggedIn(s, username)
    ensures IsLoggedIn(s, username) <==> HasUser(s, username) && Field(s, username, LOGGEDIN) == Some("true")
  {
    Flag(s, username, LOGGEDIN)
  }

  /** The placeholder password "hash": the password between two fixed
      "abc123" markers. */
  function HashPassword(password: string): (h: string)
    ensures |h| == |password| + 12
    ensures h[6..|h| - 6] == password
  {
    "abc123" + password + "abc123"
  }

  /** Two passwords with the same hash are the same password, so comparing
      hashes is comparing passwords. */
  lemma HashPasswordInjective(p: string, q: string)
    requires HashPassword(p) == HashPassword(q)
    ensures p == q
  {
  }

  /** The stored hash matches the hash of the given password; a user without
      a stored password never matches. */
  predicate CorrectPassword(s: Store, username: string, password: string)
    ensures CorrectPassword(s, username, password) ==> Field(s, username, PASSWORD).Some?
  {
    match Field(s, username, PASSWORD)
    case Some(hashed) => hashed == HashPassword(password)
    case None => false
  }

  /** A password is accepted exactly when it is the one whose hash was stored. */
  lemma CorrectPasswordIffSame(s: Store, username: string, stored: string, password: string)
    requires Field(s, username, PASSWORD) == Some(HashPassword(stored))
    ensures CorrectPassword(s, username, password) <==> password == stored
  {
  }

  /** Creates a user without any checks: adds the name to "usernames" and
      writes password, email and the two flags, both "false". */
  function AddUserUnchecked(s: Store, username: string, password: string, email: string): (r: Store)
    ensures r.usernames == s.usernames + {username}
    ensures r.unconfirmed == s.unconfirmed
    ensures Field(r, username, PASSWORD) == Some(password)
    ensures Field(r, username, EMAIL) == Some(email)
    ensures Field(r, username, LOGGEDIN) == Some("false")
    ensures Field(r, username, CONFIRMED) == Some("false")
    ensures Field(r, username, SECRET) == Field(s, username, SECRET)
    ensures forall u, f :: u != username ==> Field(r, u, f) == Field(s, u, f)
  {
    var users := HSet(s.users, username, PASSWORD, password);
    var users := HSet(users, username, EMAIL, email);
    var users := HSet(users, username, LOGGEDIN, "false");
    var users := HSet(users, username, CONFIRMED, "false");
    Store(s.usernames + {username}, s.unconfirmed, users)
  }

  /** Every confirmation secret stored on a user in "usernames". */
  function Secrets(s: Store): set<string> {
    set u | u in s.usernames && Field(s, u, SECRET).Some? :: Field(s, u, SECRET).value
  }

  /** The reference meaning of a secret collision: some user in "usernames"
      (confirmed or not) carries exactly this secret. */
  predicate SecretInUse(s: Store, secret: string)
    ensures SecretInUse(s, secret) <==> secret in Secrets(s)
  {
    exists u | u in s.usernames :: Field(s, u, SECRET) == Some(secret)
  }

  /** The scan of `AlreadyHasSecret`: walks the `SMEMBERS usernames` reply
      and reports whether any listed user's "secret" field equals `secret`;
      users without the field are skipped. */
  method AlreadyHasSecret(s: Store, listing: seq<string>, secret: string) returns (found: bool)
    ensures found <==> exists i :: 0 <= i < |listing| && Field(s, listing[i], SECRET) == Some(secret)
    ensures IsMembersReply(listing, s.usernames) ==> (found <==> SecretInUse(s, secret))
  {
    found := false;
    var i := 0;
    while i < |listing|
      invariant 0 <= i <= |listing|
      invariant forall j :: 0 <= j < i ==> Field(s, listing[j], SECRET) != Some(secret)
    {
      var aSecret := Field(s, listing[i], SECRET);
      if aSecret == Some(secret) {
        found := true;
        return;
      }
      i := i + 1;
    }
  }

  /** The random source behind `RandomHumanFriendlyString`: `draw(n, i)` is
      the i-th character of the string drawn when n characters are asked for. */
  type Draw = (nat, nat) -> char

  /** `RandomHumanFriendlyString(n)`: n characters from the random source. */
  function RandomHumanFriendlyString(draw: Draw, n: nat): (r: string)
    ensures |r| == n
  {
    seq(n, i requires 0 <= i < n => draw(n, i))
  }

  /** The stored secrets at least `n` characters long; it shrinks every time
      a candidate of length `n` collides, which bounds the loop below. */
  function LongSecrets(s: Store, n: nat): set<string> {
    set x | x in Secrets(s) && |x| >= n
  }

  /** The collision-avoiding loop of registration: draw a candidate of
      `length` characters and, while it is already in use, draw again with
      one character more. The loop ends because each collision removes one
      stored secret from the ones long enough to collide. */
  function GenerateSecret(s: Store, draw: Draw, length: nat): (secret: string)
    ensures |secret| >= length
    ensures !SecretInUse(s, secret)
    ensures secret == RandomHumanFriendlyString(draw, |secret|)
    ensures forall n :: length <= n < |secret| ==> SecretInUse(s, RandomHumanFriendlyString(draw, n))
    decreases LongSecrets(s, length)
  {
    var candidate := RandomHumanFriendlyString(draw, length);
    if SecretInUse(s, candidate) then
      assert candidate in LongSecrets(s, length) && candidate !in LongSecrets(s, length + 1);
      GenerateSecret(s, draw, length + 1)
    else
      candidate
  }
}
