# Account lifecycle of archlinux.no, in Dafny

This project models the user-account system of the archlinux.no web site
(`userspecific.go`): registration with input checks and an emailed
confirmation secret, confirmation by that secret, login, logout, removal, the
status pages, the three-flag menu selector and the session cookie that binds
a browser to a username. It also models two pure string components of the
site: the `colonsplit`/title/menu-item logic of `boxes.go`, and the jQuery
snippet emitters of `jquery.go`.

The state is an immutable `Store` that mirrors the Redis data the site keeps:

- the set `usernames`;
- the set `unconfirmed`;
- one hash per user with the fields `password`, `email`, `loggedin`,
  `confirmed` and `secret`.

`HGET` gives an `Option`, because a missing field is an error in the
source. Each handler is a pure function from the store, the browser's cookie
and the request inputs to a `Response`: an outcome datatype (one constructor
per message page), the new store and the new cookie.

Modules, one per component:

- `Wrappers`: `Option`.
- `Redis` (`redis.dfy`): set and hash semantics from `simpleredis.go`.
- `UserState` (`userstate.dfy`): store, status predicates, password hashing,
  the secret scan and the secret generation loop.
- `Handlers` (`handlers.dfy`): register, confirm, login, logout, remove,
  status, the menu selector and the cookies.
- `Invariants` (`invariants.dfy`): what the handlers keep consistent.
- `Lifecycle` (`lifecycle.dfy`): multi-request properties and scenarios.
- `Boxes` (`boxes.dfy`) and `JQuery` (`jquery.dfy`): the string components.
- `Menu` (`menu.dfy`): joins the selector and the jQuery flag tests.

Inputs that the source takes from outside are parameters:

- The `SMEMBERS usernames` reply that the confirm handler scans is a
  `listing: seq<string>`. Lemmas that need it to be a true reply say so with
  `IsMembersReply`.
- `RandomHumanFriendlyString(n)` is n characters from an oracle
  `draw: (nat, nat) -> char`.
- Request parameters are a `map<string, string>`.
- The cookie is the already-verified username, an `Option<string>`.

The model follows the code as written, including where it is narrower than
one might expect:

- The email check rejects only the space character, not all whitespace.
- The secret collision scan reads the `secret` field of every user in
  `usernames` (userspecific.go:144), although the comment at
  userspecific.go:141 speaks of unconfirmed users only.
- When the secret length passes 100, the source branch is empty and the loop
  simply goes on; no abort is modelled. The loop is proved to end anyway: a
  colliding candidate of length n is a stored secret of length n, so each
  collision removes one stored secret from those long enough to collide
  (`GenerateSecret`).
- Remove deletes only the `loggedin` field and the `usernames` membership.
  The rest of the hash, and any `unconfirmed` membership, stay behind.

`TruthValue` (not part of this model) is taken to read "true" as true and
anything else as false. The system only ever writes "true" or "false" to the
flags, and `Invariants.Valid` proves that every user's flags hold one of
those two values, so nothing depends on how other strings would be read.

## Model

| member | source | states |
|---|---|---|
| Redis.HSet | simpleredis.go:107-111 | the written field reads back as the value; other fields and other users' hashes are unchanged |
| Redis.HGet | simpleredis.go:113-120 | a value exactly when the field exists in the user's hash, and that value; a missing hash or field is None (the nil-reply error) |
| Redis.HDel | simpleredis.go:122-126 | the field is gone afterwards; every other field of every hash reads as before |
| Redis.HGetAfterHSet | simpleredis.go:107-120 | reading right after HSET gives the written value for that key/field and the old value for any other |
| Redis.HGetAfterHDel | simpleredis.go:113-126 | reading right after HDEL gives None for that key/field and the old value for any other |
| UserState.IsConfirmed | userspecific.go:108-117 | false for names not in `usernames`; true exactly for a known user whose `confirmed` field is "true" |
| UserState.IsLoggedIn | userspecific.go:119-128 | false for names not in `usernames`; true exactly for a known user whose `loggedin` field is "true" (the method `LoggedIn`, lines 432-441, has the same body) |
| UserState.HasUserIffListed | userspecific.go:86-92 | `HasUser` is `SISMEMBER usernames`: against a true SMEMBERS reply it holds exactly for the listed names; the error branch at lines 88-90 cannot be taken, because `Has` panics on a Redis error (simpleredis.go:62-65) |
| UserState.Flag | userspecific.go:432-441 | a flag reads true exactly for a known user whose field holds "true" |
| UserState.HashPassword | userspecific.go:269-272 | the hash is 12 characters longer and holds the password between the two 6-character markers |
| UserState.HashPasswordInjective | userspecific.go:269-272 | equal hashes come from equal passwords |
| UserState.CorrectPassword | userspecific.go:130-139 | a user without a stored password never matches |
| UserState.CorrectPasswordIffSame | userspecific.go:130-139 | with the hash of `stored` on record, a password is accepted exactly when it equals `stored` |
| UserState.AddUserUnchecked | userspecific.go:95-106 | the name joins `usernames`; password and email are written, both flags become "false"; `unconfirmed`, the secret and all other users are untouched |
| UserState.SecretInUse | userspecific.go:143-160 | a secret is in use exactly when it is the `secret` field of some user in `usernames` |
| UserState.AlreadyHasSecret | userspecific.go:143-160 | the scan finds the secret exactly when some listed user holds it; on a true SMEMBERS reply this is exactly `SecretInUse` |
| UserState.RandomHumanFriendlyString | userspecific.go:329-333 | a drawn candidate has exactly the requested length |
| UserState.GenerateSecret | userspecific.go:327-338 | the secret is at least the starting length and unused; it is the candidate of its own length; every shorter candidate from the starting length on collided, so the length grew by one per collision |
| Handlers.GetBrowserUsername | userspecific.go:451-455 | a missing or invalid cookie reads as ""; a non-empty result is exactly the name the cookie holds |
| Handlers.SetBrowserUsername | userspecific.go:457-469 | refuses an empty or unknown name and keeps the cookie; otherwise the cookie then reads back as that name |
| Handlers.SetCookie | userspecific.go:472-486 | stores the cookie exactly for a non-empty known name; never changes the store |
| Handlers.AllowedLetterIsConstant | userspecific.go:24 | a rune is accepted by the letter ranges used for usernames exactly when it occurs in USERNAME_ALLOWED_LETTERS, the string the registration loop at lines 310-317 scans |
| Handlers.Register | userspecific.go:278-351 | each rejection exactly when the earlier guards pass and its own fails, in source order, with store and cookie unchanged; on success the name is in both sets, with hashed password, email, both flags "false", a stored and mailed secret of length at least 20 unlike every secret scanned, drawn at its own length after one collision per shorter length from 20 up, and no other user changed |
| Handlers.RegisterAccepted | userspecific.go:322-345 | the effect of an accepted registration: both sets gain the name, the fields are written, the secret is stored and mailed in the confirmation URL, is at least 20 long and unlike every stored secret of the scanned users, and is the draw at its own length after every shorter draw from 20 up collided |
| Handlers.SecretOwner | userspecific.go:174-187 | a non-empty result is the first listed user holding the secret; with no holder the result is ""; when no empty name is listed, "" means no listed user holds the secret |
| Handlers.Confirm | userspecific.go:163-207 | on success the first listed holder of the secret (`SecretOwner`) leaves `unconfirmed`, loses the secret and becomes confirmed, with nothing else changed; otherwise nothing changes; on a true SMEMBERS reply, when no user is named "", it succeeds exactly when some user holds the secret |
| Handlers.Remove | userspecific.go:211-228 | blank and unknown names are refused without change; otherwise the name leaves `usernames` and only `loggedin` is deleted; other fields, `unconfirmed` and other users are untouched |
| Handlers.Login | userspecific.go:231-267 | each refusal exactly when the earlier checks pass and its own fails, in order (password sent, name non-empty, user exists, confirmed, password right), changing nothing; on success `loggedin` is "true", the cookie names the user, nothing else changes |
| Handlers.Logout | userspecific.go:355-379 | no cookie name or an unknown one changes nothing; otherwise `loggedin` becomes "false", the cookie stays, nothing else changes |
| Handlers.LogoutIdempotent | userspecific.go:355-379 | logging out twice leaves the same store as logging out once |
| Handlers.UserStatus | userspecific.go:394-413 | blank and unknown names are reported as such; otherwise it reports the two flags as stored |
| Handlers.CurrentUserStatus | userspecific.go:415-429 | reports no user without a cookie name, unknown for a name not in `usernames`, and logged in exactly when the cookie's user is logged in |
| Handlers.ShowLoginLogoutRegister | userspecific.go:57-83 | "010" exactly when the cookie names a logged-in user, "101" otherwise, never "000" |
| Invariants.EmptyStoreValid | userspecific.go:45-48 | the store of an empty database is consistent |
| Invariants.RegisterPreservesValid | userspecific.go:278-351 | registration keeps the store consistent, including unique secrets |
| Invariants.RegisterAcceptedPreservesValid | userspecific.go:322-345 | an accepted registration of a new non-empty name keeps the store consistent |
| Invariants.NewUnconfirmedUserKeepsValid | userspecific.go:323-345 | adding one new unconfirmed user with both flags "false" and a secret nobody holds keeps the store consistent |
| Invariants.ConfirmPreservesValid | userspecific.go:163-207 | confirmation keeps the store consistent |
| Invariants.LoginPreservesValid | userspecific.go:231-267 | login keeps the store consistent, so a logged-in user is always confirmed |
| Invariants.LogoutPreservesValid | userspecific.go:355-379 | logout keeps the store consistent |
| Invariants.RemovePreservesValid | userspecific.go:211-228 | removal keeps the store consistent |
| Lifecycle.RegisterAcceptsRegistrable | userspecific.go:278-320 | a form with the same password twice is accepted exactly when the password is non-empty, the email is valid, and the username is non-empty, new, made of allowed letters and different from the password |
| Lifecycle.ConfirmIsSingleUse | userspecific.go:163-207 | after a successful confirmation, the same secret never confirms again and changes nothing; on a true SMEMBERS reply the link is reported invalid |
| Lifecycle.RegisterThenConfirm | userspecific.go:163-351 | confirming with the mailed secret confirms exactly the registered user, who is logged out and holds the registered password's hash |
| Lifecycle.RegisterConfirmLogin | userspecific.go:163-351 | register, confirm with the mailed secret, and log in with the password: the user is logged in and confirmed, the cookie names them, and the menu shows only Logout |
| Lifecycle.LoginBeforeConfirmation | userspecific.go:246-248 | logging in right after registering is refused as unconfirmed and leaves the user logged out |
| Lifecycle.LoginWithWrongPassword | userspecific.go:252-254 | after confirmation, any other password is refused and the user stays logged out |
| Lifecycle.RegisterDisallowedLetter | userspecific.go:309-317 | "arni!" with valid passwords and email is refused for its letter, and nothing is stored |
| Lifecycle.RegisterPasswordsDiffer | userspecific.go:287-289 | two different passwords are refused and nothing is stored |
| Lifecycle.RegisterTwice | userspecific.go:306-308 | registering a taken name again is refused and the first account is left as it was |
| Lifecycle.LogoutShowsLogin | userspecific.go:57-83 | after any logout, including one without a cookie or for an unknown user, the menu selector offers Login and Register |
| Menu.MenuFollowsSession | jquery.go:94-113 | for the selector's flags, a logged-in session hides Login and Register and shows only Logout; otherwise it hides only Logout and shows Login and Register |
| Boxes.FirstIndex | boxes.go:211-213 | the position of the first separator; no separator occurs before it; it is the length exactly when there is none |
| Boxes.SplitFirst | boxes.go:208-216 | without the separator: the whole text and ""; with it: the two parts rejoin to the text around the separator, and the first part has no separator |
| Boxes.SplitFirstUnique | boxes.go:211-213 | any decomposition with a separator-free first part is the one the split returns, so later separators stay in the second part |
| Boxes.ColonSplit | boxes.go:208-216 | without ":" the text and ""; with ":" the parts rejoin as a + ":" + b and a holds no ":" |
| Boxes.TitleWords | boxes.go:168-173 | without a space the title and ""; with one the words rejoin as word1 + " " + word2 and word1 holds no space |
| Boxes.MenuItems | boxes.go:250-281 | one item per link, in order, with text and URL from `colonsplit`; only the first item is styled; every item but the last has a separator |
| Boxes.SeparatorsBetweenItems | boxes.go:273-280 | n items with separators after all but the last hold n - 1 separators |
| Boxes.OneStyledItem | boxes.go:260-270 | items styled only at position 0 hold exactly one styled item |
| Boxes.MenuSeparators | boxes.go:251-281 | a menu of n links lays out n - 1 separators and one styled link |
| JQuery.Wrap | jquery.go:4-10 | wrapping text in an opening and closing part can be undone |
| JQuery.Fn | jquery.go:4-6 | the source is recovered from between "function() { " and " }" |
| JQuery.Quote | jquery.go:8-10 | two characters longer, and the text is recovered from between the two double quotes |
| JQuery.QuoteInjective | jquery.go:8-10 | different texts quote differently |
| JQuery.Method | jquery.go:18-20 | the snippet is a call of that method on that tag, and the raw argument is recovered from it |
| JQuery.MethodString | jquery.go:23-25 | a method call whose recovered argument is the quoted value |
| JQuery.Event | jquery.go:13-15 | the same as a method call named after the event with `fn(source)` as argument |
| JQuery.OnDocumentReady | jquery.go:28-30 | `fn(source)` is recovered from between "$(document).ready(" and ");" |
| JQuery.Alert | jquery.go:33-35 | the quoted message is recovered from between "alert(" and ");" |
| JQuery.OnClick | jquery.go:38-40 | a "click" call on the tag whose argument is `fn(source)` |
| JQuery.SetText | jquery.go:42-44 | a "text" call on the tag whose argument is the quoted text |
| JQuery.SetHTML | jquery.go:46-48 | an "html" call on the tag whose argument is the raw HTML expression |
| JQuery.SetValue | jquery.go:50-52 | a "val" call on the tag whose argument is the quoted value |
| JQuery.SetRawValue | jquery.go:54-56 | a "val" call on the tag whose argument is the raw expression |
| JQuery.Hide | jquery.go:58-60 | the same as a "hide" method call with an empty argument |
| JQuery.HideAnimated | jquery.go:62-64 | the same as a "hide" method call with argument 'fast' |
| JQuery.Show | jquery.go:66-68 | the same as a "show" method call with an empty argument |
| JQuery.ShowAnimated | jquery.go:70-72 | the same as a "show" method call with argument 'fast' |
| JQuery.ShowInline | jquery.go:75-77 | the same as a "css" method call with argument 'display', 'inline' |
| JQuery.ShowInlineAnimated | jquery.go:80-82 | three method calls in order: css display inline, hide, show 'fast' |
| JQuery.Load | jquery.go:84-86 | a "load" call on the tag whose argument is the quoted URL |
| JQuery.HideIfNot | jquery.go:89-91 | `Hide(tag)` is recovered from between the `$.get` of the URL with its "data != 1" test and the closing text |
| JQuery.RenderThreeTests | jquery.go:94-113 | three flag tests render as their three texts, in order |
| JQuery.RenderTestText | jquery.go:97-110 | the tests on positions 0, 1 and 2 render as the literal `if (data[i] == / != "1")` guards |
| JQuery.FlagCallbackText | jquery.go:94-113 | the `$.get` callback of three tests is the literal text the two emitters build |
| JQuery.HideIfNotLoginLogoutRegister | jquery.go:94-102 | a `$.get` callback testing data[0], data[1], data[2] for not "1", in that order, against Hide of the login, logout and register tags |
| JQuery.ShowIfLoginLogoutRegister | jquery.go:105-113 | a `$.get` callback testing data[0], data[1], data[2] for "1", in that order, against ShowInline of the login, logout and register tags |
| JQuery.RunThree | jquery.go:94-113 | three flag tests run their actions in order, each exactly when its test holds |
| JQuery.BodyJS | jquery.go:117-122 | empty exactly when the source is empty; otherwise `OnDocumentReady(source)` is recovered from between the script tags |

## Left out

- Network and pooling in `simpleredis.go`: connections, `RedisList` and
  `RedisKeyValue` are left out because the account code does not use them.
  Store errors are also left out: `Has` panics on error, so the error
  branches that read it as "no such user" cannot be taken. The error branch
  of `GetAll` in the confirm and scan code is likewise not modelled.
- Concurrency: one request at a time. The check-then-act races between
  concurrent registrations, and between the secret scan and its store, are
  out of scope.
- `InitUserSystem` and `ServeUserSystem`: the cookie-secret generation,
  random seeding, the wiring of Redis structures, and route registration are
  process setup and dispatch, not logic.
- The users-listing and get-cookie handlers (`GenerateGetAllUsernames`,
  `GenerateGetCookie`): they only format the `SMEMBERS` reply or the cookie
  into a page.
- Collaborators whose code is not part of this model:
  - `ConfirmationEmail` is represented by the `Mail` value it is given.
  - `RandomHumanFriendlyString` is the `draw` oracle. Its character
    alphabet is not modelled, only the length.
  - `RandomCookieFriendlyString` is not modelled.
  - `MessageOKurl` and `MessageOKback` are represented by outcome
    constructors. The HTML text and redirect targets are left out.
  - Cookie signing and the one-hour expiry are not modelled.
- The HTML/CSS tag building in `boxes.go` (styles, attributes, fonts,
  rounded boxes) and the other boxes (`AddTopBox`, `AddFooter`, `AddContent`,
  `AddSearchBox`): only the split and menu-item logic is modelled.
- UTF-8 decoding: usernames are sequences of Unicode code points, as Go's
  `range` over a string yields them. Invalid UTF-8 is not modelled.
- UserState.TruthValue: only "true" is read as true; TruthValue is defined
  outside the modelled files, and no other string is ever stored.
