# Game recommender: a verified model of the server routes and preference logic

This project models in Dafny the core of a Next.js game recommender. Users register and log
in, rate games in half stars, and keep a note per game. The server asks a language model for
recommendations from those ratings and caches the answer for a day.

The model covers these parts:

- **Bearer guard** (`Bearer`). Every user route shares it. The header must start with
  `Bearer `, and the remainder is the token that is handed to the verifier.
- **Recommendations route** (`RecommendationsRoute`). A POST passes a chain of guards: the
  API key, the token, the stored preferences, a JSON body, and at least one rated game. Then
  comes the 24-hour cache gate. A fresh cache is served without calling the generator. A
  stale one runs the generator once and writes the whole record back.
- **Rating route** (`RateRoute`). The bearer guard, then JavaScript's half-star test
  `(rating * 2) % 1 !== 0` with its truncating remainder. Then the rated-game record is built
  and the store's answer is mapped to 404 or 200.
- **Prompt builder** (`GeminiApi`). Rated titles are grouped by rating. One labelled line is
  written per rating present, from 5 down to 0.5. The count defaults to 5. The model's reply
  has three outcomes: a parsed reply, an undefined text, or an error.
- **Browser store** (`LocalStorage`). The legacy liked and disliked lists live in one
  storage slot. Three operations move a game between them or drop it. A write that throws
  is swallowed, and a stored value of another JSON shape makes the operations throw.
- **Client preference state** (`PreferencesContext`). Covers the rating lookup and the
  `parseInt` rule that sends title-like game ids through a title lookup. It also covers the
  rule that every edit and every sync applies: use the server's answer when the server
  accepts, else fall back to the local result.
- **Server database** (`Kv`, `Database`). A key-value store holds the user records, the
  email index and the preference records. The module covers creation, lookup, update,
  deletion, statistics and listing.
- **Notes route** (`NotesRoute`). One note slot per user and game.
- **In-memory accounts** (`Auth`, `RegisterRoute`, `LoginRoute`). The email and password
  validators, the user list, and the register and login handlers.
- **Admin route** (`AdminRoute`). Its shared-secret check strips the first `Bearer ` found
  anywhere in the header.

Route handlers that only compute a reply are functions. They report the side effects they
ask for in their result: the store call made, how often the generator ran, and the write
issued. Handlers that change stored state are methods on a class:

- the key-value store `Kv.KvStore`;
- the user list `Auth.UserTable`;
- the browser slot `LocalStorage.Browser`;
- the client provider `PreferencesContext.Provider`.

Each such method states its whole new state in terms of specification functions, and lemmas
prove the listed properties of those functions.

Some things are inputs rather than behaviour:

- **Clocks.** Integer milliseconds, or an ISO string passed in.
- **Random ids.** Passed in.
- **bcrypt hashing and comparison, and JWT signing and verification.** Function parameters.
- **The language-model call and `JSON.parse`.** Function parameters.
- **Server replies and title lookups on the client.** Passed in as values.

Several functions are imported by the modelled files but defined in files that are not part
of this model:

- `rateGameForUser`;
- the `getUserPreferences` and `updateUserPreferences` imported from `@/utils/auth` by the
  recommendations route (src/utils/auth.ts defines neither);
- the local `rateGame` and `removeGameRating`.

These enter as function parameters. So does the result of the local load used by
`syncPreferences`.

Two behaviours of the code are easy to miss:

1. **The local load returns the legacy shape.** `loadUserPreferences` in
   src/utils/localStorage.ts returns `{ likedGames, dislikedGames }`, yet the provider stores
   its result as the rated-games record. The model therefore takes the provider's local
   result as a parameter.
2. **An empty cache is never served.** A generation that produced no recommendations is
   still written with a new refresh time. The next request generates again, because the
   gate requires a non-empty cache (lemma `RecommendationsRoute.FailureStaysStale`).

## Model

| member | source | states |
|---|---|---|
| Common.Utf16Length | src/utils/auth.ts:37 | JavaScript `length` counts UTF-16 code units: between one and two per character, and exactly one when no character is above U+FFFF |
| Common.IntToDecimal | src/contexts/PreferencesContext.tsx:123 | `n.toString()` for an integer: an optional minus sign, then decimal digits with no leading zero |
| Common.DecimalRoundTrip | src/app/api/user/notes/route.ts:97 | reading the decimal text of a number back gives the number |
| Common.IndexFrom | src/app/api/admin/database/route.ts:11 | the first position at or after a start where the pattern occurs, with no earlier occurrence; None exactly when there is none |
| Common.RemoveFirst | src/app/api/admin/database/route.ts:11 | a string-pattern `replace` with "" deletes one occurrence, the first; without one the string is unchanged |
| Bearer.TokenOf | src/app/api/recommendations/route.ts:20-31 | a token exists iff the header starts with `Bearer `, and the header is then the scheme followed by the token |
| Bearer.Authenticate | src/app/api/recommendations/route.ts:20-44 | a user id results iff there is a token and the verifier accepts it, and it is the verifier's answer |
| Bearer.ClientHeaderAccepted | src/contexts/PreferencesContext.tsx:36-47 | the header the client builds yields its token back, and authentication gives exactly the verifier's answer |
| RecommendationsRoute.HoursElapsedTest | src/app/api/recommendations/route.ts:91-93 | comparing the elapsed hours with 24 is the same as comparing the elapsed milliseconds with one day |
| RecommendationsRoute.Post | src/app/api/recommendations/route.ts:9-123 | 500 without an API key; 401 paths touch nothing; the store is read iff key and token pass; 404 without a stored record and 400 for a body that is not JSON, both before the generator and with no write; 400 without rated games; a fresh cache is served without the generator; otherwise the generator runs once, its recommendations are returned and the refreshed record is written, or its error becomes a 500 with no write; at most one generator call |
| RecommendationsRoute.GateIgnoresRequest | src/app/api/recommendations/route.ts:84-98 | the cache decision depends on the stored record and not on the request: two requests with rated games get the same number of generator calls, and the same outcome when the cache is used |
| RecommendationsRoute.WriteAnswerIgnored | src/app/api/recommendations/route.ts:103-113 | the outcome does not depend on what the preference write answers |
| RecommendationsRoute.RefreshServesCacheForADay | src/app/api/recommendations/route.ts:84-113 | after a generation that produced recommendations and its write, any request within the next 24 hours is served the same recommendations from the cache, with no generator call and no write |
| RecommendationsRoute.FailureStaysStale | src/app/api/recommendations/route.ts:84-123 | a failed generation writes nothing and the next request generates again; a generation that produced nothing is written but not served, so the next request also generates |
| RateRoute.JsRemainderOne | src/app/api/user/games/rate/route.ts:37 | `x % 1` in JavaScript: in [0, 1) for non-negative `x`, in (-1, 0] for negative `x`, and 0 exactly when `x` is an integer |
| RateRoute.HalfStarIsStep | src/app/api/user/games/rate/route.ts:36-42 | every accepted rating is `k / 2` for an integer `k` from 0 to 10 |
| RateRoute.EveryStepIsHalfStar | src/app/api/user/games/rate/route.ts:36-42 | every `k / 2` with `k` from 0 to 10 is accepted, the converse of the previous row |
| RateRoute.HalfStarExamples | src/app/api/user/games/rate/route.ts:36-42 | 0, 0.5 and 5 pass; 0.25, 5.5 and -0.5 fail |
| RateRoute.RequestRatingOverrides | src/app/api/user/games/rate/route.ts:44-49 | the stored record carries the request's rating and the current time whatever stale rating fields the posted game had, and the game itself unchanged |
| RateRoute.Post | src/app/api/user/games/rate/route.ts:7-69 | 401 without a valid token and no store call; 500 iff the body is not JSON; 400 iff the game or rating is missing or the rating is not a half star; otherwise exactly one store call with the user and the rated game, 404 when the store finds no user, else 200 with the store's preferences |
| RateRoute.RatingVerdicts | src/app/api/user/games/rate/route.ts:36-57 | an authenticated rating of 0.5 reaches the store; 0.25, 5.5 and -0.5 get 400 |
| GeminiApi.ListedLabelsFixed | src/utils/geminiApi.ts:41-55 | the ten listed ratings have distinct labels that never depend on number formatting |
| GeminiApi.GroupPlacement | src/utils/geminiApi.ts:32-36 | every title is in the group of its own rating, and every group belongs to a rating that occurs |
| GeminiApi.GroupsSnoc | src/utils/geminiApi.ts:32-36 | one more game appends its title to its rating's group, creating the group when needed, and changes no other group |
| GeminiApi.TitlesRatedAppend | src/utils/geminiApi.ts:32-36 | the titles rated `r` in a concatenation are those of the first part followed by those of the second |
| GeminiApi.GroupByRating | src/utils/geminiApi.ts:32-36 | the `reduce` loop builds exactly the grouping function |
| GeminiApi.DescribedRatings | src/utils/geminiApi.ts:60-64 | the ratings that get a line all have titles and are among the listed ratings |
| GeminiApi.LinesOfDescribed | src/utils/geminiApi.ts:60-64 | line `k` is the label and joined titles of the `k`-th rating with titles |
| GeminiApi.DescribedComplete | src/utils/geminiApi.ts:60-64 | every listed rating that has titles gets a line |
| GeminiApi.DescribedDescending | src/utils/geminiApi.ts:58-64 | when the listed ratings descend, so do the ratings of the lines |
| GeminiApi.DescriptionLinesAgree | src/utils/geminiApi.ts:58-64 | groups that agree on the listed ratings give the same lines |
| GeminiApi.Describe | src/utils/geminiApi.ts:58-64 | the `for` loop pushes exactly the description lines of the ten listed ratings |
| GeminiApi.UnlistedRatingSilent | src/utils/geminiApi.ts:58-69 | a game whose rating is not listed (0, say) leaves the prompt text unchanged |
| GeminiApi.LinesDescend | src/utils/geminiApi.ts:32-69 | the lines appear in strictly descending rating order, one per listed rating that has games, each being that rating's label and titles |
| GeminiApi.CountOrDefault | src/utils/geminiApi.ts:69 | a missing count and a count of 0 both become 5; any other count is kept |
| GeminiApi.ReadReply | src/utils/geminiApi.ts:110-128 | parsed text yields its recommendations; text that does not parse yields the invalid-JSON message wrapped around the parser's message; undefined text yields the invalid-JSON message wrapped around the undefined-text message; a model error passes its message through |
| GeminiApi.GenerateRecommendations | src/utils/geminiApi.ts:26-128 | an empty key fails before any prompt; missing rated games fail with the engine's error; otherwise the prompt carries the defaulted count and the grouped lines, and the result is the reply reading of the model's answer |
| LocalStorage.WithoutId | src/utils/localStorage.ts:48 | filtering by id keeps exactly the games with another id, leaves none with that id, and changes nothing when the id is absent |
| LocalStorage.WithoutIdAppend | src/utils/localStorage.ts:48 | filtering distributes over concatenation, so it keeps the order |
| LocalStorage.AddLiked | src/utils/localStorage.ts:43-70 | afterwards the game is liked and not disliked; it is appended only when absent; the disliked list is filtered; a save happens iff either list changed |
| LocalStorage.AddDisliked | src/utils/localStorage.ts:75-102 | the mirror image: disliked and not liked afterwards, appended when absent, saved iff something changed |
| LocalStorage.Remove | src/utils/localStorage.ts:107-117 | both lists lose exactly the games with that id, and the result is always saved |
| LocalStorage.AddLikedIdempotent | src/utils/localStorage.ts:43-70 | liking twice equals liking once, and the second call saves nothing |
| LocalStorage.AddDislikedIdempotent | src/utils/localStorage.ts:75-102 | disliking twice equals disliking once, and the second call saves nothing |
| LocalStorage.RemoveIdempotent | src/utils/localStorage.ts:107-117 | removing twice equals removing once |
| LocalStorage.WithoutIdKeepsUnique | src/utils/localStorage.ts:48 | filtering keeps a duplicate-free list duplicate-free |
| LocalStorage.DisjointFromFiltered | src/utils/localStorage.ts:48 | filtering one of two id-disjoint lists keeps them disjoint |
| LocalStorage.AppendFresh | src/utils/localStorage.ts:49-52 | appending a game with a new id keeps the list duplicate-free and disjoint from a list without that id |
| LocalStorage.OperationsKeepConsistent | src/utils/localStorage.ts:43-117 | all three operations keep both lists duplicate-free and no game both liked and disliked |
| LocalStorage.Browser.Load | src/utils/localStorage.ts:8-23 | the empty lists on the server side, or when nothing or unparseable text is stored; the stored record when it has the legacy shape; no record (the callers' TypeError) exactly when a browser slot holds JSON of another shape |
| LocalStorage.Browser.Save | src/utils/localStorage.ts:28-38 | in a browser whose write succeeds the slot holds the record afterwards and loading gives it back; on the server, or when the write throws and the error is swallowed, the slot keeps its old value |
| LocalStorage.Browser.AddLikedGame | src/utils/localStorage.ts:43-70 | on a stored value of another shape it fails (a TypeError) before any save; otherwise returns the like of the loaded record, and overwrites the slot exactly when that like saves, in a browser, and the write succeeds |
| LocalStorage.Browser.AddDislikedGame | src/utils/localStorage.ts:75-102 | on a stored value of another shape it fails before any save; otherwise returns the dislike of the loaded record, and overwrites the slot exactly when that dislike saves, in a browser, and the write succeeds |
| LocalStorage.Browser.RemoveGame | src/utils/localStorage.ts:107-117 | on a stored value of another shape it fails before the save; otherwise returns the removal from the loaded record and writes it whenever in a browser whose write succeeds |
| PreferencesContext.RatingOf | src/contexts/PreferencesContext.tsx:197-200 | the rating of the first entry with that id, or 0 when there is none |
| PreferencesContext.RatingOfIgnoresLaterEntries | src/contexts/PreferencesContext.tsx:197-200 | entries appended after one with the id never change its reported rating |
| PreferencesContext.TrimStart | src/contexts/PreferencesContext.tsx:115 | `parseInt` skips exactly the leading white space: what is dropped is white space, and what remains starts otherwise |
| PreferencesContext.ParseIntIsNaN | src/contexts/PreferencesContext.tsx:115 | a decimal digit after the white space (not a `0x` prefix) gives a number; a string of only white space gives NaN |
| PreferencesContext.NumericPrefixExample | src/contexts/PreferencesContext.tsx:115 | "42-x" parses, because a numeric prefix is enough |
| PreferencesContext.SignedExample | src/contexts/PreferencesContext.tsx:115 | " -7" parses, since white space and a sign are skipped |
| PreferencesContext.HexExamples | src/contexts/PreferencesContext.tsx:115 | "0xff" parses and "0x" does not |
| PreferencesContext.TitleIdExample | src/contexts/PreferencesContext.tsx:115 | a title-like id such as "witcher-3" is NaN and is looked up |
| PreferencesContext.ResolveGame | src/contexts/PreferencesContext.tsx:113-132 | the title lookup runs iff the id does not parse; only the id may change, and it changes iff the lookup found a non-zero id, which then becomes its decimal text |
| PreferencesContext.IntToDecimalIsNumeric | src/contexts/PreferencesContext.tsx:115-123 | the text of an integer always parses |
| PreferencesContext.ResolveIdempotent | src/contexts/PreferencesContext.tsx:113-132 | a game whose id was replaced is not looked up again, whatever the lookup would say |
| PreferencesContext.Settle | src/contexts/PreferencesContext.tsx:50-77 | the state becomes the local result or the server's accepted preferences, and the server's only when signed in and accepted |
| PreferencesContext.SettleFallback | src/contexts/PreferencesContext.tsx:134-163 | signed out, the server never matters; signed in, the server's preferences are kept iff `ok`, `success` and preferences are all present |
| PreferencesContext.SaveToServer | src/contexts/PreferencesContext.tsx:80-102 | a PUT is sent iff signed in; the local save happens iff not signed in, or the PUT threw or got a non-ok status, and it saves the new record |
| PreferencesContext.SaveNeverDropped | src/contexts/PreferencesContext.tsx:80-102 | the edit reaches the server or the local copy; the save looks at the status only, unlike an edit's reply |
| PreferencesContext.Provider.RateGame | src/contexts/PreferencesContext.tsx:112-163 | the rated game is the resolution of the lookup; the server is asked iff signed in; the local operation runs iff the server did not accept; the new state is the settled one |
| PreferencesContext.Provider.RemoveGameFromLists | src/contexts/PreferencesContext.tsx:165-195 | the server is asked iff signed in; the local removal runs iff the server did not accept; the new state is the settled one |
| PreferencesContext.Provider.SyncPreferences | src/contexts/PreferencesContext.tsx:50-77 | the server is fetched iff signed in; the new state is the server's accepted preferences, or the local copy |
| PreferencesContext.Provider.constructor | src/contexts/PreferencesContext.tsx:30-32 | the state starts with no rated games |
| Kv.KvStore.Set | src/utils/database.ts:27-31 | succeeds iff the store is reachable, and then only that key changes |
| Kv.KvStore.Del | src/utils/database.ts:128-132 | succeeds iff the store is reachable, and then only that key is removed |
| Database.KeyScheme | src/utils/database.ts:6-9 | the three key families never collide, each is injective, and only user keys carry the `user:` prefix (the email index starts `user_`) |
| Database.CreateUser | src/utils/database.ts:12-34 | offline, nothing changes and the result is None; online, the record, the email index and empty preferences are written, and the user without its password is returned |
| Database.StoredAt | src/utils/database.ts:53-54 | a record is found iff a user value is stored under `user:<id>` |
| Database.FindUserByEmail | src/utils/database.ts:36-49 | a result requires a reachable store and a non-empty indexed id, and is then the record under that id |
| Database.FindUserById | src/utils/database.ts:51-63 | a result exists iff the store is reachable and holds the record, and it omits the password |
| Database.GetUserPreferences | src/utils/database.ts:66-89 | null iff the store fails; the stored record when there is one, else empty preferences |
| Database.UpdateUserPreferences | src/utils/database.ts:91-99 | online, the whole record is overwritten and returned; offline, nothing changes and the result is null |
| Database.UpdateThenGet | src/utils/database.ts:66-99 | a written record is what the next read returns |
| Database.DeleteUser | src/utils/database.ts:122-139 | true iff the store is reachable and the record exists; then the record, its email index and its preferences are removed; otherwise nothing changes |
| Database.CreateThenFind | src/utils/database.ts:12-63 | a created user is found by id without its password, found by email, and has empty preferences |
| Database.DeleteLeavesOthers | src/utils/database.ts:122-139 | deleting a user leaves every other user's record, preferences and email index as they were; the user itself is gone and reads empty preferences |
| Database.GetDatabaseStats | src/utils/database.ts:142-158 | the numbers of `user:` keys and `preferences:` keys, or zeros when the store fails |
| Database.StatsAfterCreate | src/utils/database.ts:12-34 | creating a user with a fresh id adds one to both counts; its email index entry is not counted |
| Database.ListsStep | src/utils/database.ts:107-113 | reading one more `user:` key appends its user exactly when it holds a user record |
| Database.ListsAll | src/utils/database.ts:102-120 | once every `user:` key is read, the list has one entry per user record and holds exactly the stored users |
| Database.GetAllUsers | src/utils/database.ts:102-120 | empty when the store fails; otherwise one entry per user record, and exactly the stored users without their passwords |
| NotesRoute.NoteKeyInjective | src/app/api/user/notes/route.ts:49 | for user ids without ':' the note key determines the user and the game |
| NotesRoute.NoteKeysApart | src/app/api/user/notes/route.ts:49 | note keys never collide with user, email-index or preference keys |
| NotesRoute.NoteAt | src/app/api/user/notes/route.ts:48-55 | a note is read iff a note value is stored under the key |
| NotesRoute.Get | src/app/api/user/notes/route.ts:17-63 | 401 without a token or with an invalid one; 400 without a truthy game id; 500 when the store fails; otherwise 200 with the note of the token's user and that game, or null |
| NotesRoute.NoteFor | src/app/api/user/notes/route.ts:96-106 | the note carries the user, the game and the text, and was created and updated at the same moment |
| NotesRoute.Post | src/app/api/user/notes/route.ts:66-123 | 401 and 500 (body not JSON) change nothing; 400 unless the game id is truthy and the note is a string, including the empty one; otherwise the user's slot for that game is overwritten and the note returned, or 500 when the store fails |
| NotesRoute.GetAfterPost | src/app/api/user/notes/route.ts:17-115 | a GET after a POST by the same user for the same game returns the posted note, and every other user's or game's slot reads as before |
| Auth.ValidateEmail | src/utils/auth.ts:31-34 | an accepted email is at least five characters long |
| Auth.ValidateEmailIsPattern | src/utils/auth.ts:31-34 | the validator accepts exactly the strings of the pattern: a run, '@', a run, '.', a run, with no white space or second '@' |
| Auth.EmailExamples | src/utils/auth.ts:31-34 | "a@b.co" is accepted; "a@b.", "@b.co", "a@.co" and "a@b@c.d" are rejected |
| Auth.RejectedEmails | src/utils/auth.ts:31-34 | "a@b.", "@b.co", "a@.co" and "a@b@c.d" are rejected |
| Auth.NoTopLevelDomain | src/utils/auth.ts:32 | "a@b." is rejected: nothing follows the final '.' |
| Auth.NoLocalPart | src/utils/auth.ts:32 | "@b.co" is rejected: nothing precedes the '@' |
| Auth.NoHost | src/utils/auth.ts:32 | "a@.co" is rejected: nothing lies between the '@' and the '.' |
| Auth.TwoAts | src/utils/auth.ts:32 | "a@b@c.d" is rejected: a second '@' is not allowed |
| Auth.ValidatePassword | src/utils/auth.ts:36-50 | valid iff at least 8 UTF-16 units with a lower-case letter, an upper-case letter and a digit; otherwise the message of the first failing check |
| Auth.PasswordExamples | src/utils/auth.ts:36-50 | "Passw0rd" is valid; "password1" lacks an upper-case letter; "Pa1" is too short |
| Auth.UserTable.CreateUser | src/utils/auth.ts:53-69 | one record, with the hashed password, is appended; the result is the new user without it |
| Auth.FindUserByEmail | src/utils/auth.ts:71-73 | null iff no record has the email, else the first that has it |
| Auth.FindUserById | src/utils/auth.ts:75-82 | null iff no record has the id, else the first that has it, without its password |
| Auth.FindFirst | src/utils/auth.ts:72-76 | `find` on the user list by email or id: none iff no record has the value, else the first record that has it |
| Auth.FindFirstAfterAppend | src/utils/auth.ts:53-82 | after an append, a value no record had finds the new record, and one already present still finds the earlier record |
| Auth.FindAfterAppend | src/utils/auth.ts:53-82 | the same for the two finders, the id finder giving the user without its password |
| RegisterRoute.Decide | src/app/api/auth/register/route.ts:11-60 | the checks in order, the first failure deciding: missing field, short username, email format, password strength with the validator's message, confirmation mismatch, then 409 for an existing email; admission iff all pass |
| RegisterRoute.FormatBeforeUniqueness | src/app/api/auth/register/route.ts:11-60 | a malformed body gets the same 400 whatever the user list holds |
| RegisterRoute.WeakPasswordMessage | src/app/api/auth/register/route.ts:35-42 | a weak password is refused with one of the validator's four failure messages |
| RegisterRoute.Register | src/app/api/auth/register/route.ts:5-87 | 500 for a body that is not JSON; refusals carry the decision's status and message and leave the list unchanged; success appends the account and answers 201 with the user and a token signed for its id |
| RegisterRoute.RegisterTwiceConflicts | src/app/api/auth/register/route.ts:52-79 | registering the same email again after a success gets 409 |
| LoginRoute.Login | src/app/api/auth/login/route.ts:7-68 | 500 for a body that is not JSON; 400 for missing fields or a bad email; 401 iff the email is unknown or the password does not match; 200 for a well-formed body whose user exists and whose password matches; 200 iff success, with the user without its password and a token for its id |
| LoginRoute.UnknownEmailLooksLikeWrongPassword | src/app/api/auth/login/route.ts:27-45 | an unknown email never consults the comparison and gets the same reply as a wrong password |
| LoginRoute.RegisteredCanLogIn | src/app/api/auth/login/route.ts:27-60 | a newly appended account logs in with a matching password and receives its own id's token |
| AdminRoute.AdminSecret | src/app/api/admin/database/route.ts:5 | the environment's secret when it is set and non-empty, else the non-empty default |
| AdminRoute.BearerSecretAccepted | src/app/api/admin/database/route.ts:7-13 | the header `Bearer <secret>` is accepted |
| AdminRoute.BareSecretAccepted | src/app/api/admin/database/route.ts:7-13 | the bare secret is accepted too, when "Bearer " does not occur in it |
| Common.RemoveFirstSplit | src/app/api/admin/database/route.ts:11 | when the pattern does not occur before the occurrence that follows a prefix, removing the first occurrence leaves the prefix followed by the rest |
| AdminRoute.InfixSchemeRemoved | src/app/api/admin/database/route.ts:11 | the scheme is removed wherever it first occurs, even in the middle |
| AdminRoute.Get | src/app/api/admin/database/route.ts:15-42 | 401 without reading the store; the store is read iff authenticated and the action is `stats` or `users`; `stats` gives the statistics; `users` gives the listing; any other action gives 400 |
| AdminRoute.Delete | src/app/api/admin/database/route.ts:44-68 | 401 and 400 (no truthy user id) change nothing; otherwise 200 and the user's three keys removed when the store is reachable and the user exists, else 404 and nothing changed |

## Left out

- Concurrency is not modelled. Every handler runs alone, and the in-memory user list and the key-value store see no interleaving.
- NaN, infinities and negative zero are not modelled. Ratings, counts and scores are exact reals.
- The fixed text of the language-model prompt is not modelled. Only its two variable parts are: the count and the rated-games text.
- The model call and `JSON.parse` are opaque parameters. So are the JWT signing and verification and the bcrypt hashing and comparison. A bcrypt comparison that throws (a 500 in the login route) is not modelled.
- The Date objects of getUserPreferences are not modelled. Times are milliseconds, so the conversion changes nothing, and the cache-normalising step changes nothing either.
- Store failures are one flag for the whole store, `online`, that does not change during a call. A store that fails between two writes of `createUser` or `deleteUser` is not modelled.
- A key that holds a value of the wrong kind reads as missing.
- A JSON field of the wrong type reads as missing. This applies to the body fields and to `note`.
- JavaScript object keys are strings. Grouping titles by rating therefore stores them under the rating's string form. The model groups by the number itself, which is the same except for NaN and negative zero.
- GeminiApi.GenerateRecommendations: a missing `ratedGames` makes the engine throw a TypeError. The model takes that error's text from the V8 engine.
- PreferencesContext: the `isLoading` flag, the React effect that triggers synchronisation, and the logging are not modelled.
- PreferencesContext.Provider.GetGameRating (`handleGetGameRating`) has no contract of its own; it returns `PreferencesContext.RatingOf` of the current state.
- `savePreferencesToServer` is defined in src/contexts/PreferencesContext.tsx but never called there. It is modelled as a function of its inputs (`SaveToServer`).
- The title lookup `getGameIdByTitle` and the network fetches are inputs. Their implementations are not part of this model.
- These functions appear only as function parameters, since their files are not part of this model: `rateGameForUser`, the local `rateGame` and `removeGameRating`, and the preference read and write of the recommendations route.
- NotesRoute.Post: the note id is built from the user id, the game id and the millisecond clock. The clock's ISO string and its millisecond count are two independent inputs.
- Logging with `console.log` and `console.error` is not modelled.
- A preference read or write of the recommendations route that throws (a 500) is not modelled. The same holds for a `rateGameForUser` that throws: these parameters always answer.
- RateRoute.Post: `rateGameForUser` answers a record or `null`. An `undefined` answer, which the strict `=== null` test would let through as 200, is not modelled.
- LocalStorage.Browser: a stored record's array elements are taken to be game records. An element that is `null` or not an object, which would make the id tests throw, is not modelled.
- LocalStorage.Browser: extra fields of a stored record are not modelled. The unchanged record returned by a like or dislike that saves nothing would still carry them.
- Auth.UserTable.CreateUser: hashing is a deterministic function of the password, not bcrypt's salted hash. No contract compares two hash values, so the salt changes nothing proved here.
