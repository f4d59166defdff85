# Shopping app screens: registration, profile editing, product search

A Dafny model of the logic inside three React Native screens of a small
shopping app:

- **Registration** (`lab8/Account/Register/index.js`): an email pattern that
  accepts only Gmail addresses, a minimum password length of 8, an age in
  whole years computed from a birth date, and `handleRegister`. That handler
  runs six checks in a fixed order, reports the first one that fails, and
  otherwise appends one record to the stored `users` list.
- **Profile editor** (`ASM2/BottomTabNavigator/EditProfileScreen.js`): loads
  five profile keys from the device store with defaults. Saving writes them
  back behind a guard that only asks for a non-empty name and email. An
  image pick replaces the avatar.
- **Home feed** (`ASM2/Home/index.js`): the search that filters the current
  product list by a case-insensitive substring, and the carousel index that
  steps through five banners.

Files, one module each:

- `wrappers.dfy`: `Option`.
- `calendar.dfy`: a date as a (year, month, day) triple, ordered chronologically.
- `storage.dfy`: the shared key-value store (AsyncStorage). It is a class
  whose `entries` field is a `map<string, Value>`, with `GetItem` and `SetItem`.
- `register.dfy`, `edit_profile.dfy`, `home.dfy`: the three screens.

Each screen's state changes are methods of a class, or of the store, and each
method is proved equal to a pure function of the old state. The properties the
source promises are proved as lemmas about those functions. The clock ("today",
"now") and the image picker's answer are parameters.

Two behaviours of the code shape the model:

- `handleSave` writes `avatar` only when it is a non-empty locator
  (`ASM2/BottomTabNavigator/EditProfileScreen.js:75`). So `SaveThenLoad`
  returns the previously stored avatar when the saved profile has none.
- Besides its six validation failures, `handleRegister` has a seventh path
  (`lab8/Account/Register/index.js:62-78`): a stored `users` entry that does
  not parse, or parses to a truthy value without a `some` method, ends in the
  generic "Something went wrong." alert. It is `StorageFailure`, ranked after
  the age check and before the duplicate check, because that is where the
  parse happens. A falsy JSON literal (`null`, `false`, `0`, `-0`, `""`) reads
  as the empty list through `|| []`, like a missing entry.

## Model

| member | source | states |
|---|---|---|
| `Register.MatchLocalTailShape` | lab8/Account/Register/index.js:17 | the tail `[a-zA-Z0-9._%+-]*@gmail\.com$` matches exactly the strings that end in `@gmail.com` and hold only class characters before it |
| `Register.ValidateEmailCorrect` | lab8/Account/Register/index.js:16-19 | `validateEmail` accepts an address iff it is longer than `@gmail.com`, ends in exactly `@gmail.com`, and every character before that is in `[a-zA-Z0-9._%+-]` |
| `Register.GmailAddressForm` | lab8/Account/Register/index.js:16-19 | `L + "@gmail.com"` is accepted iff L is non-empty and every character of L is in the class |
| `Register.EmailExamples` | lab8/Account/Register/index.js:16-19 | `a@gmail.com` is accepted; `@gmail.com`, `a@yahoo.com`, `a@Gmail.com` and `a@b@gmail.com` are rejected |
| `Register.ValidateEmail` | lab8/Account/Register/index.js:16-19 | the pattern test itself; its meaning is stated by `ValidateEmailCorrect` and `GmailAddressForm` |
| `Register.ValidatePassword` | lab8/Account/Register/index.js:21-23 | the length test itself; its meaning is stated by `PasswordLengthOnly` |
| `Register.PasswordLengthOnly` | lab8/Account/Register/index.js:21-23 | `validatePassword` holds iff the length is at least 8; two passwords of equal length get the same verdict whatever their characters |
| `Register.CalculateAge` | lab8/Account/Register/index.js:25-34 | the age is the number of whole years elapsed: the birthday of that age is not after today and the next birthday is after today |
| `Register.AgeUnique` | lab8/Account/Register/index.js:25-34 | no other number of years meets those two bounds, so they determine the age |
| `Register.ReachedAge` | lab8/Account/Register/index.js:25-34 | the age is at least n iff the n-th birthday is not after today |
| `Register.AgeNonNegative` | lab8/Account/Register/index.js:25-34 | a birth date that is not after today gives an age of at least 0 |
| `Register.AgeAntitone` | lab8/Account/Register/index.js:25-34 | a later birth date never gives a larger age |
| `Register.EighteenthBirthday` | lab8/Account/Register/index.js:25-34 | born exactly 18 years before today gives 18; any later birth date gives less than 18; one day later in the same month gives 17 |
| `Register.SomeHasEmail` | lab8/Account/Register/index.js:64 | `users.some(u => u.email === email)` is true iff some stored record has exactly that email |
| `Register.ExistingUsers` | lab8/Account/Register/index.js:63 | `JSON.parse` of the stored text, defaulted to `[]`: a missing entry or a falsy literal gives the empty list, a stored list gives itself, anything else fails; stated by `FalsyStoredUsersReadAsEmpty` and the `StorageFailure` case of `DecideReportsFirstViolation` |
| `Register.NewUser` | lab8/Account/Register/index.js:69 | the record built from the form (no confirmation field); `RegistrationAppendsOne` states that it is the last entry of the new list and `RegisteringTwiceIsDuplicate` that its email blocks a second registration |
| `Register.Decide` | lab8/Account/Register/index.js:37-67 | the chain of checks with early returns; its meaning is stated by `DecideReportsFirstViolation` and `DecideAcceptsIffNoViolation` |
| `Register.Register` | lab8/Account/Register/index.js:36-72 | a rejected registration leaves every store entry unchanged; an accepted one rewrites only `users`, as the old list (missing = empty) with the new record appended |
| `Register.HandleRegister` | lab8/Account/Register/index.js:36-79 | the imperative handler (early returns, one read of `users`, one write) returns the outcome and leaves the store exactly as `Register` says |
| `Register.DecideReportsFirstViolation` | lab8/Account/Register/index.js:37-67 | a check is reported iff its reference condition is violated and every earlier check in the order (missing field, email format, password length, mismatch, age, unreadable list, duplicate) passes |
| `Register.DecideAcceptsIffNoViolation` | lab8/Account/Register/index.js:37-72 | the form is accepted iff none of the seven conditions is violated |
| `Register.RegistrationAppendsOne` | lab8/Account/Register/index.js:69-72 | on success the list grows by exactly one, the earlier records keep their order and content, the new record is last, and no other key changes |
| `Register.RegistrationKeepsEmailsDistinct` | lab8/Account/Register/index.js:63-72 | if the stored emails were pairwise distinct before a registration attempt, they still are afterwards |
| `Register.RegisteringTwiceIsDuplicate` | lab8/Account/Register/index.js:63-67 | after a successful registration, any later form with the same email is rejected and leaves the store unchanged; if it passes the five field checks, the rejection is a duplicate email |
| `Register.FalsyStoredUsersReadAsEmpty` | lab8/Account/Register/index.js:63 | a `users` entry holding a falsy JSON literal gives the same verdict as a missing one, and a success then stores a one-record list |
| `Register.AcceptedExample` | lab8/Account/Register/index.js:36-72 | a 19-year-old with `a@gmail.com` and password `12345678` is registered into an empty store, which then holds exactly that one record |
| `Register.YahooExample` | lab8/Account/Register/index.js:42-45 | the same form with `a@yahoo.com` is rejected for its email format and the store stays empty |
| `EditProfile.TextOr` | ASM2/BottomTabNavigator/EditProfileScreen.js:28-30 | a stored non-empty text, otherwise `''`; stated by `LoadDefaults` and `SaveThenLoad` |
| `EditProfile.StoredDateOr` | ASM2/BottomTabNavigator/EditProfileScreen.js:31 | a stored timestamp, otherwise now; stated by `LoadDefaults` and `SaveThenLoad` |
| `EditProfile.StoredAvatar` | ASM2/BottomTabNavigator/EditProfileScreen.js:32 | a stored non-empty locator, otherwise no avatar; stated by `LoadDefaults` and `SaveThenLoad` |
| `EditProfile.LoadedProfile` | ASM2/BottomTabNavigator/EditProfileScreen.js:18-32 | the state after loading; `LoadDefaults` states its defaults, `LoadReadsOnlyProfileKeys` its dependence on the five keys only, `SaveThenLoad` the round trip with a save |
| `EditProfile.LoadDefaults` | ASM2/BottomTabNavigator/EditProfileScreen.js:28-32 | missing keys load as `''` for username, email and gender, as now for the birth date, and as no avatar |
| `EditProfile.LoadReadsOnlyProfileKeys` | ASM2/BottomTabNavigator/EditProfileScreen.js:20-24 | loading depends only on the five profile keys |
| `EditProfile.CanSave` | ASM2/BottomTabNavigator/EditProfileScreen.js:65 | the guard itself; its meaning is stated by `SaveGuardIsLoose` and `HandleSave` |
| `EditProfile.SavedEntries` | ASM2/BottomTabNavigator/EditProfileScreen.js:71-77 | the entries after a save; stated by `SaveThenLoad`, `SaveTouchesOnlyProfileKeys` and `SaveKeepsUsers` |
| `EditProfile.SaveThenLoad` | ASM2/BottomTabNavigator/EditProfileScreen.js:71-77 | a save that passes the guard, followed by a load, gives back the same name, email, gender and birth date; the avatar is the saved one if there was one, else the one stored before |
| `EditProfile.SaveTouchesOnlyProfileKeys` | ASM2/BottomTabNavigator/EditProfileScreen.js:71-77 | a save changes no key outside the five profile keys; without an avatar it leaves `avatar` as it was; with one it stores it verbatim; the key set grows only by the written keys |
| `EditProfile.SaveKeepsUsers` | ASM2/BottomTabNavigator/EditProfileScreen.js:71-77 | the `users` list is the same after a profile save |
| `EditProfile.SaveGuardIsLoose` | ASM2/BottomTabNavigator/EditProfileScreen.js:65-68 | with a non-empty email of any form, the save guard passes iff the name is non-empty, whatever the gender (empty included), birth date or avatar |
| `EditProfile.PickedAvatar` | ASM2/BottomTabNavigator/EditProfileScreen.js:58-60 | the avatar after a pick; its meaning is stated by `PickOutcomes` |
| `EditProfile.PickOutcomes` | ASM2/BottomTabNavigator/EditProfileScreen.js:43-60 | a denied permission, a cancelled pick, or a pick with missing or no assets leaves the avatar unchanged; otherwise the avatar becomes the first asset's locator |
| `EditProfile.EditProfileScreen.constructor` | ASM2/BottomTabNavigator/EditProfileScreen.js:9-13 | the initial state is empty name, email and gender, birth date now, no avatar |
| `EditProfile.EditProfileScreen.LoadUserData` | ASM2/BottomTabNavigator/EditProfileScreen.js:18-32 | after the five reads, the screen state is the loaded profile with its defaults |
| `EditProfile.EditProfileScreen.HandleSave` | ASM2/BottomTabNavigator/EditProfileScreen.js:64-78 | saving succeeds iff name and email are non-empty; a refused save leaves the store unchanged; a successful one leaves exactly the saved entries |
| `EditProfile.EditProfileScreen.PickImage` | ASM2/BottomTabNavigator/EditProfileScreen.js:41-61 | only the avatar can change, as the pick outcome says |
| `Home.Lower` | ASM2/Home/index.js:60 | lower-casing keeps the length, leaves no capital letter, and keeps every character that is not a capital where it was |
| `Home.LowerIdempotent` | ASM2/Home/index.js:60 | lower-casing an already lower-cased string changes nothing |
| `Home.IndexFrom` | ASM2/Home/index.js:60 | the search for the query in a name returns the first occurrence at or after the start, or -1 exactly when there is none |
| `Home.Includes` | ASM2/Home/index.js:60 | `includes`, as `indexOf` not being -1; its meaning is stated by `IncludesIffOccurs` and `IncludesEmpty` |
| `Home.IncludesEmpty` | ASM2/Home/index.js:60 | the empty query is included in every name |
| `Home.IncludesIffOccurs` | ASM2/Home/index.js:60 | `includes` holds iff the query occurs at some position of the name |
| `Home.Matches` | ASM2/Home/index.js:60 | the filter test; its meaning is stated by `SearchIgnoresQueryCase`, `SearchEmptyQuery` and the lemmas about `Search` |
| `Home.Search` | ASM2/Home/index.js:59-61 | every product kept came from the list and its lower-cased name contains the lower-cased query; the list never grows |
| `Home.SearchIsSubsequence` | ASM2/Home/index.js:59-62 | the result is a subsequence of the list searched, so order is kept |
| `Home.SearchComplete` | ASM2/Home/index.js:59-61 | every product of the list that matches is kept |
| `Home.SearchCount` | ASM2/Home/index.js:59-61 | a matching product occurs in the result exactly as often as in the list, a non-matching one not at all |
| `Home.SearchEmptyQuery` | ASM2/Home/index.js:59-61 | an empty query keeps the whole list |
| `Home.SearchIdempotent` | ASM2/Home/index.js:59-62 | searching the result again with the same query gives the same list |
| `Home.SearchNarrows` | ASM2/Home/index.js:59-62 | a second search, however broad, yields a subsequence of the first search's result, hence of the original list, and only products matching both queries |
| `Home.SearchCommutes` | ASM2/Home/index.js:59-62 | two successive searches give the same list in either order |
| `Home.SearchIgnoresQueryCase` | ASM2/Home/index.js:60 | searching with a query or with its lower-cased form gives the same list |
| `Home.NextBannerIndex` | ASM2/Home/index.js:69-72 | the next index is below the 5 banners; it is the successor, wrapping from the last banner to 0 |
| `Home.AfterTicksIsModular` | ASM2/Home/index.js:67-74 | from a valid index, n ticks give `(i + n) % 5` |
| `Home.BannerCycle` | ASM2/Home/index.js:67-74 | five ticks bring the index back to where it started |
| `Home.HomeScreen.constructor` | ASM2/Home/index.js:22-26 | the initial state: no products, empty query, loading, banner 0 |
| `Home.HomeScreen.HandleSearch` | ASM2/Home/index.js:57-64 | the product list is replaced by the search result for the current query and loading ends false; the carousel is untouched |
| `Home.HomeScreen.AdvanceBanner` | ASM2/Home/index.js:68-73 | one tick moves the index to the next banner and keeps it within the 5 banners |

## Left out

- Rendering, styles, alerts, `console.log` and navigation (`navigate`, `goBack`): presentation and platform bindings.
- `ASM2/BottomTabNavigator/ProfileScreen.js` is not part of this model. It only reads two keys for display and logs out through navigation.
- The product and category fetches from the remote API, and the loading flag they clear: network I/O. `products` is a field that a client of the model sets.
- The `setInterval` timing and `scrollToIndex` call of the carousel: timer and UI effects. Only the index update is modelled.
- The text inputs, gender buttons and date picker that set the form fields: UI bindings. The fields are plain fields or form values.
- The media-library permission request: a device capability. Its answer is the `granted` parameter.
- Asynchrony of the store and its failure modes (a rejected `getItem` or `setItem` and the generic error alert it causes, including a save that stops halfway). The store is a synchronous map whose writes always succeed.
- The text format of stored values. The store holds only text, but the model keeps the `users` JSON array as `UserList` and the birth date's ISO timestamp as `Timestamp`. A `users` entry that is `Text` is read as one of the falsy JSON literals `null`, `false`, `0`, `-0`, `""` (giving the empty list) or else as text that does not parse as a list; other spellings of falsy values (with surrounding white space, `0.0`, `0e0`) are not recognised. A profile key whose entry is not `Text` reads as missing. A `birthDate` entry that is not a `Timestamp` reads as missing, so the model gives now where the source would parse the text.
- Dates are (year, month, day) triples compared chronologically. Time of day, time zones and calendar validity (for example February 29) are not modelled.
- The random "sold" counts and the locale formatting of prices: display only.
- Home.Lower: lower-cases ASCII letters only, where `toLowerCase` covers all of Unicode.
- Register.PasswordLengthOnly: length counts Unicode characters, where JavaScript counts UTF-16 code units. The two differ only for characters outside the Basic Multilingual Plane.
