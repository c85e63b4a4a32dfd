# Login screen of LanguageApp, modelled in Dafny

The login screen of this React Native app does three things that can be stated
exactly:

- It validates two form fields. The e-mail must match `^[^\s@]+@[^\s@]+\.[^\s@]+$`. The password must be at least six characters long.
- It translates between a stored language code (`en`, `hi`, `pa`, `ta`) and the name shown in the language selector. It does this with two chains of conditional expressions.
- It keeps a handful of state hooks and the `LANG` entry of the device's key-value store up to date in response to user events.

The model has four modules:

- `Options` (options.dfy): `Option`, for the value read from the store.
- `Locale` (locale.dfy): the two mappings, a reference table `Languages` of the four (code, name) pairs, and the round-trip and fallback lemmas.
- `Validation` (validation.dfy): the validators and the regular expression. The regular expression appears in three forms: an existential split `local@domain.tld` (`EmailPattern`); a split-free description with one `@`, no whitespace and a `.` strictly inside the domain (`SingleAtDottedDomain`); and a two-phase left-to-right scan (`MatchEmailPattern`). All three are proved to agree.
- `LoginScreen` (login_screen.dfy): a class `Login` with one field per state hook, plus `storedLang` for the store. Its methods are the screen's handlers. Each handler's `modifies` clause names exactly the fields the handler sets, so every other field is unchanged by construction.

Validation results are message keys (`ErrorText`): `NoError`, `EmailRequired`, `InvalidEmail`, `PasswordRequired` and `PasswordMinLength`. In the source they are the translated strings `t(key)`, or `''` for no error. The model relies on the translation of a key never being the empty string. Under that assumption the source's test `!error` is the same as `NoError`.

Both chains accept any string and end in a catch-all branch. They are inverse to each other only on the four entries of the table; off the table they fall back to Tamil / 'ta'.

`\s` is modelled as the ECMAScript class: tab, line feed, vertical tab, form feed, carriage return, the Unicode space separators, U+2028, U+2029 and U+FEFF.

## Model

| member | source | states |
|---|---|---|
| Locale.CodeToLabel | src/screens/login/login.screen.tsx:36-43 | Every string maps to one of the four display names. A code in the table maps to that code's name in the table. |
| Locale.LabelToCode | src/screens/login/login.screen.tsx:128-135 | Every string maps to one of the four codes. A name in the table maps to the code that the table pairs with it. |
| Locale.LabelsAreTableValues | src/screens/login/login.screen.tsx:128-135 | The set of known names, against which both chains are stated, equals the set of values of the (code, name) table. |
| Locale.LanguagesInjective | src/screens/login/login.screen.tsx:36-43 | No two codes share a name, so the table is a bijection. |
| Locale.CodeRoundTrip | src/screens/login/login.screen.tsx:128-135 | For en, hi, pa and ta, mapping the code's name back gives the code. |
| Locale.LabelRoundTrip | src/screens/login/login.screen.tsx:36-43 | For the four names, mapping the name's code back gives the name. |
| Locale.UnknownCodeFallsBack | src/screens/login/login.screen.tsx:43 | Any code outside the table is mapped to Tamil by the code→name chain, and its round trip yields 'ta'. (On screen, an empty stored code never reaches the chain; see `CheckLng`.) |
| Locale.UnknownLabelFallsBack | src/screens/login/login.screen.tsx:135 | Any name outside the table is stored as 'ta', which is shown as Tamil. |
| Validation.IsWhitespace | src/screens/login/login.screen.tsx:49 | The class `\s` of the regular expression: the ECMAScript whitespace and line-terminator code points; neither '@' nor '.' is among them. |
| Validation.IsAddressChar | src/screens/login/login.screen.tsx:49 | The class `[^\s@]`: neither whitespace nor '@'; the '.' itself is in the class. |
| Validation.EmailPattern | src/screens/login/login.screen.tsx:49 | The anchored regular expression: the string splits as local '@' domain '.' tld, with three non-empty runs of `[^\s@]`; a matching string has at least five characters. |
| Validation.FirstStop | src/screens/login/login.screen.tsx:49 | In a matching string, the first whitespace or '@' is the '@' that ends a non-empty local part. |
| Validation.EmailPatternAt | src/screens/login/login.screen.tsx:49 | Given the '@' that ends the first run of allowed characters, the string matches exactly when that run is non-empty, everything after the '@' is an allowed character, and a '.' follows the '@' that is neither first nor last among those characters. |
| Validation.EmailPatternCharacterization | src/screens/login/login.screen.tsx:49 | The split `local@domain.tld` with three non-empty runs holds exactly when the string has no whitespace, has exactly one '@' (not at the front), and has a '.' strictly inside the part after the '@'. |
| Validation.MatchEmailPattern | src/screens/login/login.screen.tsx:51 | The scan returns true exactly when the string matches the anchored regular expression. |
| Validation.EmailError | src/screens/login/login.screen.tsx:48-53 | The empty string, and only it, is "required". A non-empty string is "invalid" exactly when it lacks the one-'@', dotted-domain shape. No error is reported exactly when it has that shape. |
| Validation.ValidateEmail | src/screens/login/login.screen.tsx:48-53 | The executable validator returns what the specification `EmailError` prescribes. |
| Validation.ValidatePassword | src/screens/login/login.screen.tsx:55-58 | Length 0 gives "required". Lengths 1 to 5 give "min length". Length 6 or more gives no error. Each message occurs exactly on its own range. |
| Validation.NoAtIsInvalid | src/screens/login/login.screen.tsx:51 | "not-an-email" is invalid. |
| Validation.DottedDomainsAreValid | src/screens/login/login.screen.tsx:49-52 | "a@b.co" is accepted, and so is "a@b.c.d": the domain may hold more than one '.'. |
| Validation.EdgeDotsAreInvalid | src/screens/login/login.screen.tsx:49-51 | "a@.bc" and "a@bc." are invalid. |
| Validation.ForbiddenCharsAreInvalid | src/screens/login/login.screen.tsx:49-51 | "a b@c.d" (whitespace) and "a@b@c.d" (a second '@') are invalid. |
| LoginScreen.HasPreference | src/screens/login/login.screen.tsx:34 | The test `if (lang)` on the stored value: a missing entry and an empty string both mean no preference. |
| LoginScreen.Login.constructor | src/screens/login/login.screen.tsx:19-25 | The screen starts with the name English, empty fields, no errors and the selector closed. The store keeps what it held before. |
| LoginScreen.Login.CheckLng | src/screens/login/login.screen.tsx:32-46 | A stored, non-empty code replaces the displayed name with that code's label. A missing or empty entry leaves the name as it was. Nothing else changes. |
| LoginScreen.Login.SetEmail | src/screens/login/login.screen.tsx:93 | The e-mail field takes the typed text. Its error is not recomputed. |
| LoginScreen.Login.SetPassword | src/screens/login/login.screen.tsx:103 | The password field takes the typed text. Its error is not recomputed. |
| LoginScreen.Login.HandleLogin | src/screens/login/login.screen.tsx:61-72 | Both error fields are overwritten. The e-mail error is a function of the e-mail alone, and the password error is a function of the password alone. Success is signalled exactly when both are empty, which is exactly when the e-mail has the dotted-domain shape and the password has at least six characters. |
| LoginScreen.Login.OpenModal | src/screens/login/login.screen.tsx:78-80 | The language button opens the selector, and nothing else changes. |
| LoginScreen.Login.CloseModal | src/screens/login/login.screen.tsx:124-126 | Closing the selector changes nothing else. |
| LoginScreen.Login.OnSelect | src/screens/login/login.screen.tsx:127-140 | The store receives the chosen name's code, which is always one of the four codes. The chosen name is displayed as given, and the selector closes. The fields and errors are untouched. |
| LoginScreen.ShownAtStartup | src/screens/login/login.screen.tsx:28-46 | At mount, the name shown is English unless the store holds a non-empty code. A code in the table is shown as its name. Any other code is shown as Tamil. |
| LoginScreen.ShownAfterRestart | src/screens/login/login.screen.tsx:127-140 | After a choice in the selector and a restart of the screen, a known name is shown again as chosen. Any other name comes back as Tamil, even though the screen had displayed it as given. |

## Left out

- Rendering and styles (src/screens/login/login.screen.tsx:74-211): these are layout only.
- Asynchrony of the key-value store: `getItem` and `setItem` are treated as immediate reads and writes of `storedLang`. The model does not cover an interleaving of the mount-time read with a selection. It also does not cover a storage failure: a rejected `setItem` would skip the rest of the handler.
- `i18n.changeLanguage` and the `t(...)` lookup: these belong to the translation library. The model does not track the active translation language, and it keeps message keys rather than translated text.
- `Alert.alert` and navigation to the sign-up screen: the alert is the `success` result of `HandleLogin`, and navigation is not modelled.
- App.tsx: it only sets up the navigator and the status bar.
- Validation.ValidatePassword: lengths are counted in code points, while JavaScript's `.length` counts UTF-16 code units. A password of three characters outside the Basic Multilingual Plane has length 6 in the source and 3 here. The e-mail pattern is unaffected, because no surrogate code unit is whitespace or '@'.
