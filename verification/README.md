# NMB Kwa Wote: authentication gate and money-screen forms

NMB Kwa Wote is a prototype Android banking shell written with Jetpack Compose. This
project models the two parts of it that are pure logic:

- **The authentication view model** (`MainViewModel`). It handles five events: start the
  biometric prompt, success, failure with a message, retry, and skip. Each
  handler replaces the state (`Initial`, `Loading`, `Authenticated`, `Error(message)`) and
  sends exactly one effect (`NavigateToHome`, `ShowError(message)`, `ShowBiometricPrompt`).
  Here the event channel becomes a left fold over an event sequence, and the effect
  channel becomes the list of effects sent so far (module `Auth`).
- **The three money screens**: Withdraw Money, Send Money and Pay Bills. Each screen is a
  record of its remembered fields. The model covers:
  - the edit filters that accept or reject each keystroke;
  - the form validators;
  - the denomination buttons and bill-type menu;
  - the submit button's prioritised decision;
  - the biometric-availability mapping;
  - the biometric prompt's callbacks;
  - the text each handler asks the speech engine to read out.

  A user session is a sequence of actions folded over the screen record. Each screen has an
  invariant that holds of every reachable screen (modules `WithdrawMoney`, `SendMoney`,
  `PayBills`).

Shared pieces:
- `Text`: Kotlin's `Char.isDigit()`, the regular-expression class `\d`, and `chunked(n).joinToString(" ")`.
- `Amount`: exact decimal parsing of amounts.
- `Biometric`: the `BiometricStatus` enum and the prompt callbacks.
- `Common`: `Option` and the per-event `Reaction`.

Modelling decisions:
- **Amounts are exact decimals, not `Double`.** A string of ASCII digits with at most one
  `.` and at least one digit denotes `units / 10^scale`. `Amount.Value` gives the real
  number that a decimal stands for. Each validator is stated against that number, so
  `> 0` and `% 1000 == 0.0` become "positive" and "an integer multiple of 1000".
  `""` and `"."` do not parse; `"5."` and `".5"` do, as in Kotlin.
- **Three digit classes.**
  - `isDigit()` tests one UTF-16 unit. It accepts every Unicode decimal digit (category Nd)
    in the Basic Multilingual Plane (`Text.IsDigit`).
  - Android's regular expressions are Unicode-aware and match code points. So the currency
    pattern's `\d` accepts every Nd code point, including the digits above U+FFFF such as
    the mathematical bold digits (`Text.IsRegexDigit`).
  - The number parser reads ASCII `0-9` only.

  Two consequences follow:
  - an account number written in Arabic-Indic digits passes the Withdraw filter and
    validation (`WithdrawMoney.NonAsciiAccountAccepted`);
  - an amount written in non-ASCII digits, from either plane, is stored by the amount
    filters but never parses, so the submit button stays disabled
    (`WithdrawMoney.NonAsciiAmountStored`, `SendMoney.NonAsciiAmountStored`).
- **Disabled buttons.** Compose does not deliver clicks to a disabled button, so in `Apply`
  a click on an invalid form does nothing. The handlers' own validation branch is modelled
  as written, and the model shows it can never run.
- **Four states.** `MainViewModel` has four states (`Initial`, `Loading`, `Authenticated`,
  `Error`), and retry returns to `Initial`.

## Model

| member | source | states |
|---|---|---|
| Auth.Step | app/src/main/java/com/devt/NmbKwaWote/presentation/MainActivity.kt:99-139 | each event yields one state and one effect: `NavigateToHome` exactly when the state is `Authenticated`; an error state exactly for a failure event, carrying that event's message, with `ShowError` of the same text; `ShowBiometricPrompt` exactly when the state is `Initial` or `Loading` |
| Auth.Run | app/src/main/java/com/devt/NmbKwaWote/presentation/MainActivity.kt:96-108 | folding events keeps earlier effects, adds exactly one effect per event (effect i is event i's), and leaves the state of the last event, or the old state for no events |
| Auth.FreshViewModel | app/src/main/java/com/devt/NmbKwaWote/presentation/MainActivity.kt:83-90 | a fresh view model is `Initial` and has sent no effect |
| Auth.Process | app/src/main/java/com/devt/NmbKwaWote/presentation/MainActivity.kt:98-105 | handling one event keeps every earlier effect and appends exactly one; that effect is `NavigateToHome` iff the new state is `Authenticated`, is `ShowError` iff the event is a failure, and shows the message of an error state |
| Auth.RunConcat | app/src/main/java/com/devt/NmbKwaWote/presentation/MainActivity.kt:98-106 | handling `a` and then `b` equals handling `a + b` |
| Auth.NavigateExactlyWhenAuthenticated | app/src/main/java/com/devt/NmbKwaWote/presentation/MainActivity.kt:121-139 | in any run, effect i is `NavigateToHome` iff the state right after event i is `Authenticated` |
| Auth.ErrorMatchesShownMessage | app/src/main/java/com/devt/NmbKwaWote/presentation/MainActivity.kt:126-129 | when a run ends in an error state, its last effect shows that state's message |
| Auth.SkipActsAsSuccess | app/src/main/java/com/devt/NmbKwaWote/presentation/MainActivity.kt:121-139 | skip and success have identical outcomes: `Authenticated` and `NavigateToHome` |
| Auth.PromptEvents | app/src/main/java/com/devt/NmbKwaWote/presentation/MainActivity.kt:116-134 | initiating gives `Loading` and the prompt; retrying gives `Initial` and the prompt |
| Auth.LastEventDecides | app/src/main/java/com/devt/NmbKwaWote/presentation/MainActivity.kt:116-139 | the state after a non-empty run is the last event's own state, whatever the history or start |
| Text.DigitsHaveNoSpace | app/src/main/java/com/devt/NmbKwaWote/presentation/screens/features/SendMoney.kt:325 | an all-digit field contains no space |
| Text.Chunks | app/src/main/java/com/devt/NmbKwaWote/presentation/screens/features/WithDrawMoney.kt:203 | `chunked(n)` groups concatenate back to the string; each group has 1..n characters and all but the last exactly n; there are no groups iff the string is empty |
| Text.ReadBackRestores | app/src/main/java/com/devt/NmbKwaWote/presentation/screens/features/WithDrawMoney.kt:203 | removing the spaces of `chunked(n).joinToString(" ")` restores any space-free field |
| Text.ReadBackLength | app/src/main/java/com/devt/NmbKwaWote/presentation/screens/features/WithDrawMoney.kt:203 | the read-back of a non-empty field has its characters plus one space per group boundary |
| Text.ReadBackOfOne | app/src/main/java/com/devt/NmbKwaWote/presentation/screens/features/SendMoney.kt:227 | `chunked(1).joinToString(" ")` of a non-empty field has length 2n-1, with the field's characters at even positions and spaces at odd ones |
| Amount.PositiveMeansValue | app/src/main/java/com/devt/NmbKwaWote/presentation/screens/features/SendMoney.kt:346 | the digit test for `> 0` holds iff the exact value is positive |
| Amount.MultipleMeansValue | app/src/main/java/com/devt/NmbKwaWote/presentation/screens/features/WithDrawMoney.kt:377 | the digit test for `% m == 0` holds iff the exact value is an integer multiple of m |
| Amount.Parse | app/src/main/java/com/devt/NmbKwaWote/presentation/screens/features/WithDrawMoney.kt:377 | on strings of ASCII digits and dots, `toDoubleOrNull()` succeeds iff the string is ASCII digits with at most one dot and at least one digit, and every other string is `None` here. So `""` and `"."` fail while `"5."` and `".5"` succeed; a dot-free string gives the whole number it spells; a dotted one has fewer fraction digits than characters; whatever parses passes the currency filter |
| Amount.CurrencyShapeIsPattern | app/src/main/java/com/devt/NmbKwaWote/presentation/screens/features/WithDrawMoney.kt:357 | the currency shape (`Amount.CurrencyShape`: Nd code points, including those above U+FFFF, alone or around one dot) holds exactly when a left-to-right match of `^\d*\.?\d*$` accepts the string; the parser's ASCII grammar (`Amount.DecimalShape`) is the same match with ASCII digits |
| Amount.DecimalShapeIsCurrencyShape | app/src/main/java/com/devt/NmbKwaWote/presentation/screens/features/SendMoney.kt:293 | every string of the parser's grammar passes the currency filter |
| Amount.NonAsciiAmountUnparsed | app/src/main/java/com/devt/NmbKwaWote/presentation/screens/features/SendMoney.kt:293 | a non-empty string of decimal digits none of which is ASCII passes the currency filter but does not parse |
| Amount.SupplementaryAmountUnparsed | app/src/main/java/com/devt/NmbKwaWote/presentation/screens/features/WithDrawMoney.kt:357 | "1000" in mathematical bold digits (U+1D7CF, U+1D7CE three times) passes the currency filter but does not parse |
| Amount.ParseWhole | app/src/main/java/com/devt/NmbKwaWote/presentation/screens/features/SendMoney.kt:346 | a dot-free digit string parses to the whole number it spells |
| Amount.ParseFraction | app/src/main/java/com/devt/NmbKwaWote/presentation/screens/features/SendMoney.kt:346 | `a.b` parses to the value of `a` plus the value of `b` over 10 to the power of the length of `b` |
| Amount.DecimalString | app/src/main/java/com/devt/NmbKwaWote/presentation/screens/features/WithDrawMoney.kt:251 | `Int.toString()` of a non-negative value is non-empty ASCII digits with no leading zero |
| Amount.DecimalStringValue | app/src/main/java/com/devt/NmbKwaWote/presentation/screens/features/WithDrawMoney.kt:251 | the digits of `n.toString()` spell `n` |
| Amount.ParseDecimalString | app/src/main/java/com/devt/NmbKwaWote/presentation/screens/features/WithDrawMoney.kt:251 | `n.toString()` parses back to exactly `n` |
| Biometric.StatusFromCode | app/src/main/java/com/devt/NmbKwaWote/presentation/screens/features/SendMoney.kt:182-187 | the availability mapping never yields `NOT_CHECKED`; it is `AVAILABLE` iff the code is success, `NOT_ENROLLED` iff none-enrolled, and `NOT_AVAILABLE` for no-hardware and every other code |
| WithdrawMoney.AmountValid | app/src/main/java/com/devt/NmbKwaWote/presentation/screens/features/WithDrawMoney.kt:377 | the amount clause holds iff the amount parses to a positive integer multiple of 1000; a valid amount has the currency shape |
| WithdrawMoney.ValidateWithdrawForm | app/src/main/java/com/devt/NmbKwaWote/presentation/screens/features/WithDrawMoney.kt:376-380 | valid iff the amount clause holds and the account number is exactly 16 digits; an empty or unparsable amount is invalid |
| WithdrawMoney.NonAsciiAccountAccepted | app/src/main/java/com/devt/NmbKwaWote/presentation/screens/features/WithDrawMoney.kt:378 | any sixteen Arabic-Indic digits pass the account filter, and with them the form is valid exactly when the amount is, though none of them is an ASCII digit |
| WithdrawMoney.Enabled | app/src/main/java/com/devt/NmbKwaWote/presentation/screens/features/WithDrawMoney.kt:297 | the withdraw button is enabled exactly when its click handler would not take the validation-failure branch; an enabled form has a parsable amount and a 16-character account |
| WithdrawMoney.OnAccountChange | app/src/main/java/com/devt/NmbKwaWote/presentation/screens/features/WithDrawMoney.kt:323-329 | an edit is stored iff it has at most 16 characters, all digits; a rejected edit changes nothing; an accepted one clears the field's error flag and nothing else; its read-back with spaces removed is the number |
| WithdrawMoney.OnAmountChange | app/src/main/java/com/devt/NmbKwaWote/presentation/screens/features/WithDrawMoney.kt:354-360 | an edit is stored iff it is empty or of the currency shape; a rejected edit changes nothing; the amount keeps the currency shape |
| WithdrawMoney.NonAsciiAmountStored | app/src/main/java/com/devt/NmbKwaWote/presentation/screens/features/WithDrawMoney.kt:357 | an amount in non-ASCII decimal digits, including those above U+FFFF, is stored but is not a valid amount, so the form cannot validate |
| WithdrawMoney.OnDenomination | app/src/main/java/com/devt/NmbKwaWote/presentation/screens/features/WithDrawMoney.kt:247-258 | pressing a denomination selects it and sets the amount to a string that parses to it and passes the amount clause; nothing else changes |
| WithdrawMoney.DenominationAmountValid | app/src/main/java/com/devt/NmbKwaWote/presentation/screens/features/WithDrawMoney.kt:74 | each of 1000, 2000, 5000, 10000 written out parses to itself and is a valid withdrawal amount |
| WithdrawMoney.WholeThousandsValid | app/src/main/java/com/devt/NmbKwaWote/presentation/screens/features/WithDrawMoney.kt:377 | `n.toString()` of any positive whole number of thousands parses back to `n` and passes the amount clause |
| WithdrawMoney.DenominationLabel | app/src/main/java/com/devt/NmbKwaWote/presentation/screens/features/WithDrawMoney.kt:268 | a caption is at least two characters: ASCII digits followed by "K" |
| WithdrawMoney.LabelNamesThousands | app/src/main/java/com/devt/NmbKwaWote/presentation/screens/features/WithDrawMoney.kt:268 | a denomination's caption is digits naming its thousands followed by "K", and those thousands times 1000 give back the denomination |
| WithdrawMoney.LabelsDistinct | app/src/main/java/com/devt/NmbKwaWote/presentation/screens/features/WithDrawMoney.kt:268 | different denominations get different captions |
| WithdrawMoney.Decide | app/src/main/java/com/devt/NmbKwaWote/presentation/screens/features/WithDrawMoney.kt:276-295 | validation is checked first; a valid form without `AVAILABLE` status is refused as unavailable; the prompt is chosen iff the form is valid and the status is `AVAILABLE` |
| WithdrawMoney.OnWithdrawClick | app/src/main/java/com/devt/NmbKwaWote/presentation/screens/features/WithDrawMoney.kt:274-297 | the prompt opens iff the decision is the prompt; unavailability sets "Biometric authentication not available" and asks to speak it; otherwise the screen is unchanged |
| WithdrawMoney.OnPromptResult | app/src/main/java/com/devt/NmbKwaWote/presentation/screens/features/WithDrawMoney.kt:93-126 | an error shows the platform's text, and its utterance ends in that text; a rejected biometric shows "Authentication failed", and its utterance is exactly what it shows; success changes no field; every result has an utterance; only the error message ever changes |
| WithdrawMoney.ApplyPreserves | app/src/main/java/com/devt/NmbKwaWote/presentation/screens/features/WithDrawMoney.kt:196-297 | every action keeps the invariant: both fields pass their filters, any selected denomination is a button's, and no error flag is set |
| WithdrawMoney.Reachable | app/src/main/java/com/devt/NmbKwaWote/presentation/screens/features/WithDrawMoney.kt:60-77 | the invariant survives any sequence of actions |
| WithdrawMoney.ReachableFromInitial | app/src/main/java/com/devt/NmbKwaWote/presentation/screens/features/WithDrawMoney.kt:60-77 | every screen reachable from the empty form keeps the invariant, so its amount is always of the currency shape |
| WithdrawMoney.ClickOutcomes | app/src/main/java/com/devt/NmbKwaWote/presentation/screens/features/WithDrawMoney.kt:274-298 | a delivered click never asks to speak the validation-failure text; the prompt opens iff the button is enabled and the status is `AVAILABLE` |
| WithdrawMoney.ClickBeforeCheck | app/src/main/java/com/devt/NmbKwaWote/presentation/screens/features/WithDrawMoney.kt:285-293 | a valid form clicked while the status is still `NOT_CHECKED` is refused with the not-available message |
| SendMoney.AmountValid | app/src/main/java/com/devt/NmbKwaWote/presentation/screens/features/SendMoney.kt:346 | the amount clause holds iff the amount parses to a positive value |
| SendMoney.ValidateForm | app/src/main/java/com/devt/NmbKwaWote/presentation/screens/features/SendMoney.kt:345-349 | valid iff the amount parses to a positive value and the recipient is 10 to 12 characters, all digits |
| SendMoney.RecipientClauseUnderFilter | app/src/main/java/com/devt/NmbKwaWote/presentation/screens/features/SendMoney.kt:345-348 | for a recipient the phone filter accepted, the recipient clause is just length at least 10 |
| SendMoney.Enabled | app/src/main/java/com/devt/NmbKwaWote/presentation/screens/features/SendMoney.kt:262 | the send button is enabled exactly when its click handler would not take the validation-failure branch; an enabled form has a parsable amount and a recipient of 10 to 12 characters |
| SendMoney.OnAmountChange | app/src/main/java/com/devt/NmbKwaWote/presentation/screens/features/SendMoney.kt:290-296 | an edit is stored iff it is empty or of the currency shape; a rejected edit changes nothing |
| SendMoney.NonAsciiAmountStored | app/src/main/java/com/devt/NmbKwaWote/presentation/screens/features/SendMoney.kt:293 | an amount in non-ASCII decimal digits, including those above U+FFFF, is stored but is not a valid amount, so the form cannot validate |
| SendMoney.OnRecipientChange | app/src/main/java/com/devt/NmbKwaWote/presentation/screens/features/SendMoney.kt:322-328 | an edit is stored iff it has at most 12 characters, all digits; a rejected edit changes nothing; its digit-by-digit read-back with spaces removed is the number |
| SendMoney.Decide | app/src/main/java/com/devt/NmbKwaWote/presentation/screens/features/SendMoney.kt:241-260 | validation before availability; the prompt is chosen iff the form is valid and the status is `AVAILABLE` |
| SendMoney.OnSendClick | app/src/main/java/com/devt/NmbKwaWote/presentation/screens/features/SendMoney.kt:239-263 | the prompt opens iff the decision is the prompt; unavailability sets the not-available message and asks to speak it |
| SendMoney.OnPromptResult | app/src/main/java/com/devt/NmbKwaWote/presentation/screens/features/SendMoney.kt:98-130 | an error shows the platform's text, and its utterance ends in that text; a rejected biometric shows "Authentication failed", and its utterance is exactly what it shows; success changes no field; every result has an utterance; only the error message ever changes |
| SendMoney.ApplyPreserves | app/src/main/java/com/devt/NmbKwaWote/presentation/screens/features/SendMoney.kt:203-237 | every action keeps the invariant: both fields pass their filters and no error flag is set |
| SendMoney.Reachable | app/src/main/java/com/devt/NmbKwaWote/presentation/screens/features/SendMoney.kt:68-72 | the invariant survives any sequence of actions |
| SendMoney.ReachableFromInitial | app/src/main/java/com/devt/NmbKwaWote/presentation/screens/features/SendMoney.kt:68-82 | on every reachable screen the send button is enabled iff the amount is positive and the recipient has at least 10 digits |
| SendMoney.ClickOutcomes | app/src/main/java/com/devt/NmbKwaWote/presentation/screens/features/SendMoney.kt:241-262 | a delivered click never asks to speak the validation-failure text; the prompt opens iff the button is enabled and the status is `AVAILABLE` |
| SendMoney.CheckedStatusGatesPrompt | app/src/main/java/com/devt/NmbKwaWote/presentation/screens/features/SendMoney.kt:180-188 | after the availability check the status is never `NOT_CHECKED`, and a valid form then reaches the prompt iff the code was success |
| PayBills.AmountValid | app/src/main/java/com/devt/NmbKwaWote/presentation/screens/features/PayBills.kt:270 | the amount clause holds iff the amount parses to a positive value |
| PayBills.ValidatePayBillForm | app/src/main/java/com/devt/NmbKwaWote/presentation/screens/features/PayBills.kt:269-274 | valid iff the amount is positive, the bill number is non-empty and all digits, and the bill type is non-empty |
| PayBills.Enabled | app/src/main/java/com/devt/NmbKwaWote/presentation/screens/features/PayBills.kt:251 | the pay button is enabled exactly when its click handler would open the prompt; an enabled form has a parsable amount, a bill number and a bill type |
| PayBills.OnBillTypeSelected | app/src/main/java/com/devt/NmbKwaWote/presentation/screens/features/PayBills.kt:168-180 | choosing a menu entry stores it, which satisfies the bill-type clause, and changes nothing else |
| PayBills.OnBillNumberChange | app/src/main/java/com/devt/NmbKwaWote/presentation/screens/features/PayBills.kt:186-199 | an edit is stored iff it has at most 20 characters, all digits; a rejected edit leaves the number and its error flag unchanged; the read-back with spaces removed is the number |
| PayBills.OnAmountChange | app/src/main/java/com/devt/NmbKwaWote/presentation/screens/features/PayBills.kt:212-223 | the amount field has no filter: every edit is stored as typed |
| PayBills.Decide | app/src/main/java/com/devt/NmbKwaWote/presentation/screens/features/PayBills.kt:233-249 | there is no availability branch: the prompt is chosen iff the form is valid |
| PayBills.OnPayClick | app/src/main/java/com/devt/NmbKwaWote/presentation/screens/features/PayBills.kt:231-250 | a click changes no field; it opens the prompt iff the decision is the prompt and asks to speak only on validation failure |
| PayBills.OnPromptResult | app/src/main/java/com/devt/NmbKwaWote/presentation/screens/features/PayBills.kt:108-130 | an authentication error sets the error message to exactly the platform's text, and its utterance ends in that text; success asks for an announcement and changes no field; with no failure callback, a rejected biometric does nothing at all |
| PayBills.ApplyPreserves | app/src/main/java/com/devt/NmbKwaWote/presentation/screens/features/PayBills.kt:148-228 | every action keeps the invariant: the bill number passes its filter, the bill type is empty or a menu entry, no error flag is set |
| PayBills.Reachable | app/src/main/java/com/devt/NmbKwaWote/presentation/screens/features/PayBills.kt:58-64 | the invariant survives any sequence of actions |
| PayBills.ReachableFromInitial | app/src/main/java/com/devt/NmbKwaWote/presentation/screens/features/PayBills.kt:58-75 | on every reachable screen the bill-type clause holds iff a menu entry has been chosen |
| PayBills.BillTypesNonEmpty | app/src/main/java/com/devt/NmbKwaWote/presentation/screens/features/PayBills.kt:75 | every bill-type entry is non-empty |
| PayBills.ClickOutcomes | app/src/main/java/com/devt/NmbKwaWote/presentation/screens/features/PayBills.kt:231-252 | a delivered click opens the prompt iff the button is enabled, with no availability check; it never asks to speak and changes no field |

## Left out

- Compose rendering and layout, navigation (`NavHost`, routes, `AppContent`'s effect
  collector) and the other screens: they draw or route and hold no logic of their own.
- Which events are ever sent: the only sender is the `onAuthSuccess` callback
  (MainActivity.kt:188-190), which sends `AuthenticationSucceeded`. `AuthScreen` calls it
  from the prompt's success callback (line 215) and from the debug button (line 247). So in
  this codebase `SkipAuthentication`, `InitiateBiometric`, `AuthenticationFailed` and
  `RetryAuthentication` are handled but never sent. The model covers all five handlers.
- `AuthScreen` (MainActivity.kt:205-268): its snackbar flags are Compose state that
  mirrors the prompt callbacks. The model covers the view model it feeds.
- Coroutines and channels: the event channel becomes a sequential fold. The order in
  which separately launched `sendEvent` coroutines deliver events is not modelled.
- Platform APIs: `BiometricPrompt`, `BiometricManager`, `TextToSpeech`, `Toast` and
  haptics. The prompt's result and the availability code are inputs. Only the text each
  handler passes to `speak` is modelled. The model also leaves out whether the speech
  handle is set: as written, each screen's init callback stores the outer
  `ttsInstance` variable, which is still null at that point.
- The speech-engine error path (`ttsError` copied into `errorMessage`) is platform
  plumbing and is left out.
- The empty view-model stubs (`withdrawMoney`, `sendMoney`, `payBill`) and
  `resetBiometricResult`, with the unused `BiometricResult` class: they have no behaviour.
  The success callbacks' `amount.toDouble()` is not modelled. It is reached only after a
  valid form opened the prompt.
- Pay Bills' `biometricStatus` is declared but never read or updated, so it is not part of
  that screen's record.
- The Pay Bills menu is hard-wired closed (`expanded = false`). Item clicks are modelled as
  written, but in practice no bill type can be chosen. Showing that needs Compose semantics.
- Kotlin strings are UTF-16, while a Dafny `char` is a whole Unicode scalar value. A
  character above U+FFFF counts once here but twice in Kotlin's `length`, and a lone
  surrogate cannot be represented. No outcome depends on this. `Text.IsDigit` is false
  above U+FFFF, so the account, recipient and bill-number filters, which count characters,
  reject such a character. The amount filters accept digits above U+FFFF, and the Pay Bills
  amount accepts anything, but no logic reads the length of an amount.
- Text.IsDigit: the table of digit runs is taken from Unicode 15. The platform's Unicode
  version may differ. The same holds for `Text.IsRegexDigit`.
- Amount.Parse: weaker than `toDoubleOrNull()`. It reads only ASCII digits with at most one
  dot and makes the value exact. Kotlin also accepts forms this model does not: an
  exponent (`"1e3"`), a sign (`"+5"`), surrounding whitespace (`" 5"`), `"NaN"` and
  `"Infinity"`, hexadecimal floating-point literals (`"0x1p3"`) and an `f` or `d` suffix
  (`"5d"`). Kotlin also rounds to a `Double`: a 400-digit string becomes `Infinity`, and long
  fractions lose their low digits. Here every such form is `None`, and every accepted string
  keeps its exact value.
- Amount.CurrencyShape reads the filters' `\d` as Android's regular expressions define it: any
  Unicode decimal digit. On a desktop JVM with default flags `\d` is ASCII only, and the
  amount filters there would reject the non-ASCII amounts this model stores. Validation is
  the same either way, since the parser reads ASCII digits only.
- WithdrawMoney.AmountValid: exact decimal arithmetic stands in for `Double`. Rounding of
  very long digit strings (overflow to infinity, underflow to zero, lost low digits) is not
  modelled.
- SendMoney.AmountValid: exact decimal arithmetic stands in for `Double`. Rounding of very
  long digit strings is not modelled.
- PayBills.AmountValid: weaker than `toDoubleOrNull`. Kotlin also accepts some strings
  outside the digits-and-dot grammar on this unfiltered field: exponents (`"1e3"`), signs
  (`"+5"`), surrounding whitespace, `"NaN"`, `"Infinity"`, hexadecimal forms and type
  suffixes (`"5d"`). The model treats all of these as unparsable, so it rejects some
  amounts the app accepts. `Double` rounding is not modelled either.
- Build configuration (app/build.gradle.kts).
