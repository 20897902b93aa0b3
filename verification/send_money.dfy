/** The Send Money screen ("Tuma Pesa"): an amount field, a recipient phone-number field,
    and a send button guarded by validation and biometric availability. */
module SendMoney {
  import opened Common
  import opened Text
  import opened Amount
  import opened Biometric

  /** The screen's remembered state. The two error flags are only ever cleared. */
  datatype Screen = Screen(
    amount: string,
    recipient: string,
    isAmountError: bool,
    isRecipientError: bool,
    errorMessage: Option<string>,
    biometricStatus: Status)

  const Initial: Screen := Screen("", "", false, false, None, InitialStatus)

  const MinPhoneLength: nat := 10
  const MaxPhoneLength: nat := 12

  const RecipientSpeech: string := "Recipient: "
  const ValidationFailedSpeech: string := "Form validation failed. Please check inputs"
  const NotAvailableMessage: string := "Biometric authentication not available"
  const AuthFailedMessage: string := "Authentication failed"

  /** What the user or the platform can do to the screen. */
  datatype Action =
    | EditAmount(value: string)
    | EditRecipient(value: string)
    | ClickSend
    | AvailabilityChecked(code: int)
    | PromptFinished(result: PromptResult)

  /** The phone field's edit filter: at most 12 characters, all digits. */
  predicate PhoneEditAccepted(v: string)
  {
    |v| <= MaxPhoneLength && AllDigits(v)
  }

  /** The amount field's edit filter: empty, or matching `^\d*\.?\d*$`. */
  predicate AmountEditAccepted(v: string)
  {
    |v| == 0 || CurrencyShape(v)
  }

  /** The amount clause of `validateForm`: the amount parses to a positive value. */
  function AmountValid(amount: string): (valid: bool)
    ensures valid <==> Parse(amount).Some? && Value(Parse(amount).value) > 0.0
    ensures valid ==> CurrencyShape(amount)
  {
    match Parse(amount)
    case None => false
    case Some(d) => PositiveMeansValue(d); IsPositive(d)
  }

  /** The recipient clause of `validateForm`: 10 to 12 characters, all digits. */
  predicate RecipientValid(recipient: string)
  {
    MinPhoneLength <= |recipient| <= MaxPhoneLength && AllDigits(recipient)
  }

  /** `validateForm` */
  function ValidateForm(amount: string, recipient: string): (valid: bool)
    ensures valid <==>
      && Parse(amount).Some? && Value(Parse(amount).value) > 0.0
      && 10 <= |recipient| <= 12 && AllDigits(recipient)
  {
    AmountValid(amount) && RecipientValid(recipient)
  }

  /** For a recipient the phone filter let through, the recipient clause is only a
      minimum length. */
  lemma RecipientClauseUnderFilter(recipient: string)
    requires PhoneEditAccepted(recipient)
    ensures RecipientValid(recipient) <==> |recipient| >= 10
  {
  }

  /** The send button is enabled exactly when the form validates. */
  function Enabled(s: Screen): (enabled: bool)
    ensures enabled <==> Decide(s) != ValidationFailed
    ensures enabled ==> Parse(s.amount).Some? && MinPhoneLength <= |s.recipient| <= MaxPhoneLength
  {
    ValidateForm(s.amount, s.recipient)
  }

  /** What the user has typed in the amount field, through the currency filter. */
  function OnAmountChange(s: Screen, v: string): (r: Reaction<Screen>)
    ensures r.screen.amount == if AmountEditAccepted(v) then v else s.amount
    ensures r.screen.(amount := s.amount, isAmountError := s.isAmountError) == s
    ensures AmountEditAccepted(v) ==> !r.screen.isAmountError
    ensures !AmountEditAccepted(v) ==> r.screen == s && r.spoken == None
    ensures CurrencyShape(s.amount) ==> CurrencyShape(r.screen.amount)
    ensures !r.prompt
  {
    if AmountEditAccepted(v) then
      Reaction(s.(amount := v, isAmountError := false), Some("Amount entered: " + v), false)
    else
      Ignore(s)
  }

  /** Amount digits in another script are stored, since the filter's `\d` is Unicode-wide,
      but they never parse, so the send button stays disabled. */
  lemma NonAsciiAmountStored(s: Screen, v: string)
    requires |v| > 0 && forall i :: 0 <= i < |v| ==> IsRegexDigit(v[i]) && !IsAsciiDigit(v[i])
    ensures OnAmountChange(s, v).screen.amount == v
    ensures !AmountValid(v) && !ValidateForm(v, s.recipient)
  {
    NonAsciiAmountUnparsed(v);
  }

  /** What the user has typed in the recipient field. A rejected edit changes nothing; an
      accepted one stores the value, clears the field's error flag and reads the number
      back digit by digit. */
  function OnRecipientChange(s: Screen, v: string): (r: Reaction<Screen>)
    ensures r.screen.recipient == if PhoneEditAccepted(v) then v else s.recipient
    ensures r.screen.(recipient := s.recipient, isRecipientError := s.isRecipientError) == s
    ensures PhoneEditAccepted(v) ==> !r.screen.isRecipientError
    ensures !PhoneEditAccepted(v) ==> r.screen == s && r.spoken == None
    ensures r.spoken.Some? <==> PhoneEditAccepted(v)
    ensures r.spoken.Some? ==>
      && |r.spoken.value| >= |RecipientSpeech|
      && r.spoken.value[..|RecipientSpeech|] == RecipientSpeech
      && RemoveSpaces(r.spoken.value[|RecipientSpeech|..]) == v
    ensures !r.prompt
  {
    if PhoneEditAccepted(v) then
      DigitsHaveNoSpace(v);
      ReadBackRestores(v, 1);
      var text := RecipientSpeech + ReadBack(v, 1);
      assert text[|RecipientSpeech|..] == ReadBack(v, 1);
      Reaction(s.(recipient := v, isRecipientError := false), Some(text), false)
    else
      Ignore(s)
  }

  /** The click handler's `when`: validation first, then biometric availability. */
  function Decide(s: Screen): (d: Decision)
    ensures d == ValidationFailed <==> !ValidateForm(s.amount, s.recipient)
    ensures d == BiometricUnavailable <==>
      ValidateForm(s.amount, s.recipient) && s.biometricStatus != Available
    ensures d == ShowPrompt <==>
      ValidateForm(s.amount, s.recipient) && s.biometricStatus == Available
  {
    if !ValidateForm(s.amount, s.recipient) then ValidationFailed
    else if s.biometricStatus != Available then BiometricUnavailable
    else ShowPrompt
  }

  /** The send button's click handler. */
  function OnSendClick(s: Screen): (r: Reaction<Screen>)
    ensures r.prompt <==> Decide(s) == ShowPrompt
    ensures Decide(s) == BiometricUnavailable ==>
      r.screen == s.(errorMessage := Some(NotAvailableMessage)) && r.spoken == Some(NotAvailableMessage)
    ensures Decide(s) == ValidationFailed ==> r.screen == s && r.spoken == Some(ValidationFailedSpeech)
    ensures Decide(s) == ShowPrompt ==> r.screen == s && r.spoken == None
  {
    match Decide(s)
    case ValidationFailed => Reaction(s, Some(ValidationFailedSpeech), false)
    case BiometricUnavailable =>
      Reaction(s.(errorMessage := Some(NotAvailableMessage)), Some(NotAvailableMessage), false)
    case ShowPrompt => Reaction(s, None, true)
  }

  /** The prompt's callbacks. Success hands the amount and recipient to an empty view-model
      stub and announces the transfer; an error shows the platform's own text; a rejected
      biometric shows a fixed message. */
  function OnPromptResult(s: Screen, result: PromptResult): (r: Reaction<Screen>)
    ensures result.Error? ==>
      && r.spoken.Some? && |r.spoken.value| >= |result.message|
      && r.spoken.value[|r.spoken.value| - |result.message|..] == result.message
    ensures result.Failed? ==> r.spoken == r.screen.errorMessage
    ensures r.spoken.Some?
    ensures result.Error? ==> r.screen.errorMessage == Some(result.message)
    ensures result.Failed? ==> r.screen.errorMessage == Some(AuthFailedMessage)
    ensures result.Succeeded? ==> r.screen == s
    ensures r.screen.(errorMessage := s.errorMessage) == s
    ensures !r.prompt
  {
    match result
    case Succeeded =>
      Reaction(s, Some("Money sent successfully to " + s.recipient), false)
    case Error(_, message) =>
      Reaction(s.(errorMessage := Some(message)), Some("Authentication failed: " + message), false)
    case Failed =>
      Reaction(s.(errorMessage := Some(AuthFailedMessage)), Some(AuthFailedMessage), false)
  }

  /** One action. A disabled button delivers no click, so a click on an invalid form does
      nothing. */
  function Apply(s: Screen, a: Action): Reaction<Screen>
  {
    match a
    case EditAmount(v) => OnAmountChange(s, v)
    case EditRecipient(v) => OnRecipientChange(s, v)
    case ClickSend => if Enabled(s) then OnSendClick(s) else Ignore(s)
    case AvailabilityChecked(code) => Reaction(s.(biometricStatus := StatusFromCode(code)), None, false)
    case PromptFinished(result) => OnPromptResult(s, result)
  }

  /** The screen after a sequence of actions. */
  function Run(s: Screen, actions: seq<Action>): Screen
    decreases |actions|
  {
    if |actions| == 0 then s else Run(Apply(s, actions[0]).screen, actions[1..])
  }

  /** What holds of every screen the user can reach: each field passes its own filter and
      no error flag is ever raised. */
  predicate Invariant(s: Screen)
  {
    && PhoneEditAccepted(s.recipient)
    && CurrencyShape(s.amount)
    && !s.isAmountError
    && !s.isRecipientError
  }

  lemma ApplyPreserves(s: Screen, a: Action)
    requires Invariant(s)
    ensures Invariant(Apply(s, a).screen)
  {
  }

  lemma {:induction false} Reachable(s: Screen, actions: seq<Action>)
    requires Invariant(s)
    ensures Invariant(Run(s, actions))
    decreases |actions|
  {
    if |actions| > 0 {
      ApplyPreserves(s, actions[0]);
      Reachable(Apply(s, actions[0]).screen, actions[1..]);
    }
  }

  /** Every screen reachable from the initial one keeps the invariant, so on any of them
      the send button is enabled exactly when the amount is positive and the recipient
      has at least ten digits. */
  lemma ReachableFromInitial(actions: seq<Action>)
    ensures Invariant(Run(Initial, actions))
    ensures var s := Run(Initial, actions);
      Enabled(s) <==> AmountValid(s.amount) && |s.recipient| >= 10
  {
    assert AllAsciiDigits(Initial.amount);
    Reachable(Initial, actions);
  }

  /** The click handler's validation branch is dead: the prompt opens only for a valid
      form with biometrics available, and the validation message is never spoken. */
  lemma ClickOutcomes(s: Screen)
    ensures Apply(s, ClickSend).spoken != Some(ValidationFailedSpeech)
    ensures Apply(s, ClickSend).prompt <==> Enabled(s) && s.biometricStatus == Available
  {
  }

  /** The availability check never leaves the status unchecked, and only a success code
      lets a valid form reach the prompt. */
  lemma CheckedStatusGatesPrompt(s: Screen, code: int)
    requires Enabled(s)
    ensures var t := Apply(s, AvailabilityChecked(code)).screen;
      && t.biometricStatus != NotChecked
      && (Apply(t, ClickSend).prompt <==> code == BiometricSuccess)
  {
  }
}
