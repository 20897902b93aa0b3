/** The Withdraw Money screen ("Toa Pesa"): an account-number field, an amount field,
    four denomination buttons and a withdraw button guarded by validation and biometric
    availability. */
module WithdrawMoney {
  import opened Common
  import opened Text
  import opened Amount
  import opened Biometric

  /** The screen's remembered state. The two error flags are only ever cleared. */
  datatype Screen = Screen(
    amount: string,
    accountNumber: string,
    selectedDenomination: Option<nat>,
    isAmountError: bool,
    isAccountError: bool,
    errorMessage: Option<string>,
    biometricStatus: Status)

  const Initial: Screen := Screen("", "", None, false, false, None, InitialStatus)

  /** The denomination buttons, in screen order. */
  const Denominations: seq<nat> := [1000, 2000, 5000, 10000]

  const AccountLength: nat := 16

  const AccountSpeech: string := "Account number entered: "
  const ValidationFailedSpeech: string := "Form validation failed. Please check inputs"
  const NotAvailableMessage: string := "Biometric authentication not available"
  const AuthFailedMessage: string := "Authentication failed"

  /** What the user or the platform can do to the screen. */
  datatype Action =
    | EditAccount(value: string)
    | EditAmount(value: string)
    | PressDenomination(denomination: nat)
    | ClickWithdraw
    | AvailabilityChecked(code: int)
    | PromptFinished(result: PromptResult)

  /** The account field's edit filter: at most 16 characters, all digits. */
  predicate AccountEditAccepted(v: string)
  {
    |v| <= AccountLength && AllDigits(v)
  }

  /** The amount field's edit filter: empty, or matching `^\d*\.?\d*$`. */
  predicate AmountEditAccepted(v: string)
  {
    |v| == 0 || CurrencyShape(v)
  }

  /** The amount clause of `validateWithdrawForm`: a positive multiple of 1000. */
  function AmountValid(amount: string): (valid: bool)
    ensures valid <==>
      Parse(amount).Some? && Value(Parse(amount).value) > 0.0
      && IsWholeMultiple(Value(Parse(amount).value), 1000)
    ensures valid ==> CurrencyShape(amount)
  {
    match Parse(amount)
    case None => false
    case Some(d) =>
      PositiveMeansValue(d);
      MultipleMeansValue(d, 1000);
      IsPositive(d) && IsMultipleOf(d, 1000)
  }

  /** `validateWithdrawForm`: a valid amount and an account number of exactly 16 digits. */
  function ValidateWithdrawForm(amount: string, accountNumber: string): (valid: bool)
    ensures valid ==> |accountNumber| == 16 && AllDigits(accountNumber)
    ensures valid ==> Parse(amount).Some? && Value(Parse(amount).value) > 0.0
    ensures valid <==> AmountValid(amount) && |accountNumber| == 16 && AllDigits(accountNumber)
    ensures Parse(amount).None? ==> !valid
  {
    AmountValid(amount) && |accountNumber| == AccountLength && AllDigits(accountNumber)
  }

  /** `isDigit` is Unicode-wide: any sixteen Arabic-Indic digits pass the account filter
      and the account clause of validation, although none of them is an ASCII digit. */
  lemma NonAsciiAccountAccepted(account: string)
    requires |account| == AccountLength
    requires forall i :: 0 <= i < |account| ==> InRun(account[i], 0x0660)
    ensures AccountEditAccepted(account)
    ensures forall amount :: ValidateWithdrawForm(amount, account) <==> AmountValid(amount)
    ensures ValidateWithdrawForm("1000", account)
    ensures !AllAsciiDigits(account)
  {
    assert !IsAsciiDigit(account[0]);
    assert DecimalString(1) == "1";
    assert DecimalString(10) == "10";
    assert DecimalString(100) == "100";
    assert DecimalString(1000) == "1000";
    DenominationAmountValid(1000);
  }

  /** The withdraw button is enabled exactly when the form validates. */
  function Enabled(s: Screen): (enabled: bool)
    ensures enabled <==> Decide(s) != ValidationFailed
    ensures enabled ==> Parse(s.amount).Some? && |s.accountNumber| == AccountLength
  {
    ValidateWithdrawForm(s.amount, s.accountNumber)
  }

  /** What the user has typed in the account field. A rejected edit changes nothing; an
      accepted one stores the value, clears the field's error flag and reads the number
      back in groups of four. */
  function OnAccountChange(s: Screen, v: string): (r: Reaction<Screen>)
    ensures r.screen.accountNumber == if AccountEditAccepted(v) then v else s.accountNumber
    ensures r.screen.(accountNumber := s.accountNumber, isAccountError := s.isAccountError) == s
    ensures AccountEditAccepted(v) ==> !r.screen.isAccountError
    ensures !AccountEditAccepted(v) ==> r.screen == s && r.spoken == None
    ensures r.spoken.Some? <==> AccountEditAccepted(v)
    ensures r.spoken.Some? ==>
      && |r.spoken.value| >= |AccountSpeech|
      && r.spoken.value[..|AccountSpeech|] == AccountSpeech
      && RemoveSpaces(r.spoken.value[|AccountSpeech|..]) == v
    ensures !r.prompt
  {
    if AccountEditAccepted(v) then
      DigitsHaveNoSpace(v);
      ReadBackRestores(v, 4);
      var text := AccountSpeech + ReadBack(v, 4);
      assert text[|AccountSpeech|..] == ReadBack(v, 4);
      Reaction(s.(accountNumber := v, isAccountError := false), Some(text), false)
    else
      Ignore(s)
  }

  /** What the user has typed in the amount field, through the currency filter. */
  function OnAmountChange(s: Screen, v: string): (r: Reaction<Screen>)
    ensures r.screen.amount == if AmountEditAccepted(v) then v else s.amount
    ensures r.screen.(amount := s.amount, isAmountError := s.isAmountError) == s
    ensures AmountEditAccepted(v) ==> !r.screen.isAmountError
    ensures !AmountEditAccepted(v) ==> r.screen == s && r.spoken == None
    ensures CurrencyShape(s.amount) ==> CurrencyShape(r.screen.amount)
    ensures !r.prompt
  {
    if AmountEditAccepted(v) then
      Reaction(s.(amount := v, isAmountError := false),
               Some("Amount entered: " + v + " shillings"), false)
    else
      Ignore(s)
  }

  /** Amount digits in another script are stored, since the filter's `\d` is Unicode-wide,
      but they never parse, so the withdraw button stays disabled. */
  lemma NonAsciiAmountStored(s: Screen, v: string)
    requires |v| > 0 && forall i :: 0 <= i < |v| ==> IsRegexDigit(v[i]) && !IsAsciiDigit(v[i])
    ensures OnAmountChange(s, v).screen.amount == v
    ensures !AmountValid(v) && !ValidateWithdrawForm(v, s.accountNumber)
  {
    NonAsciiAmountUnparsed(v);
  }

  /** A denomination button: it marks itself selected and puts its decimal string in the
      amount field, which then satisfies the amount clause of validation. */
  function OnDenomination(s: Screen, d: nat): (r: Reaction<Screen>)
    ensures d in Denominations ==>
      && r.screen.selectedDenomination == Some(d)
      && Parse(r.screen.amount) == Some(Decimal(d, 0))
      && AmountValid(r.screen.amount)
      && r.screen.(amount := s.amount, selectedDenomination := s.selectedDenomination) == s
    ensures d !in Denominations ==> r.screen == s
    ensures !r.prompt
  {
    if d in Denominations then
      DenominationAmountValid(d);
      Reaction(s.(selectedDenomination := Some(d), amount := DecimalString(d)),
               Some("Selected denomination: " + DecimalString(d) + " shillings"), false)
    else
      Ignore(s)
  }

  /** The decimal string of every denomination parses to that denomination, a positive
      multiple of 1000. */
  lemma DenominationAmountValid(d: nat)
    requires d in Denominations
    ensures Parse(DecimalString(d)) == Some(Decimal(d, 0))
    ensures AmountValid(DecimalString(d))
  {
    assert d > 0 && d % 1000 == 0;
    WholeThousandsValid(d);
  }

  /** The decimal string of a positive whole number of thousands is a valid amount. */
  lemma WholeThousandsValid(n: nat)
    requires n > 0 && n % 1000 == 0
    ensures Parse(DecimalString(n)) == Some(Decimal(n, 0))
    ensures AmountValid(DecimalString(n))
  {
    ParseDecimalString(n);
    assert Pow10(0) == 1;
    assert IsPositive(Decimal(n, 0)) && IsMultipleOf(Decimal(n, 0), 1000);
  }

  /** A denomination button's caption: its value divided by 1000, then "K". */
  function DenominationLabel(d: nat): (caption: string)
    ensures |caption| >= 2 && caption[|caption| - 1] == 'K'
    ensures AllAsciiDigits(caption[..|caption| - 1])
  {
    assert (DecimalString(d / 1000) + "K")[..|DecimalString(d / 1000)|] == DecimalString(d / 1000);
    DecimalString(d / 1000) + "K"
  }

  /** Each caption ends in "K" after digits naming the thousands, so the four captions
      tell the four denominations apart. */
  lemma LabelNamesThousands(d: nat)
    requires d in Denominations
    ensures DenominationLabel(d)[|DenominationLabel(d)| - 1] == 'K'
    ensures Parse(DenominationLabel(d)[..|DenominationLabel(d)| - 1]) == Some(Decimal(d / 1000, 0))
    ensures (d / 1000) * 1000 == d
  {
    var caption := DenominationLabel(d);
    assert caption[..|caption| - 1] == DecimalString(d / 1000);
    ParseDecimalString(d / 1000);
  }

  lemma LabelsDistinct(d1: nat, d2: nat)
    requires d1 in Denominations && d2 in Denominations && d1 != d2
    ensures DenominationLabel(d1) != DenominationLabel(d2)
  {
    LabelNamesThousands(d1);
    LabelNamesThousands(d2);
  }

  /** The click handler's `when`: validation first, then biometric availability. */
  function Decide(s: Screen): (d: Decision)
    ensures d == ValidationFailed <==> !ValidateWithdrawForm(s.amount, s.accountNumber)
    ensures d == BiometricUnavailable <==>
      ValidateWithdrawForm(s.amount, s.accountNumber) && s.biometricStatus != Available
    ensures d == ShowPrompt <==>
      ValidateWithdrawForm(s.amount, s.accountNumber) && s.biometricStatus == Available
  {
    if !ValidateWithdrawForm(s.amount, s.accountNumber) then ValidationFailed
    else if s.biometricStatus != Available then BiometricUnavailable
    else ShowPrompt
  }

  /** The withdraw button's click handler. */
  function OnWithdrawClick(s: Screen): (r: Reaction<Screen>)
    ensures r.prompt <==> Decide(s) == ShowPrompt
    ensures Decide(s) == BiometricUnavailable ==>
      r.screen == s.(errorMessage := Some(NotAvailableMessage)) && r.spoken == Some(NotAvailableMessage)
    ensures Decide(s) == ValidationFailed ==> r.screen == s && r.spoken == Some(ValidationFailedSpeech)
    ensures Decide(s) == ShowPrompt ==> r.screen == s && r.spoken == None
  {
    match Decide(s)
    case ValidationFailed => Reaction(s, Some(ValidationFailedSpeech), false)
    case BiometricUnavailable =>
      Reaction(s.(errorMessage := Some(NotAvailableMessage)), Some(NotAvailableMessage), false)
    case ShowPrompt => Reaction(s, None, true)
  }

  /** The prompt's callbacks. Success hands the amount and account to an empty view-model
      stub and announces the withdrawal; an error shows the platform's own text; a
      rejected biometric shows a fixed message. */
  function OnPromptResult(s: Screen, result: PromptResult): (r: Reaction<Screen>)
    ensures result.Error? ==>
      && r.spoken.Some? && |r.spoken.value| >= |result.message|
      && r.spoken.value[|r.spoken.value| - |result.message|..] == result.message
    ensures result.Failed? ==> r.spoken == r.screen.errorMessage
    ensures r.spoken.Some?
    ensures result.Error? ==> r.screen.errorMessage == Some(result.message)
    ensures result.Failed? ==> r.screen.errorMessage == Some(AuthFailedMessage)
    ensures result.Succeeded? ==> r.screen == s
    ensures r.screen.(errorMessage := s.errorMessage) == s
    ensures !r.prompt
  {
    match result
    case Succeeded =>
      Reaction(s, Some("Withdrawal of " + s.amount + " shillings initiated from account " + s.accountNumber), false)
    case Error(_, message) =>
      Reaction(s.(errorMessage := Some(message)), Some("Authentication failed: " + message), false)
    case Failed =>
      Reaction(s.(errorMessage := Some(AuthFailedMessage)), Some(AuthFailedMessage), false)
  }

  /** One action. A disabled button delivers no click, so a click on an invalid form does
      nothing. */
  function Apply(s: Screen, a: Action): Reaction<Screen>
  {
    match a
    case EditAccount(v) => OnAccountChange(s, v)
    case EditAmount(v) => OnAmountChange(s, v)
    case PressDenomination(d) => OnDenomination(s, d)
    case ClickWithdraw => if Enabled(s) then OnWithdrawClick(s) else Ignore(s)
    case AvailabilityChecked(code) => Reaction(s.(biometricStatus := StatusFromCode(code)), None, false)
    case PromptFinished(result) => OnPromptResult(s, result)
  }

  /** The screen after a sequence of actions. */
  function Run(s: Screen, actions: seq<Action>): Screen
    decreases |actions|
  {
    if |actions| == 0 then s else Run(Apply(s, actions[0]).screen, actions[1..])
  }

  /** What holds of every screen the user can reach: each field passes its own filter, a
      selected denomination is one of the buttons, and no error flag is ever raised. */
  predicate Invariant(s: Screen)
  {
    && AccountEditAccepted(s.accountNumber)
    && CurrencyShape(s.amount)
    && (s.selectedDenomination.Some? ==> s.selectedDenomination.value in Denominations)
    && !s.isAmountError
    && !s.isAccountError
  }

  lemma ApplyPreserves(s: Screen, a: Action)
    requires Invariant(s)
    ensures Invariant(Apply(s, a).screen)
  {
    match a
    case PressDenomination(d) =>
      if d in Denominations {
        ParseDecimalString(d);
      }
    case _ =>
  }

  lemma {:induction false} Reachable(s: Screen, actions: seq<Action>)
    requires Invariant(s)
    ensures Invariant(Run(s, actions))
    decreases |actions|
  {
    if |actions| > 0 {
      ApplyPreserves(s, actions[0]);
      Reachable(Apply(s, actions[0]).screen, actions[1..]);
    }
  }

  /** Every screen reachable from the initial one keeps the invariant; in particular its
      amount is always of the currency shape, so it never holds an exponent or a sign. */
  lemma ReachableFromInitial(actions: seq<Action>)
    ensures Invariant(Run(Initial, actions))
  {
    assert AllAsciiDigits(Initial.amount);
    Reachable(Initial, actions);
  }

  /** The click handler's validation branch is dead: the prompt opens only for a valid
      form with biometrics available, and the validation message is never spoken. */
  lemma ClickOutcomes(s: Screen)
    ensures Apply(s, ClickWithdraw).spoken != Some(ValidationFailedSpeech)
    ensures Apply(s, ClickWithdraw).prompt <==> Enabled(s) && s.biometricStatus == Available
  {
  }

  /** A valid form submitted before the availability check has answered is refused as
      if biometrics were unavailable. */
  lemma ClickBeforeCheck(s: Screen)
    requires Enabled(s) && s.biometricStatus == NotChecked
    ensures Apply(s, ClickWithdraw).screen.errorMessage == Some(NotAvailableMessage)
    ensures !Apply(s, ClickWithdraw).prompt
  {
  }
}
