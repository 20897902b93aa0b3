/** The Pay Bills screen ("Lipa Bill"): a bill-type selector, a bill-number field, an
    unfiltered amount field, and a pay button guarded by validation only. */
module PayBills {
  import opened Common
  import opened Text
  import opened Amount
  import opened Biometric

  /** The screen's remembered state. The two error flags are only ever cleared. */
  datatype Screen = Screen(
    amount: string,
    billNumber: string,
    selectedBillType: string,
    isAmountError: bool,
    isBillNumberError: bool,
    errorMessage: Option<string>)

  const Initial: Screen := Screen("", "", "", false, false, None)

  /** The bill-type menu entries, in menu order. */
  const BillTypes: seq<string> := ["Electricity", "Water", "Internet", "TV Subscription"]

  const MaxBillNumberLength: nat := 20

  const BillNumberSpeech: string := "Bill number: "
  const ValidationFailedSpeech: string := "Please fill all fields correctly"

  /** What the user or the platform can do to the screen. */
  datatype Action =
    | SelectBillType(index: nat)
    | EditBillNumber(value: string)
    | EditAmount(value: string)
    | ClickPay
    | PromptFinished(result: PromptResult)

  /** The bill-number field's edit filter: at most 20 characters, all digits. */
  predicate BillNumberEditAccepted(v: string)
  {
    |v| <= MaxBillNumberLength && AllDigits(v)
  }

  /** The amount clause of `validatePayBillForm`: the amount parses to a positive value. */
  function AmountValid(amount: string): (valid: bool)
    ensures valid <==> Parse(amount).Some? && Value(Parse(amount).value) > 0.0
  {
    match Parse(amount)
    case None => false
    case Some(d) => PositiveMeansValue(d); IsPositive(d)
  }

  /** `validatePayBillForm`: a positive amount, a non-empty all-digit bill number and a
      chosen bill type. */
  function ValidatePayBillForm(amount: string, billNumber: string, billType: string): (valid: bool)
    ensures valid <==>
      && Parse(amount).Some? && Value(Parse(amount).value) > 0.0
      && |billNumber| > 0 && AllDigits(billNumber)
      && |billType| > 0
  {
    AmountValid(amount) && |billNumber| > 0 && AllDigits(billNumber) && |billType| > 0
  }

  /** The pay button is enabled exactly when the form validates. */
  function Enabled(s: Screen): (enabled: bool)
    ensures enabled <==> Decide(s) == ShowPrompt
    ensures enabled ==> Parse(s.amount).Some? && |s.billNumber| > 0 && |s.selectedBillType| > 0
  {
    ValidatePayBillForm(s.amount, s.billNumber, s.selectedBillType)
  }

  /** A bill-type menu item: it stores its entry, which satisfies the bill-type clause. */
  function OnBillTypeSelected(s: Screen, index: nat): (r: Reaction<Screen>)
    ensures index < |BillTypes| ==>
      && r.screen == s.(selectedBillType := BillTypes[index])
      && |r.screen.selectedBillType| > 0
      && r.spoken == Some("Selected bill type: " + BillTypes[index])
    ensures index >= |BillTypes| ==> r.screen == s
    ensures !r.prompt
  {
    if index < |BillTypes| then
      Reaction(s.(selectedBillType := BillTypes[index]),
               Some("Selected bill type: " + BillTypes[index]), false)
    else
      Ignore(s)
  }

  /** What the user has typed in the bill-number field. A rejected edit changes neither
      the number nor its error flag; an accepted one stores the value, clears the flag and
      reads the number back digit by digit. */
  function OnBillNumberChange(s: Screen, v: string): (r: Reaction<Screen>)
    ensures r.screen.billNumber == if BillNumberEditAccepted(v) then v else s.billNumber
    ensures r.screen.(billNumber := s.billNumber, isBillNumberError := s.isBillNumberError) == s
    ensures BillNumberEditAccepted(v) ==> !r.screen.isBillNumberError
    ensures !BillNumberEditAccepted(v) ==> r.screen == s && r.spoken == None
    ensures r.spoken.Some? <==> BillNumberEditAccepted(v)
    ensures r.spoken.Some? ==>
      && |r.spoken.value| >= |BillNumberSpeech|
      && r.spoken.value[..|BillNumberSpeech|] == BillNumberSpeech
      && RemoveSpaces(r.spoken.value[|BillNumberSpeech|..]) == v
    ensures !r.prompt
  {
    if BillNumberEditAccepted(v) then
      DigitsHaveNoSpace(v);
      ReadBackRestores(v, 1);
      var text := BillNumberSpeech + ReadBack(v, 1);
      assert text[|BillNumberSpeech|..] == ReadBack(v, 1);
      Reaction(s.(billNumber := v, isBillNumberError := false), Some(text), false)
    else
      Ignore(s)
  }

  /** The amount field has no filter: every edit is stored as typed. */
  function OnAmountChange(s: Screen, v: string): (r: Reaction<Screen>)
    ensures r.screen == s.(amount := v, isAmountError := false)
    ensures r.spoken == Some("Amount entered: " + v)
    ensures !r.prompt
  {
    Reaction(s.(amount := v, isAmountError := false), Some("Amount entered: " + v), false)
  }

  /** The click handler's `when`: validation only; this screen never consults biometric
      availability. */
  function Decide(s: Screen): (d: Decision)
    ensures d != BiometricUnavailable
    ensures d == ShowPrompt <==> ValidatePayBillForm(s.amount, s.billNumber, s.selectedBillType)
  {
    if !ValidatePayBillForm(s.amount, s.billNumber, s.selectedBillType) then ValidationFailed
    else ShowPrompt
  }

  /** The pay button's click handler. */
  function OnPayClick(s: Screen): (r: Reaction<Screen>)
    ensures r.screen == s
    ensures r.prompt <==> Decide(s) == ShowPrompt
    ensures r.spoken.Some? <==> Decide(s) == ValidationFailed
  {
    match Decide(s)
    case ValidationFailed => Reaction(s, Some(ValidationFailedSpeech), false)
    case ShowPrompt => Reaction(s, None, true)
    // This screen has no availability check, so Decide never yields it.
    case BiometricUnavailable => assert false; Ignore(s)
  }

  /** The prompt's callbacks. Success hands the fields to an empty view-model stub and
      announces the payment; an error shows exactly the platform's text; this screen does
      not override the not-recognised callback, so that one does nothing. */
  function OnPromptResult(s: Screen, result: PromptResult): (r: Reaction<Screen>)
    ensures result.Error? ==>
      && r.spoken.Some? && |r.spoken.value| >= |result.message|
      && r.spoken.value[|r.spoken.value| - |result.message|..] == result.message
    ensures result.Succeeded? ==> r.spoken.Some?
    ensures result.Error? ==> r.screen == s.(errorMessage := Some(result.message))
    ensures !result.Error? ==> r.screen == s
    ensures result.Failed? ==> r.spoken == None
    ensures !r.prompt
  {
    match result
    case Succeeded =>
      Reaction(s, Some("Bill payment successful for " + s.selectedBillType), false)
    case Error(_, message) =>
      Reaction(s.(errorMessage := Some(message)), Some("Authentication failed: " + message), false)
    case Failed => Ignore(s)
  }

  /** One action. A disabled button delivers no click, so a click on an invalid form does
      nothing. */
  function Apply(s: Screen, a: Action): Reaction<Screen>
  {
    match a
    case SelectBillType(i) => OnBillTypeSelected(s, i)
    case EditBillNumber(v) => OnBillNumberChange(s, v)
    case EditAmount(v) => OnAmountChange(s, v)
    case ClickPay => if Enabled(s) then OnPayClick(s) else Ignore(s)
    case PromptFinished(result) => OnPromptResult(s, result)
  }

  /** The screen after a sequence of actions. */
  function Run(s: Screen, actions: seq<Action>): Screen
    decreases |actions|
  {
    if |actions| == 0 then s else Run(Apply(s, actions[0]).screen, actions[1..])
  }

  /** What holds of every screen the user can reach: the bill number passes its filter,
      the bill type is empty or a menu entry, and no error flag is ever raised. Nothing
      constrains the amount. */
  predicate Invariant(s: Screen)
  {
    && BillNumberEditAccepted(s.billNumber)
    && (s.selectedBillType == "" || s.selectedBillType in BillTypes)
    && !s.isAmountError
    && !s.isBillNumberError
  }

  lemma ApplyPreserves(s: Screen, a: Action)
    requires Invariant(s)
    ensures Invariant(Apply(s, a).screen)
  {
  }

  lemma {:induction false} Reachable(s: Screen, actions: seq<Action>)
    requires Invariant(s)
    ensures Invariant(Run(s, actions))
    decreases |actions|
  {
    if |actions| > 0 {
      ApplyPreserves(s, actions[0]);
      Reachable(Apply(s, actions[0]).screen, actions[1..]);
    }
  }

  /** Every screen reachable from the initial one keeps the invariant, so there the
      bill-type clause holds exactly when an entry has been chosen. */
  lemma ReachableFromInitial(actions: seq<Action>)
    ensures Invariant(Run(Initial, actions))
    ensures var s := Run(Initial, actions);
      |s.selectedBillType| > 0 <==> s.selectedBillType in BillTypes
  {
    Reachable(Initial, actions);
  }

  /** Every menu entry is non-empty. */
  lemma BillTypesNonEmpty(i: nat)
    requires i < |BillTypes|
    ensures |BillTypes[i]| > 0
  {
  }

  /** The prompt opens exactly for a valid form, with no availability check; the
      validation message is never spoken because an invalid form disables the button. */
  lemma ClickOutcomes(s: Screen)
    ensures Apply(s, ClickPay).prompt <==> Enabled(s)
    ensures Apply(s, ClickPay).spoken == None
    ensures Apply(s, ClickPay).screen == s
  {
  }
}
