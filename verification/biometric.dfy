/** Biometric availability as the money screens track it, and the outcomes the platform's
    biometric prompt reports back. */
module Biometric {

  /** The screens' `BiometricStatus` enum. */
  datatype Status = NotChecked | Available | NotAvailable | NotEnrolled

  /** Every screen starts out not having asked the platform yet. */
  const InitialStatus: Status := NotChecked

  /** Result codes of `BiometricManager.canAuthenticate` that the screens distinguish. */
  const BiometricSuccess: int := 0
  const ErrorNoneEnrolled: int := 11
  const ErrorNoHardware: int := 12

  /** The `when` over the availability code: success means available, no enrolled
      biometric means not enrolled, and no hardware or any other code means not
      available. */
  function StatusFromCode(code: int): (status: Status)
    ensures status != NotChecked
    ensures status == Available <==> code == BiometricSuccess
    ensures status == NotEnrolled <==> code == ErrorNoneEnrolled
    ensures status == NotAvailable <==> code != BiometricSuccess && code != ErrorNoneEnrolled
  {
    if code == BiometricSuccess then Available
    else if code == ErrorNoHardware then NotAvailable
    else if code == ErrorNoneEnrolled then NotEnrolled
    else NotAvailable
  }

  /** The three callbacks of `BiometricPrompt.AuthenticationCallback`. */
  datatype PromptResult =
    | Succeeded
    | Error(code: int, message: string)  // onAuthenticationError(errorCode, errString)
    | Failed                             // onAuthenticationFailed(): not recognised
}
