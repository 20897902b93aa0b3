/** Small value types shared by the three money screens. */
module Common {

  /** A value that may be absent: Kotlin's nullable types (`String?`, `Int?`). */
  datatype Option<+T> = None | Some(value: T)

  /** What a screen does in answer to one user or platform event: the screen state
      afterwards, the text it asks the speech engine to read out (if any), and whether
      it opens the biometric prompt. */
  datatype Reaction<S> = Reaction(screen: S, spoken: Option<string>, prompt: bool)

  /** The branch a submit button's click handler takes. */
  datatype Decision = ValidationFailed | BiometricUnavailable | ShowPrompt

  /** A reaction that leaves the screen alone and does nothing else. */
  function Ignore<S>(s: S): Reaction<S>
  {
    Reaction(s, None, false)
  }
}
