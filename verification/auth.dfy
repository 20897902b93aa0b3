/** The authentication gate's view model: events in, a state and one side effect out.

    The view model consumes events from a channel in order; each handler overwrites the
    state and sends exactly one effect on a second channel. Without the channels this is
    a step function per event and a left fold over the event sequence. */
module Auth {

  datatype Event =
    | InitiateBiometric
    | AuthenticationSucceeded
    | AuthenticationFailed(error: string)
    | RetryAuthentication
    | SkipAuthentication  // handled, but no screen ever sends it

  datatype State = Initial | Loading | Authenticated | Error(message: string)

  datatype Effect = NavigateToHome | ShowError(message: string) | ShowBiometricPrompt

  /** The state and effect one event's handler produces. */
  datatype Outcome = Outcome(state: State, effect: Effect)

  /** The view model: its current state and every effect sent so far, oldest first. */
  datatype Machine = Machine(state: State, effects: seq<Effect>)

  /** A fresh view model: state `Initial`, no effect sent. */
  const Start: Machine := Machine(Initial, [])

  /** The dispatch on the event and the handler it selects. The outcome does not depend on
      the state before the event. */
  function Step(e: Event): (r: Outcome)
    ensures r.effect == NavigateToHome <==> r.state == Authenticated
    ensures r.state.Error? <==> e.AuthenticationFailed?
    ensures r.effect.ShowError? <==> r.state.Error?
    ensures r.state.Error? ==> r.state.message == e.error && r.effect == ShowError(e.error)
    ensures r.effect == ShowBiometricPrompt <==> r.state in {Initial, Loading}
  {
    match e
    case InitiateBiometric => Outcome(Loading, ShowBiometricPrompt)
    case AuthenticationSucceeded => Outcome(Authenticated, NavigateToHome)
    case AuthenticationFailed(error) => Outcome(Error(error), ShowError(error))
    case RetryAuthentication => Outcome(Initial, ShowBiometricPrompt)
    case SkipAuthentication => Outcome(Authenticated, NavigateToHome)
  }

  /** Handling one event: the state is replaced and the effect appended. */
  function Process(m: Machine, e: Event): (r: Machine)
    ensures |r.effects| == |m.effects| + 1 && r.effects[..|m.effects|] == m.effects
    ensures r.effects[|m.effects|] == NavigateToHome <==> r.state == Authenticated
    ensures r.effects[|m.effects|].ShowError? <==> e.AuthenticationFailed?
    ensures r.state.Error? ==> r.effects[|m.effects|] == ShowError(r.state.message)
  {
    var o := Step(e);
    Machine(o.state, m.effects + [o.effect])
  }

  /** Handling a sequence of events in order. */
  function Run(m: Machine, events: seq<Event>): (r: Machine)
    ensures |r.effects| == |m.effects| + |events|
    ensures r.effects[..|m.effects|] == m.effects
    ensures forall i :: 0 <= i < |events| ==> r.effects[|m.effects| + i] == Step(events[i]).effect
    ensures |events| == 0 ==> r.state == m.state
    ensures |events| > 0 ==> r.state == Step(events[|events| - 1]).state
    decreases |events|
  {
    if |events| == 0 then m
    else Process(Run(m, events[..|events| - 1]), events[|events| - 1])
  }

  /** Before any event the view model is in `Initial` and has sent nothing. */
  lemma FreshViewModel()
    ensures Run(Start, []).state == Initial && Run(Start, []).effects == []
  {
  }

  /** Handling `a` and then `b` is handling `a + b`. */
  lemma {:induction false} RunConcat(m: Machine, a: seq<Event>, b: seq<Event>)
    ensures Run(Run(m, a), b) == Run(m, a + b)
    decreases |b|
  {
    if |b| == 0 {
      assert a + b == a;
    } else {
      var b' := b[..|b| - 1];
      assert (a + b)[..|a + b| - 1] == a + b';
      RunConcat(m, a, b');
    }
  }

  /** Effect `i` of a run is `NavigateToHome` exactly when the state right after event `i`
      is `Authenticated`. */
  lemma NavigateExactlyWhenAuthenticated(m: Machine, events: seq<Event>, i: nat)
    requires i < |events|
    ensures Run(m, events).effects[|m.effects| + i] == NavigateToHome
        <==> Run(m, events[..i + 1]).state == Authenticated
  {
    assert events[..i + 1][i] == events[i];
  }

  /** A failure followed by nothing else leaves an error state whose message is the last
      effect's message: the toast and the state show the same text. */
  lemma ErrorMatchesShownMessage(m: Machine, events: seq<Event>)
    requires |events| > 0 && Run(m, events).state.Error?
    ensures Run(m, events).effects[|Run(m, events).effects| - 1]
         == ShowError(Run(m, events).state.message)
  {
  }

  /** `SkipAuthentication` and `AuthenticationSucceeded` are indistinguishable. */
  lemma SkipActsAsSuccess(m: Machine)
    ensures Process(m, SkipAuthentication) == Process(m, AuthenticationSucceeded)
    ensures Step(SkipAuthentication) == Outcome(Authenticated, NavigateToHome)
  {
  }

  /** Starting the prompt shows it and waits; retrying shows it again from `Initial`. */
  lemma PromptEvents()
    ensures Step(InitiateBiometric) == Outcome(Loading, ShowBiometricPrompt)
    ensures Step(RetryAuthentication) == Outcome(Initial, ShowBiometricPrompt)
  {
  }

  /** The state after a run depends on the last event alone, whatever came before and
      whatever the starting state. */
  lemma LastEventDecides(m1: Machine, m2: Machine, a: seq<Event>, b: seq<Event>, e: Event)
    ensures Run(m1, a + [e]).state == Run(m2, b + [e]).state == Step(e).state
  {
    assert (a + [e])[|a + [e]| - 1] == e;
    assert (b + [e])[|b + [e]| - 1] == e;
  }
}
