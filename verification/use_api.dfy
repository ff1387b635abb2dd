/**
 * The request-state hook: one state cell `{data, loading, error}` that a
 * request overwrites when it starts and again when it settles, and that a
 * reset clears. The wrapped request function is code outside this model,
 * so its outcome is a parameter; each request is one atomic step.
 */
module ApiHook {
  import opened Builtins

  /** `null` is `None`. */
  datatype ApiState<T> = ApiState(data: Option<T>, loading: bool, error: Option<string>)

  /** The state before any request and after a reset. */
  function Idle<T>(): ApiState<T>
  {
    ApiState(None, false, None)
  }

  /** What a failing request throws: an `Error` carries a message, anything else does not. */
  datatype Thrown = ErrorObject(message: string) | NonError

  /** What the wrapped request function does: resolve with a value or reject. */
  datatype Outcome<T> = Resolved(value: T) | Rejected(reason: Thrown)

  const GenericMessage := "An error occurred"

  /** `error instanceof Error ? error.message : 'An error occurred'` */
  function ErrorMessage(e: Thrown): string
  {
    match e
    case ErrorObject(m) => m
    case NonError => GenericMessage
  }

  /** Entering a request: loading, no error, previous data kept. */
  function Started<T>(s: ApiState<T>): ApiState<T>
  {
    s.(loading := true, error := None)
  }

  /** The state a settled request leaves, whatever was there before. */
  function Settled<T>(o: Outcome<T>): ApiState<T>
  {
    match o
    case Resolved(v) => ApiState(Some(v), false, None)
    case Rejected(e) => ApiState(None, false, Some(ErrorMessage(e)))
  }

  /** No request in flight, and never both data and an error. */
  predicate Quiet<T>(s: ApiState<T>)
  {
    !s.loading && !(s.data.Some? && s.error.Some?)
  }

  /** Starting a request sets `loading`, clears the error and keeps the data. */
  lemma StartedSpec<T>(s: ApiState<T>)
    ensures Started(s).loading && Started(s).error.None? && Started(s).data == s.data
    ensures !Quiet(Started(s))
  {
  }

  /**
   * A settled request is quiet; it holds data exactly when the request
   * resolved (then with the resolved value) and an error exactly when it
   * rejected (then with the error's message, or the generic one for a
   * thrown non-`Error`).
   */
  lemma SettledSpec<T>(o: Outcome<T>)
    ensures Quiet(Settled(o))
    ensures Settled(o).data.Some? <==> o.Resolved?
    ensures Settled(o).error.Some? <==> o.Rejected?
    ensures o.Resolved? ==> Settled(o).data == Some(o.value)
    ensures o.Rejected? && o.reason.ErrorObject? ==> Settled(o).error == Some(o.reason.message)
    ensures o.Rejected? && o.reason.NonError? ==> Settled(o).error == Some(GenericMessage)
  {
  }

  /** The idle state is quiet, so every state the hook rests in is. */
  lemma IdleIsQuiet<T>()
    ensures Quiet(Idle<T>())
    ensures Idle<T>().data.None? && Idle<T>().error.None?
  {
  }

  /** One hook instance, wrapping one request function. */
  class Api<T> {
    var state: ApiState<T>

    constructor()
      ensures state == Idle()
    {
      state := Idle();
    }

    /** `setState(prev => ({...prev, loading: true, error: null}))` */
    method Start()
      modifies this
      ensures state == Started(old(state))
    {
      state := state.(loading := true, error := None);
    }

    /** The request resolved with `v`. */
    method Succeed(v: T)
      modifies this
      ensures state == Settled(Resolved(v))
    {
      state := ApiState(Some(v), false, None);
    }

    /** The request threw `e`. */
    method Fail(e: Thrown)
      modifies this
      ensures state == Settled(Rejected(e))
    {
      state := ApiState(None, false, Some(ErrorMessage(e)));
    }

    /**
     * `execute`: start, then settle with the request's outcome, which is
     * handed back to the caller (the value returned, or the error re-thrown).
     * The previous state leaves no trace.
     */
    method Execute(outcome: Outcome<T>) returns (r: Outcome<T>)
      modifies this
      ensures r == outcome
      ensures state == Settled(outcome)
      ensures Quiet(state)
    {
      Start();
      match outcome {
        case Resolved(v) => Succeed(v);
        case Rejected(e) => Fail(e);
      }
      SettledSpec(outcome);
      r := outcome;
    }

    /** Back to the initial state, whatever the current one; resetting twice is resetting once. */
    method Reset()
      modifies this
      ensures state == Idle()
    {
      state := ApiState(None, false, None);
    }
  }
}
