/**
 * state-management/component-observer-state.ts: the immutable state a component
 * observer publishes, with its load state, its error, the data of the last
 * successful load and the inputs it was made from.
 */
module ObserverState {
  import opened Wrappers

  /** `ComponentObserverLoadState`. */
  datatype LoadState = InitialLoading | Loading | DataTransition | Error | Ok

  /** A data slot that may still hold the `'INITIAL_VALUE'` sentinel, or `null`. */
  datatype Slot<T> = InitialValue | Null | Value(v: T)

  /** `ComponentObserverState`: `error` is `None` for `null`. */
  datatype ComponentObserverState<I, S, E> = ComponentObserverState(
    componentState: LoadState,
    error: Option<E>,
    okData: Slot<S>,
    activatedInputsData: Slot<I>)
  {
    /** The `isInitialLoading` getter. */
    predicate IsInitialLoading() {
      componentState == InitialLoading
    }

    /** The `isLoading` getter. */
    predicate IsLoading() {
      componentState == InitialLoading || componentState == Loading || componentState == DataTransition
    }

    /** The `isOk` getter. */
    predicate IsOk() {
      componentState == Ok
    }

    /** The `isOkOrDataTransition` getter. */
    predicate IsOkOrDataTransition() {
      componentState == Ok || componentState == DataTransition
    }

    /** `isError()`. */
    predicate IsError() {
      componentState == Error
    }

    /** The `ok` getter: the stored data, unchanged. */
    function OkValue(): Slot<S> {
      okData
    }

    /** The `activatedInputs` getter: the stored inputs, unchanged. */
    function ActivatedInputs(): Slot<I> {
      activatedInputsData
    }
  }

  /** The constructor: stores its four properties unchanged. */
  function MakeState<I, S, E>(componentState: LoadState, ok: Slot<S>, activatedInputs: Slot<I>, error: Option<E>)
    : ComponentObserverState<I, S, E>
  {
    ComponentObserverState(componentState, error, ok, activatedInputs)
  }

  /** Every state is exactly one of loading, ok and error. */
  lemma ExactlyOneOfLoadingOkError<I, S, E>(s: ComponentObserverState<I, S, E>)
    ensures s.IsLoading() || s.IsOk() || s.IsError()
    ensures !(s.IsLoading() && s.IsOk()) && !(s.IsLoading() && s.IsError()) && !(s.IsOk() && s.IsError())
  {
  }

  /** The initial load is a load, and the only one that is neither a plain load
      nor a data transition. */
  lemma InitialLoadingIsLoading<I, S, E>(s: ComponentObserverState<I, S, E>)
    ensures s.IsInitialLoading() ==> s.IsLoading() && !s.IsOkOrDataTransition()
    ensures s.IsLoading() && !s.IsInitialLoading() <==> s.componentState in {Loading, DataTransition}
  {
  }

  /** `isOkOrDataTransition` is `isOk`, or a load that keeps the previous data on
      screen; it never holds for an error. */
  lemma OkOrDataTransitionSplit<I, S, E>(s: ComponentObserverState<I, S, E>)
    ensures s.IsOkOrDataTransition() <==> s.IsOk() || (s.IsLoading() && s.componentState == DataTransition)
    ensures s.IsError() ==> !s.IsOkOrDataTransition()
  {
  }
}
