/**
 * state-management/component-state-manager.ts: the transition rules of a component
 * observer. The manager remembers the last loaded inputs and data (each possibly
 * still the `'INITIAL_VALUE'` sentinel) and the state it last published, and drives
 * the global component loader from the states it publishes.
 */
module StateManager {
  import opened Wrappers
  import opened ObserverState
  import opened ComponentLoading

  /** `InputChangeEventTypes`, with `Unknown` for any other value reaching the
      `switch` default. */
  datatype ChangeType = InputsChange | Refresh | Reload | Unknown(name: string)

  /** An input-change event; its random `eventId` is not part of this model. */
  datatype InputChangeEvent<I> = InputChangeEvent(inputs: Slot<I>, changeType: ChangeType)

  /** `options.loader`: each flag may be missing. */
  datatype LoaderOptions = LoaderOptions(disableGlobalLoader: Option<bool>, blockScreen: Option<bool>)

  /** The options the manager reads: the component id and the optional loader options. */
  datatype Options = Options(componentId: string, loader: Option<LoaderOptions>)

  /** What `makeState` delivered: data, or an error that may be a `TypeError`. */
  datatype MakeStateOutcome<S, E> = Data(data: S) | Failure(err: E, isTypeError: bool)

  /** `isGlobalLoaderEnabled()`: on unless `options.loader.disableGlobalLoader` is set. */
  function IsGlobalLoaderEnabled(options: Options): (b: bool)
    ensures b <==> !(options.loader.Some? && options.loader.value.disableGlobalLoader == Some(true))
  {
    options.loader.None? || (options.loader.Some? && !(options.loader.value.disableGlobalLoader == Some(true)))
  }

  /** `getBlockState()`: `options.loader?.blockScreen ?? false`. */
  function GetBlockState(options: Options): (b: bool)
    ensures b <==> options.loader.Some? && options.loader.value.blockScreen == Some(true)
    ensures options.loader.None? || options.loader.value.blockScreen.None? ==> !b
  {
    match options.loader
    case None => false
    case Some(l) => if l.blockScreen.Some? then l.blockScreen.value else false
  }

  /** The first published state: initial loading, no data, no inputs, no error. */
  function InitialObserver<I, S, E>(): (s: ComponentObserverState<I, S, E>)
    ensures s.IsInitialLoading() && s.IsLoading()
    ensures s.OkValue() == InitialValue && s.ActivatedInputs() == InitialValue && s.error == None
  {
    MakeState(InitialLoading, InitialValue, InitialValue, None)
  }

  class ComponentStateManager<I, S, E> {
    var activeStateOk: Slot<S>
    var activeInputs: Slot<I>
    var activatedComponentObserver: ComponentObserverState<I, S, E>
    /** The states handed to the observer, in order. */
    var emitted: seq<ComponentObserverState<I, S, E>>
    const options: Options
    const appLoaderService: ComponentLoader

    /** `createComponentState()`'s first state, before any event. */
    constructor(appLoaderService: ComponentLoader, options: Options)
      ensures this.appLoaderService == appLoaderService && this.options == options
      ensures activeStateOk == InitialValue && activeInputs == InitialValue
      ensures activatedComponentObserver == InitialObserver()
      ensures emitted == []
    {
      this.appLoaderService := appLoaderService;
      this.options := options;
      activeStateOk := InitialValue;
      activeInputs := InitialValue;
      activatedComponentObserver := InitialObserver();
      emitted := [];
    }

    /** `isActiveStateAnOkState()`: both inputs and data have left the sentinel. */
    predicate IsActiveStateAnOkState()
      reads this
    {
      activeInputs != InitialValue && activeStateOk != InitialValue
    }

    /** `getComponentLoadState(event)`: a plain load until inputs and data are both
        known; afterwards a reload is a plain load and everything else a data
        transition. */
    function GetComponentLoadState(event: InputChangeEvent<I>): (st: LoadState)
      reads this
      ensures st == Loading || st == DataTransition
      ensures !IsActiveStateAnOkState() ==> st == Loading
      ensures IsActiveStateAnOkState() ==> (st == Loading <==> event.changeType == Reload)
    {
      if IsActiveStateAnOkState() then
        match event.changeType
        case Reload => Loading
        case InputsChange => DataTransition
        case Refresh => DataTransition
        case Unknown(_) => DataTransition
      else Loading
    }

    /** The `requestNewDataEvent()` filter and map: a refresh or reload request is
        dropped while the inputs are the sentinel, and otherwise carries the current
        inputs. */
    function RequestNewDataEvent(changeType: ChangeType): (ev: Option<InputChangeEvent<I>>)
      reads this
      requires changeType == Refresh || changeType == Reload
      ensures ev.None? <==> activeInputs == InitialValue
      ensures ev.Some? ==> ev.value.inputs == activeInputs && ev.value.changeType == changeType
    {
      if activeInputs == InitialValue then None
      else Some(InputChangeEvent(activeInputs, changeType))
    }

    /** `dispatchIntermediateState(componentState)`: a plain load publishes no data
        and no inputs; a data transition republishes the active data and inputs. */
    method DispatchIntermediateState(componentState: LoadState)
      requires componentState == Loading || componentState == DataTransition
      modifies this
      ensures activeStateOk == old(activeStateOk) && activeInputs == old(activeInputs)
      ensures activatedComponentObserver.componentState == componentState
      ensures activatedComponentObserver.error == None
      ensures componentState == Loading ==>
        activatedComponentObserver.OkValue() == Null && activatedComponentObserver.ActivatedInputs() == Null
      ensures componentState == DataTransition ==>
        activatedComponentObserver.OkValue() == activeStateOk
        && activatedComponentObserver.ActivatedInputs() == activeInputs
      ensures emitted == old(emitted) + [activatedComponentObserver]
    {
      var ok := if componentState == Loading then Null else activeStateOk;
      var activated := if componentState == Loading then Null else activeInputs;
      activatedComponentObserver := MakeState(componentState, ok, activated, None);
      emitted := emitted + [activatedComponentObserver];
    }

    /** `setDataLoadedState(event, data)`: records the event's inputs and the data,
        and publishes them as an ok state without error. */
    method SetDataLoadedState(event: InputChangeEvent<I>, data: S)
      modifies this
      ensures activeInputs == event.inputs && activeStateOk == Value(data)
      ensures IsActiveStateAnOkState() <==> event.inputs != InitialValue
      ensures activatedComponentObserver == MakeState(Ok, Value(data), event.inputs, None)
      ensures emitted == old(emitted) + [activatedComponentObserver]
    {
      activeInputs := event.inputs;
      activeStateOk := Value(data);
      activatedComponentObserver := MakeState(Ok, activeStateOk, activeInputs, None);
      emitted := emitted + [activatedComponentObserver];
    }

    /** `setDataLoadErrorState(event, err)`: records the event's inputs and a `null`
        data; a `TypeError` is rethrown (`thrown`) before anything is published,
        any other error is published as an error state carrying `err`. */
    method SetDataLoadErrorState(event: InputChangeEvent<I>, err: E, isTypeError: bool) returns (thrown: bool)
      modifies this
      ensures activeInputs == event.inputs && activeStateOk == Null
      ensures IsActiveStateAnOkState() <==> event.inputs != InitialValue
      ensures thrown <==> isTypeError
      ensures thrown ==> activatedComponentObserver == old(activatedComponentObserver) && emitted == old(emitted)
      ensures !thrown ==>
        activatedComponentObserver == MakeState(Error, Null, event.inputs, Some(err))
        && emitted == old(emitted) + [activatedComponentObserver]
    {
      activeInputs := event.inputs;
      activeStateOk := Null;
      if isTypeError {
        return true;
      }
      thrown := false;
      activatedComponentObserver := MakeState(Error, Null, activeInputs, Some(err));
      emitted := emitted + [activatedComponentObserver];
    }

    /** One event through `evaluateInputsAndMakeState`, for a `makeState` that
        delivers `outcome`: the intermediate state is published only when the
        current state is not the initial load, then the outcome is recorded. */
    method HandleEvent(event: InputChangeEvent<I>, outcome: MakeStateOutcome<S, E>) returns (thrown: bool)
      modifies this
      ensures var st := old(GetComponentLoadState(event));
        var intermediate := if old(activatedComponentObserver).IsInitialLoading() then []
          else [MakeState(st, if st == Loading then Null else old(activeStateOk),
                          if st == Loading then Null else old(activeInputs), None)];
        match outcome
        case Data(d) =>
          && !thrown
          && activeInputs == event.inputs && activeStateOk == Value(d)
          && activatedComponentObserver == MakeState(Ok, Value(d), event.inputs, None)
          && emitted == old(emitted) + intermediate + [activatedComponentObserver]
        case Failure(err, isTypeError) =>
          && (thrown <==> isTypeError)
          && activeInputs == event.inputs && activeStateOk == Null
          && (!isTypeError ==> activatedComponentObserver == MakeState(Error, Null, event.inputs, Some(err)))
          // a TypeError leaves the intermediate state, if any, as the active one
          && (isTypeError ==>
                activatedComponentObserver == if intermediate == [] then old(activatedComponentObserver) else intermediate[0])
          && emitted == old(emitted) + intermediate
            + (if isTypeError then [] else [activatedComponentObserver])
    {
      var componentState := GetComponentLoadState(event);
      if !activatedComponentObserver.IsInitialLoading() {
        DispatchIntermediateState(componentState);
      }
      match outcome {
        case Data(d) =>
          SetDataLoadedState(event, d);
          thrown := false;
        case Failure(err, isTypeError) =>
          thrown := SetDataLoadErrorState(event, err, isTypeError);
      }
    }

    /** After a failed load, the next refresh publishes a data transition, which
        counts as `isOkOrDataTransition`, carrying `null` data: the error step
        stored `null` as the active data and that is not the sentinel. */
    static method ErrorThenRefresh(appLoaderService: ComponentLoader, options: Options,
                                   inputs: I, err: E, data: S)
      returns (transition: ComponentObserverState<I, S, E>)
      ensures transition.IsOkOrDataTransition() && transition.OkValue() == Null
      ensures transition.ActivatedInputs() == Value(inputs)
    {
      var m := new ComponentStateManager(appLoaderService, options);
      var _ := m.HandleEvent(InputChangeEvent(Value(inputs), InputsChange), Failure(err, false));
      assert |m.emitted| == 1;
      var refresh := m.RequestNewDataEvent(Refresh);
      var _ := m.HandleEvent(refresh.value, Data(data));
      assert |m.emitted| == 3;
      transition := m.emitted[1];
    }

    /** `updateGlobalLoader(state)`: a loading state marks the component as loading,
        any other state marks it as not loading, both with the configured
        `blockScreen`. */
    method UpdateGlobalLoader(state: ComponentObserverState<I, S, E>)
      requires appLoaderService.Valid()
      modifies appLoaderService
      ensures appLoaderService.Valid()
      ensures state.IsLoading() ==>
        appLoaderService.Snapshot()
          == MarkLoadingStep(old(appLoaderService.Snapshot()), options.componentId, GetBlockState(options))
      ensures !state.IsLoading() ==>
        appLoaderService.Snapshot()
          == MarkNotLoadingStep(old(appLoaderService.Snapshot()), options.componentId, GetBlockState(options))
    {
      if state.IsLoading() {
        var _ := appLoaderService.MarkLoading(options.componentId, GetBlockState(options));
      } else {
        var _ := appLoaderService.MarkNotLoading(options.componentId, GetBlockState(options));
      }
    }

    /** `cleanupState()`: detaches the component's loader when the global loader is on. */
    method CleanupState()
      requires appLoaderService.Valid()
      modifies appLoaderService
      ensures appLoaderService.Valid()
      ensures IsGlobalLoaderEnabled(options) ==>
        appLoaderService.Snapshot() == DetachStep(old(appLoaderService.Snapshot()), options.componentId)
      ensures !IsGlobalLoaderEnabled(options) ==>
        appLoaderService.Snapshot() == old(appLoaderService.Snapshot())
    {
      if IsGlobalLoaderEnabled(options) {
        var _ := appLoaderService.DetachLoader(options.componentId);
      }
    }
  }
}
