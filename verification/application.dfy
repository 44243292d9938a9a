/**
 `Application`: owns the platform manager and the window registry, negotiates
 quit, tears everything down on `Dispose` and handles unhandled exceptions.
 The run loop is in module `RunLoop`.
 */
module Applications {
  import opened Common
  import opened Faults
  import opened PlatformTypes
  import opened QuitRequests
  import opened Sdl3Windows
  import opened Sdl3Platform
  import opened SdlNative
  import PlatformInitialize
  import Delegates

  /** `ApplicationInitParams(PlatformManager, WaitForEvents = false)`. */
  datatype ApplicationInitParams = ApplicationInitParams(platformManager: SDL3PlatformManager, waitForEvents: bool)

  /** `new ApplicationInitParams(platformManager)` with the optional member left at its default. */
  function DefaultInitParams(pm: SDL3PlatformManager): (p: ApplicationInitParams)
    ensures p.platformManager == pm && !p.waitForEvents
  {
    ApplicationInitParams(pm, false)
  }

  datatype Application = Application(
    platformManager: SDL3PlatformManager,
    windows: seq<SDL3Window>,         // _windows, in creation order
    isRunning: bool,
    quitCallback: seq<nat>,           // _quitCallback invocation list
    waitForEvents: bool,
    faultHandlerInstalled: bool)      // OnUnhandledException subscribed to AppDomain

  /** `Application.Instance`: its private setter is never called, so it is always null. */
  const Instance: Option<Application> := None

  const SingletonMessage := "Only one Application can exist at a time"
  const TryInitializeCheckText := "PlatformManager.TryInitialize(out var err)"

  /**
   The constructor: the singleton guard (inert, `Instance` being always null),
   then `TryInitialize`, whose failure becomes a `PlatformInitializeException`
   carrying the backend's error string.
   */
  function Construct(params: ApplicationInitParams, sdl: InitAnswer): (r: Outcome<Application>)
    ensures r.Returns? <==> TryInitialize(params.platformManager, sdl).ok
    ensures r.Throws? ==> r.fault == PlatformInitialize.NewException(Some(TryInitializeCheckText), TryInitialize(params.platformManager, sdl).initError)
    ensures r.Throws? && params.platformManager.initialized ==> r.fault.error == Some(AlreadyInitialized)
    ensures r.Returns? ==>
      && r.value.platformManager.initialized
      && r.value.windows == [] && !r.value.isRunning && r.value.quitCallback == []
      && r.value.waitForEvents == params.waitForEvents && r.value.faultHandlerInstalled
  {
    if Instance.Some? then Throws(InvalidOperationException(SingletonMessage))
    else
      var init := TryInitialize(params.platformManager, sdl);
      match PlatformInitialize.ThrowIfFailed(init.ok, init.initError, Some(TryInitializeCheckText))
      case Throws(f) => Throws(f)
      case Returns(_) => Returns(Application(init.manager, [], false, [], params.waitForEvents, true))
  }

  /**
   With the guard inert, `Instance` stays null and construction depends on no
   earlier application: any application with a fresh platform manager whose
   `SDL_Init` succeeds is constructed, however many were constructed before.
   */
  lemma SecondInstanceIsNotRejected(second: ApplicationInitParams, secondSdl: InitAnswer)
    requires !second.platformManager.initialized && secondSdl.ok
    ensures Instance.None?
    ensures Construct(second, secondSdl).Returns?
  {
  }

  /** `OnQuitRequested += o`. */
  function AddQuitRequested(app: Application, o: nat): (r: Application)
    ensures r.quitCallback == app.quitCallback + [o]
    ensures r.(quitCallback := app.quitCallback) == app
  {
    app.(quitCallback := Delegates.Combine(app.quitCallback, o))
  }

  /** `OnQuitRequested -= o`, with the null guard. */
  function RemoveQuitRequested(app: Application, o: nat): (r: Application)
    ensures o !in app.quitCallback ==> r == app
    ensures multiset(r.quitCallback) == multiset(app.quitCallback) - multiset{o}
    ensures r.(quitCallback := app.quitCallback) == app
  {
    app.(quitCallback := Delegates.RemoveIfSubscribed(app.quitCallback, o))
  }

  // ---------------------------------------------------------------------------
  // Windows

  /** Identity of the `w => _windows.Remove(w)` handler `CreateWindow` registers. */
  const RemoveFromWindows: nat := 0

  /**
   The application afterwards, the reference to the new window and the
   warnings its construction logged. `Windows` holds the window objects
   themselves, so the reference `CreateWindow` returns is the window's index
   in `windows`: the caller and the registry share one object.
   */
  datatype WindowCreation = WindowCreation(app: Application, index: nat, warnings: nat)

  /**
   `CreateWindow`: the platform manager builds the window (exceptions propagate
   and the registry is untouched), the removal handler is registered on it, and
   it is appended to `Windows`.
   */
  function CreateWindow(app: Application, params: WindowInitParams, entryAssemblyName: Option<string>, sdl: CreateAnswer): (r: Outcome<WindowCreation>)
    ensures r.Throws? <==> sdl.handle == 0
    ensures r.Throws? ==> r.fault.PlatformInitializeException? && r.fault.error == Some(sdl.error)
    ensures r.Returns? ==>
      var created := Create(params, entryAssemblyName, sdl);
      && created.Returns?
      && r.value.index == |app.windows|
      && r.value.app.windows == app.windows + [AddOnDisposed(created.value.window, RemoveFromWindows)]
      && r.value.app.(windows := app.windows) == app
      && r.value.warnings == created.value.warnings
      && r.value.app.windows[r.value.index].IsValid()
      && Read(r.value.app.windows[r.value.index].native, IsHidden) == Flag(true)
  {
    match Create(params, entryAssemblyName, sdl)
    case Throws(f) => Throws(f)
    case Returns(c) =>
      var w := AddOnDisposed(c.window, RemoveFromWindows);
      Returns(WindowCreation(app.(windows := app.windows + [w]), |app.windows|, c.warnings))
  }

  /** The application after a call on one of its windows, and whether the call destroyed the native window. */
  datatype WindowCall = WindowCall(app: Application, destroyedNative: bool)

  /**
   A call on a window through the reference `CreateWindow` returned. The
   reference and the registry entry are one object, so the entry itself
   changes; no other window and nothing else in the application does.
   */
  function CallWindow(app: Application, index: nat, op: WindowOp): (r: WindowCall)
    requires index < |app.windows| && WellTyped(op)
    ensures |r.app.windows| == |app.windows|
    ensures forall i :: 0 <= i < |app.windows| && i != index ==> r.app.windows[i] == app.windows[i]
    ensures r.app.windows[index] == ApplyOp(app.windows[index], op)
    ensures r.app.(windows := app.windows) == app
    ensures r.destroyedNative <==> op.DisposeWindow? && app.windows[index].IsValid()
    ensures r.app.windows[index].IsValid() <==> app.windows[index].IsValid() && !op.DisposeWindow?
  {
    var w := app.windows[index];
    var destroyed := op.DisposeWindow? && Sdl3Windows.Dispose(w).destroyedNative;
    WindowCall(app.(windows := app.windows[index := ApplyOp(w, op)]), destroyed)
  }

  /**
   Disposing a window through its own reference runs no handler, so the
   registry keeps it: `Windows` still holds the window, now invalid, with the
   removal handler still registered and never run.
   */
  lemma DisposedWindowStaysRegistered(app: Application, params: WindowInitParams, entryAssemblyName: Option<string>, sdl: CreateAnswer)
    requires sdl.handle != 0
    ensures var c := CreateWindow(app, params, entryAssemblyName, sdl).value;
      var d := CallWindow(c.app, c.index, DisposeWindow);
      && d.destroyedNative
      && |d.app.windows| == |app.windows| + 1
      && !d.app.windows[c.index].IsValid()
      && d.app.windows[c.index].disposedCallback == [RemoveFromWindows]
  {
  }

  // ---------------------------------------------------------------------------
  // Disposal

  /** One step of the tear-down. */
  datatype Teardown = WindowDisposed(disposal: Disposal) | PlatformDisposed(sdlQuitCalled: bool) | FaultHandlerRemoved

  /** `foreach (var wnd in _windows) wnd.Dispose();` */
  function DisposeWindows(ws: seq<SDL3Window>): (t: seq<Teardown>)
    ensures |t| == |ws|
    ensures forall i :: 0 <= i < |ws| ==> t[i] == WindowDisposed(Sdl3Windows.Dispose(ws[i]))
    decreases |ws|
  {
    if |ws| == 0 then []
    else DisposeWindows(ws[..|ws| - 1]) + [WindowDisposed(Sdl3Windows.Dispose(ws[|ws| - 1]))]
  }

  datatype ApplicationDisposal = ApplicationDisposal(app: Application, trace: seq<Teardown>)

  /**
   `Dispose`: every registered window in list order, then `Windows` cleared,
   then the platform manager, then the fault handler unsubscribed.
   */
  function Dispose(app: Application): (r: ApplicationDisposal)
    ensures r.app.windows == [] && !r.app.platformManager.initialized && !r.app.faultHandlerInstalled
    ensures r.app.quitCallback == app.quitCallback && r.app.isRunning == app.isRunning
    ensures |r.trace| == |app.windows| + 2
    ensures forall i :: 0 <= i < |app.windows| ==> r.trace[i] == WindowDisposed(Sdl3Windows.Dispose(app.windows[i]))
    ensures r.trace[|app.windows|] == PlatformDisposed(app.platformManager.initialized)
    ensures r.trace[|app.windows| + 1] == FaultHandlerRemoved
  {
    var windowSteps := DisposeWindows(app.windows);
    var platform := Sdl3Platform.Dispose(app.platformManager);
    ApplicationDisposal(
      app.(windows := [], platformManager := platform.manager, faultHandlerInstalled := false),
      windowSteps + [PlatformDisposed(platform.sdlQuitCalled), FaultHandlerRemoved])
  }

  function CountValid(ws: seq<SDL3Window>): nat
    decreases |ws|
  {
    if |ws| == 0 then 0 else CountValid(ws[..|ws| - 1]) + (if ws[|ws| - 1].IsValid() then 1 else 0)
  }

  function CountDestroyed(t: seq<Teardown>): nat
    decreases |t|
  {
    if |t| == 0 then 0
    else CountDestroyed(t[..|t| - 1]) + (if t[|t| - 1].WindowDisposed? && t[|t| - 1].disposal.destroyedNative then 1 else 0)
  }

  lemma {:induction false} DisposeWindowsDestroysEachValidOnce(ws: seq<SDL3Window>)
    ensures CountDestroyed(DisposeWindows(ws)) == CountValid(ws)
    decreases |ws|
  {
    if |ws| > 0 {
      DisposeWindowsDestroysEachValidOnce(ws[..|ws| - 1]);
    }
  }

  lemma {:induction false} CountValidAppend(ws: seq<SDL3Window>, w: SDL3Window)
    ensures CountValid(ws + [w]) == CountValid(ws) + (if w.IsValid() then 1 else 0)
  {
    assert (ws + [w])[..|ws|] == ws;
  }

  lemma {:induction false} CountValidUpdate(ws: seq<SDL3Window>, i: nat, w: SDL3Window)
    requires i < |ws|
    ensures CountValid(ws[i := w]) + (if ws[i].IsValid() then 1 else 0)
         == CountValid(ws) + (if w.IsValid() then 1 else 0)
    decreases |ws|
  {
    var n := |ws|;
    var u := ws[i := w];
    if i == n - 1 {
      assert u[..n - 1] == ws[..n - 1];
    } else {
      CountValidUpdate(ws[..n - 1], i, w);
      assert u[..n - 1] == ws[..n - 1][i := w];
    }
  }

  // ---------------------------------------------------------------------------
  // Window lifetimes

  /** A call a client makes: create a window, or call one through the reference it was given. */
  datatype AppOp =
    | NewWindow(params: WindowInitParams, entryAssemblyName: Option<string>, sdl: CreateAnswer)
    | ThroughReference(index: nat, op: WindowOp)

  predicate WellTypedAppOp(op: AppOp) {
    op.ThroughReference? ==> WellTyped(op.op)
  }

  /** The application after a run of calls, with how many windows were created and how many native windows destroyed. */
  datatype Lifetime = Lifetime(app: Application, created: nat, destroyed: nat)

  /**
   The calls in order. A failed creation changes nothing; a reference that no
   `CreateWindow` handed out cannot exist, so a call through one is skipped.
   */
  function Replay(app: Application, ops: seq<AppOp>): Lifetime
    requires forall i :: 0 <= i < |ops| ==> WellTypedAppOp(ops[i])
    decreases |ops|
  {
    if |ops| == 0 then Lifetime(app, 0, 0)
    else
      var before := Replay(app, ops[..|ops| - 1]);
      var last := ops[|ops| - 1];
      assert WellTypedAppOp(last);
      match last
      case NewWindow(params, entryAssemblyName, sdl) =>
        (match CreateWindow(before.app, params, entryAssemblyName, sdl)
         case Throws(_) => before
         case Returns(c) => Lifetime(c.app, before.created + 1, before.destroyed))
      case ThroughReference(index, op) =>
        if index < |before.app.windows| then
          var call := CallWindow(before.app, index, op);
          Lifetime(call.app, before.created, before.destroyed + (if call.destroyedNative then 1 else 0))
        else before
  }

  /** Every window created is either still valid or was destroyed exactly once. */
  lemma {:induction false} LiveWindowsBalance(app: Application, ops: seq<AppOp>)
    requires forall i :: 0 <= i < |ops| ==> WellTypedAppOp(ops[i])
    ensures var l := Replay(app, ops);
      CountValid(app.windows) + l.created == l.destroyed + CountValid(l.app.windows)
    decreases |ops|
  {
    if |ops| > 0 {
      var front := ops[..|ops| - 1];
      assert forall i :: 0 <= i < |front| ==> front[i] == ops[i];
      LiveWindowsBalance(app, front);
      var before := Replay(app, front);
      match ops[|ops| - 1]
      case NewWindow(params, entryAssemblyName, sdl) =>
        match CreateWindow(before.app, params, entryAssemblyName, sdl) {
          case Throws(_) =>
          case Returns(c) =>
            CountValidAppend(before.app.windows, c.app.windows[c.index]);
            assert c.app.windows == before.app.windows + [c.app.windows[c.index]];
        }
      case ThroughReference(index, op) =>
        if index < |before.app.windows| {
          var call := CallWindow(before.app, index, op);
          CountValidUpdate(before.app.windows, index, call.app.windows[index]);
          assert call.app.windows == before.app.windows[index := call.app.windows[index]];
        }
    }
  }

  /**
   No native handle leaks and none is destroyed twice. Whatever calls were made
   on the windows through their own references, `Dispose` destroys exactly the
   ones still valid and leaves every entry invalid. So, counting the destroys
   made through references and by `Dispose`, every window valid at the start or
   created since is destroyed exactly once.
   */
  lemma DisposeLeaksNoHandle(app: Application, ops: seq<AppOp>)
    requires forall i :: 0 <= i < |ops| ==> WellTypedAppOp(ops[i])
    ensures var l := Replay(app, ops); var r := Dispose(l.app);
      && (forall i :: 0 <= i < |l.app.windows| ==> !r.trace[i].disposal.window.IsValid())
      && CountValid(app.windows) + l.created == l.destroyed + CountDestroyed(r.trace)
  {
    var l := Replay(app, ops);
    LiveWindowsBalance(app, ops);
    var r := Dispose(l.app);
    var ws := DisposeWindows(l.app.windows);
    DisposeWindowsDestroysEachValidOnce(l.app.windows);
    assert r.trace == ws + [PlatformDisposed(l.app.platformManager.initialized), FaultHandlerRemoved];
    assert r.trace[..|r.trace| - 1] == ws + [PlatformDisposed(l.app.platformManager.initialized)];
    assert (ws + [PlatformDisposed(l.app.platformManager.initialized)])[..|ws|] == ws;
  }

  /** A second `Dispose` destroys no window and does not call `SDL_Quit` again. */
  lemma DisposeTwice(app: Application)
    ensures Dispose(Dispose(app).app).trace == [PlatformDisposed(false), FaultHandlerRemoved]
  {
  }

  // ---------------------------------------------------------------------------
  // Message boxes

  /** The plain form forwards to the platform manager. */
  function ShowMessageBox(app: Application, t: MessageBoxType, parent: Option<SDL3Window>, title: string, message: string): (r: SimpleMessageBox)
    ensures r.flags == TypeFlags(t) && r.title == title && r.message == message && r.window == ParentHandle(parent)
  {
    ShowSimpleMessageBox(t, title, message, parent)
  }

  /**
   The button form: `Debug.Assert(buttons.Count > 0)` fails before any backend
   call on an empty list; otherwise the backend's index is returned unchanged.
   */
  function ShowMessageBoxWithButtons(app: Application, t: MessageBoxType, parent: Option<SDL3Window>, title: string, message: string,
                                     buttons: seq<MessageBoxButton>, answer: DialogAnswer): (r: Outcome<MessageBoxCall>)
    requires answer.Pressed? ==> answer.index < |buttons|
    ensures r.Throws? <==> |buttons| == 0
    ensures r.Throws? ==> r.fault == DebugAssertFailure
    ensures r.Returns? ==> r.value.data.numbuttons == |buttons|
    ensures r.Returns? && answer.Pressed? ==> r.value.button == answer.index
    ensures r.Returns? && answer.Closed? ==> r.value.button == answer.rawId
  {
    if |buttons| == 0 then Throws(DebugAssertFailure)
    else Returns(Sdl3Platform.ShowMessageBox(t, title, message, parent, buttons, answer))
  }

  // ---------------------------------------------------------------------------
  // Unhandled exceptions

  /** What the handler ends in; `Debugger` and `Environment.Exit` are process effects. */
  datatype FaultOutcome = BreakIntoDebugger | ExitProcess(exitCode: int) | HandlerThrew(fault: Fault)

  /** The dialog shown (if any), whether `Debugger.Launch` was called, and the outcome. */
  datatype FaultHandling = FaultHandling(dialog: Option<MessageBoxData>, launchedDebugger: bool, outcome: FaultOutcome)

  const FaultTitle := "Unhandled Exception"
  const FaultButtons := [MessageBoxButton("Abort", true), MessageBoxButton("Debug", false)]

  /**
   `OnUnhandledException`: `debuggerAttached` is `Debugger.IsAttached`,
   `exceptionText` is `ExceptionObject.ToString()`, `answer` is the dialog's
   result and `launchAttaches` is what `Debugger.Launch` returns.
   */
  function OnUnhandledException(app: Application, debuggerAttached: bool, exceptionText: Option<string>,
                                answer: DialogAnswer, launchAttaches: bool): (r: FaultHandling)
    requires answer.Pressed? ==> answer.index < |FaultButtons|
    ensures debuggerAttached ==> r == FaultHandling(None, false, BreakIntoDebugger)
    ensures !debuggerAttached ==>
      && r.dialog.Some?
      && r.dialog.value.flags == TypeFlags(Error) && r.dialog.value.title == FaultTitle
      && r.dialog.value.message == exceptionText.OrElse("null") && r.dialog.value.window == 0
      && r.dialog.value.buttons == [ButtonData(SDL_MESSAGEBOX_BUTTON_RETURNKEY_DEFAULT, 0, "Abort"), ButtonData(0, 1, "Debug")]
    ensures !debuggerAttached ==>
      var result := if answer.Pressed? then answer.index else answer.rawId;
      && (result == 0 ==> r.outcome == ExitProcess(1) && !r.launchedDebugger)
      && (result == 1 ==> r.launchedDebugger && r.outcome == if launchAttaches then BreakIntoDebugger else ExitProcess(1))
      && (result != 0 && result != 1 ==> r.outcome == HandlerThrew(ArgumentOutOfRangeException(result)) && !r.launchedDebugger)
  {
    if debuggerAttached then FaultHandling(None, false, BreakIntoDebugger)
    else
      var shown := ShowMessageBoxWithButtons(app, Error, None, FaultTitle, exceptionText.OrElse("null"), FaultButtons, answer).value;
      var result := shown.button;
      if result == 0 then FaultHandling(Some(shown.data), false, ExitProcess(1))
      else if result == 1 then
        FaultHandling(Some(shown.data), true, if launchAttaches then BreakIntoDebugger else ExitProcess(1))
      else FaultHandling(Some(shown.data), false, HandlerThrew(ArgumentOutOfRangeException(result)))
  }

  /** Closing the dialog without pressing a button (SDL reports -1) makes the handler itself throw. */
  lemma ClosedDialogThrowsFromHandler(app: Application, exceptionText: Option<string>, launchAttaches: bool)
    ensures OnUnhandledException(app, false, exceptionText, Closed(-1), launchAttaches).outcome
         == HandlerThrew(ArgumentOutOfRangeException(-1))
  {
  }
}
