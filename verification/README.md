# RadishSDK core, modelled in Dafny

A functional model of the core of RadishSDK, a small C# game-application
framework over SDL3. The model covers three parts.

- **The application.** `Application`'s run loop (`Initialize`, then rounds of
  `PollEvents` followed by `Update`, then `Quit`). Its window registry, its
  construction and disposal, its message boxes and its unhandled-exception
  handler. `GameApplication`'s main-window setup.
- **The platform.** The platform contract (`IPlatformManager`, `IWindow`,
  `PlatformInitializeException`) and the SDL3 backend (`SDL3PlatformManager`,
  `SDL3Window`). This covers the init flag, quit negotiation per quit event,
  message-box flag and button-id mapping, window flags at creation, `IsValid`,
  `EnsureValid`, the advisory setters, the Alt+Enter shortcut and idempotent
  disposal.
- **The CVar store.** `CVar<T>`'s flag-gated setter and change notifications,
  and the `CVarFlags` numbering. `ConfigurationManager`'s case-insensitive,
  type-filtered registry. `LazyCVar<T>`'s memoised lookup.

Everything is an immutable datatype with pure functions. C# exceptions become
`Faults.Fault` inside `Outcome<T> = Returns(value) | Throws(fault)`. A
multicast delegate is its invocation list, with the empty list standing for
`null`; a subscribed handler is known by an identity number. A quit handler is
a C# closure and may answer each quit request differently, so
`QuitRequests.Handlers` gives, for handler `h` and the `k`-th quit request
since start, which of the four functions bool -> bool it applies to the `ref`
vote (`QuitRequests.VoteAction`). The application owns its windows in a
table, and the `IWindow` reference `CreateWindow` returns (and
`GameApplication.MainWindow`) is an index into it, so a call made through the
reference changes the registered window itself.

Native SDL calls become parameters carrying what SDL answers:

- `InitAnswer`: `SDL_Init` and `SDL_GetError`.
- `CreateAnswer`: `SDL_CreateWindow`, the window id and position, the pixel
  scale, and whether each size-limit setter succeeded.
- `sdlOk`: whether a setter succeeded.
- `DialogAnswer`: the button SDL reports from a dialog.
- The queued events drained by one `PollEvents`, and whether `SDL_WaitEvent`
  then fails.

SDL itself is taken to be ideal. A successful setter stores its value, a failed
setter changes nothing and logs a warning, and `SDL_ShowWindow` and
`SDL_HideWindow` clear and set the hidden flag.

Modules, one per source component:

| module | file | models |
|---|---|---|
| `Common`, `Faults`, `Delegates`, `PlatformTypes` | common.dfy, faults.dfy, delegates.dfy, platform_types.dfy | nullable values, exceptions, `+=`/`-=` on delegates, value records |
| `QuitRequests` | quit_requests.dfy | `QuitRequestDelegate` invocation |
| `PlatformInitialize` | platform_initialize.dfy | `PlatformInitializeException` |
| `SdlNative`, `Sdl3Windows`, `Sdl3Platform` | sdl_native.dfy, sdl3_window.dfy, sdl3_platform_manager.dfy | the SDL3 backend |
| `PlatformContract` | platform_contract.dfy | `IPlatformManager.TryCreateWindow` |
| `Applications`, `RunLoop`, `GameApplications` | application.dfy, run_loop.dfy, game_application.dfy | `Application`, `Application.Run`, `GameApplication` |
| `CVarFlags`, `ConsoleVariables`, `ConfigurationManager`, `LazyCVars` | cvar_flags.dfy, cvar.dfy, configuration_manager.dfy, lazy_cvar.dfy | the CVar store |

## Where the code does less than its comments

The model follows the code in each of these places.

- `Application.Instance` is never assigned (src/RadishSDK.Core/Application.cs:20).
  The "only one Application" guard therefore never fires. The model has
  `Applications.Instance == None`, and `Applications.SecondInstanceIsNotRejected`
  shows that a second application can be constructed.
- `SDL3Window.Dispose` never invokes `DisposedCallback`. So the
  `w => _windows.Remove(w)` handler that `CreateWindow` registers never runs.
  A window disposed through its own reference stays in `Windows`, invalid
  (`Applications.DisposedWindowStaysRegistered`). `Application.Dispose` then
  disposes it again, which is harmless because `Dispose` is idempotent.
- `SDL3PlatformManager.PollEvents` never raises `OnProcessEvent`. So nothing in
  the program delivers events to `SDL3Window.OnSDLEvent`. The model keeps
  `OnSDLEvent` as a function that a caller may apply to an event.
- `WaitForEvents` is documented as letting the thread sleep until an event
  occurs. The code instead loops on `SDL_WaitEvent`, which blocks for the next
  event and never reports an empty queue, so `PollEvents` returns only if SDL
  fails (see Findings).
- The comment on `IPlatformManager.PollEvents` says `true` means "we should
  quit". The implementation returns `true` to mean *keep running*, and so does
  its one caller (`IsRunning &= ...`). The model follows the code.

## Model

| member | source | states |
|---|---|---|
| `Delegates.Combine` | src/RadishSDK.Core/Application.cs:47 | `+=` puts the handler at the end of the invocation list and keeps every earlier entry in place |
| `Delegates.Remove` | src/RadishSDK.Core/Application.cs:51 | `-=` leaves a list without the handler unchanged; otherwise it removes exactly one occurrence (multiset difference) |
| `Delegates.RemoveTakesLastOccurrence` | src/RadishSDK.Core/Application.cs:51 | the occurrence removed is the last one, as `Delegate.Remove` does |
| `Delegates.RemoveIfSubscribed` | src/RadishSDK.Core/Platform/IWindow.cs:104-108 | the null-guarded `remove` accessor behaves as `-=` and does nothing on an empty list |
| `Delegates.RemoveUndoesCombine` | src/RadishSDK.Core/Application.cs:47-52 | subscribing and then unsubscribing a handler restores the invocation list |
| `QuitRequests.InvokeAppend` | src/RadishSDK.Core/Platform/QuitRequestDelegate.cs:7 | the `ref` vote is threaded through the handlers in subscription order: invoking `a + b` is invoking `a`, then `b` |
| `QuitRequests.InvokeOfPassiveObservers` | src/RadishSDK.Core/Platform/QuitRequestDelegate.cs:7 | handlers that never write the vote leave it unchanged |
| `QuitRequests.InvokeVetoOnly` | src/RadishSDK.Core/Platform/QuitRequestDelegate.cs:5-7 | when on a given request every handler either cancels (sets `false`) or stays silent, the quit survives iff nobody cancels: an AND over the handlers |
| `QuitRequests.LastWriterWins` | src/RadishSDK.Core/Platform/QuitRequestDelegate.cs:7 | on a given request the last handler that writes a constant decides, provided later handlers leave the vote alone |
| `PlatformInitialize.NewException` | src/RadishSDK.Core/Platform/PlatformInitializeException.cs:32-35 | `Error` keeps the error string, null included; the message is the error, " (", the condition text and ")", with null rendered empty |
| `PlatformInitialize.ThrowIfFailed` | src/RadishSDK.Core/Platform/PlatformInitializeException.cs:26-30 | returns iff the condition holds; otherwise it throws an exception whose `Error` is the given error |
| `PlatformInitialize.NullErrorIsKept` | src/RadishSDK.Core/Platform/PlatformInitializeException.cs:16 | a failure with a null error throws with a null `Error`, and the message starts with " (" |
| `Sdl3Windows.EnsureValid` | src/RadishSDK.Platform.SDL3/SDL3Window.cs:224-228 | throws `ObjectDisposedException` iff the handle is null |
| `Sdl3Windows.Get` | src/RadishSDK.Platform.SDL3/SDL3Window.cs:20-152 | every property getter throws `ObjectDisposedException` iff the window is invalid, and otherwise returns a value of the property's type |
| `Sdl3Windows.Set` | src/RadishSDK.Platform.SDL3/SDL3Window.cs:36-40 | a setter throws iff the window is invalid; an SDL failure is only a warning and changes nothing; on success the property reads back the value |
| `Sdl3Windows.SetChangesOnlyItsProperty` | src/RadishSDK.Platform.SDL3/SDL3Window.cs:107-111 | a successful setter leaves every other property as it was (the pixel size follows the logical size) |
| `Sdl3Windows.Show` | src/RadishSDK.Platform.SDL3/SDL3Window.cs:211-215 | throws iff invalid; on success the window is no longer hidden; a failure is only logged |
| `Sdl3Windows.Hide` | src/RadishSDK.Platform.SDL3/SDL3Window.cs:217-221 | throws iff invalid; on success the window is hidden; a failure is only logged |
| `Sdl3Windows.SetAllowToggleFullscreenShortcut` | src/RadishSDK.Platform.SDL3/SDL3Window.cs:95 | a plain auto-property: it never throws, even on a disposed window, and touches nothing else |
| `Sdl3Windows.AddOnDisposed` | src/RadishSDK.Core/Platform/IWindow.cs:103 | `OnDisposed +=` appends to `DisposedCallback` and changes nothing else |
| `Sdl3Windows.RemoveOnDisposed` | src/RadishSDK.Core/Platform/IWindow.cs:104-108 | `OnDisposed -=` is a no-op while nothing is registered and otherwise removes one occurrence |
| `Sdl3Windows.CreationFlags` | src/RadishSDK.Platform.SDL3/SDL3Window.cs:158-162 | every window is created hidden and high-density, fullscreen iff requested, and never resizable |
| `Sdl3Windows.InitialTitle` | src/RadishSDK.Platform.SDL3/SDL3Window.cs:165 | the title is the requested one, else the entry assembly's name, else "Radish SDK Game" |
| `Sdl3Windows.ApplyOptionalSize` | src/RadishSDK.Platform.SDL3/SDL3Window.cs:169-177 | a size limit is applied only when given; an SDL failure adds one warning; no other property moves |
| `Sdl3Windows.Create` | src/RadishSDK.Platform.SDL3/SDL3Window.cs:154-180 | throws `PlatformInitializeException` with SDL's error iff the handle is null; otherwise the window is valid, hidden, fullscreen as requested, with the requested title, size and limits; one warning per failed limit |
| `Sdl3Windows.OnSDLEvent` | src/RadishSDK.Platform.SDL3/SDL3Window.cs:182-198 | throws only for a key-down with the shortcut allowed on an invalid window; fullscreen flips iff Alt+Enter is pressed on this window with the shortcut allowed and SDL succeeds |
| `Sdl3Windows.Dispose` | src/RadishSDK.Platform.SDL3/SDL3Window.cs:200-209 | the window ends invalid; `SDL_DestroyWindow` runs iff it was valid; `DisposedCallback` is neither run nor changed |
| `Sdl3Windows.DisposeIsIdempotent` | src/RadishSDK.Platform.SDL3/SDL3Window.cs:204-208 | a second `Dispose` destroys nothing and changes nothing |
| `Sdl3Windows.DisposedWindowRejectsAccess` | src/RadishSDK.Core/Platform/IWindow.cs:9-13 | after `Dispose`, every getter, setter and `Show`/`Hide` throws `ObjectDisposedException` |
| `Sdl3Windows.GetAfterSet` | src/RadishSDK.Platform.SDL3/SDL3Window.cs:29-41 | a successful setter followed by its getter returns the value written |
| `Sdl3Windows.ValidUntilDisposed` | src/RadishSDK.Core/Platform/IWindow.cs:92-95 | over any sequence of calls, a window is valid iff it started valid and no call was `Dispose` |
| `Sdl3Windows.CreatedWindowValidUntilDisposed` | src/RadishSDK.Platform.SDL3/SDL3Window.cs:14-16 | a successfully created window stays valid exactly until it is disposed |
| `Sdl3Platform.TryInitialize` | src/RadishSDK.Platform.SDL3/SDL3PlatformManager.cs:62-101 | succeeds iff not yet initialized and `SDL_Init` succeeds; a second call fails with "Already initialized"; a failure carries SDL's error and changes nothing |
| `Sdl3Platform.Dispose` | src/RadishSDK.Platform.SDL3/SDL3PlatformManager.cs:203-209 | calls `SDL_Quit` iff initialized; the manager always ends uninitialized |
| `Sdl3Platform.InitAndQuitBalance` | src/RadishSDK.Platform.SDL3/SDL3PlatformManager.cs:64-80 | over any sequence of `TryInitialize`/`Dispose`, successful `SDL_Init` calls equal `SDL_Quit` calls plus one while initialized |
| `Sdl3Platform.ReinitializeAfterDispose` | src/RadishSDK.Platform.SDL3/SDL3PlatformManager.cs:205-208 | a disposed manager can be initialized again, and then rejects a further initialization |
| `Sdl3Platform.DrainCharacterization` | src/RadishSDK.Platform.SDL3/SDL3PlatformManager.cs:113-121 | draining delivers one quit request per quit event, numbered on from the requests so far; `keepRunning` ends as the negation of the last request's own fresh vote, or unchanged without a quit event |
| `Sdl3Platform.PollEvents` | src/RadishSDK.Platform.SDL3/SDL3PlatformManager.cs:110-124 | the call returns iff it polls or `SDL_WaitEvent` fails; the result is keep-running: false iff some drained event is a quit and the handlers leave the last quit request's fresh `true` vote at `true` |
| `Sdl3Platform.PollEventsDefault` | src/RadishSDK.Core/Platform/IPlatformManager.cs:64 | `PollEvents(callback)` means `waitForEvents = false`: it always returns, whatever SDL's wait would have done |
| `Sdl3Platform.WaitingPollReturnsOnlyOnError` | src/RadishSDK.Platform.SDL3/SDL3PlatformManager.cs:190-195 | as written, a waiting poll whose `SDL_WaitEvent` does not fail never returns, even after an accepted quit request |
| `Sdl3Platform.PollEventsIntended` | src/RadishSDK.Core/Platform/IPlatformManager.cs:62 | waiting for one event and then draining the queue always returns, and handles the events exactly as the default, non-waiting poll |
| `Sdl3Platform.LastQuitDecides` | src/RadishSDK.Platform.SDL3/SDL3PlatformManager.cs:115-120 | the last quit event of a poll decides its result: keep-running is the negation of that request's vote, whatever earlier requests got |
| `Sdl3Platform.LaterRequestOverridesVeto` | src/RadishSDK.Platform.SDL3/SDL3PlatformManager.cs:115-120 | a handler that vetoes the first request and accepts the second: one quit event keeps running, two stop the application |
| `Sdl3Platform.NonQuitEventsIgnored` | src/RadishSDK.Platform.SDL3/SDL3PlatformManager.cs:115 | inserting a non-quit event anywhere does not change the result |
| `Sdl3Platform.QuitWithoutCallbackStops` | src/RadishSDK.Platform.SDL3/SDL3PlatformManager.cs:117-119 | with no subscriber, any quit event stops the application |
| `Sdl3Platform.VoteIsFreshPerQuitEvent` | src/RadishSDK.Platform.SDL3/SDL3PlatformManager.cs:117 | each quit event starts its own `true` vote; a vote threaded across events would differ |
| `Sdl3Platform.TypeFlags` | src/RadishSDK.Platform.SDL3/SDL3PlatformManager.cs:130-135 | `Info` maps to SDL's information flag, `Warning` to its warning flag and `Error` to its error flag, each exactly: no other type maps to that flag |
| `Sdl3Platform.TypeFlagsInjective` | src/RadishSDK.Platform.SDL3/SDL3PlatformManager.cs:166-172 | distinct types map to distinct flags |
| `Sdl3Platform.ShowSimpleMessageBox` | src/RadishSDK.Platform.SDL3/SDL3PlatformManager.cs:127-137 | passes the mapped flag, title, message, and the parent's handle or null |
| `Sdl3Platform.ButtonsData` | src/RadishSDK.Platform.SDL3/SDL3PlatformManager.cs:152-162 | button i gets id i, its text, and the return-key flag iff it is the default |
| `Sdl3Platform.ShowMessageBox` | src/RadishSDK.Platform.SDL3/SDL3PlatformManager.cs:140-188 | builds the dialog with one entry per button, and returns the pressed button's position in the caller's list, or SDL's raw id when none was pressed |
| `PlatformContract.TryCreateWindow` | src/RadishSDK.Core/Platform/IPlatformManager.cs:37-55 | catches only `PlatformInitializeException`: success gives `true` and the window; that exception gives `false`, no window and its `Error`; any other exception propagates |
| `PlatformContract.Sdl3TryCreateWindow` | src/RadishSDK.Platform.SDL3/SDL3PlatformManager.cs:104-107 | over the SDL3 backend `TryCreateWindow` never throws; it succeeds iff SDL returns a handle, and otherwise reports SDL's error |
| `Applications.DefaultInitParams` | src/RadishSDK.Core/ApplicationInitParams.cs:12-14 | `WaitForEvents` defaults to false |
| `Applications.Construct` | src/RadishSDK.Core/Application.cs:63-76 | construction throws `PlatformInitializeException` carrying the backend's error iff `TryInitialize` fails; otherwise the registry is empty, the app is not running and the fault handler is installed |
| `Applications.SecondInstanceIsNotRejected` | src/RadishSDK.Core/Application.cs:65-68 | the singleton guard is inert: `Instance` is always null, and any application with a fresh platform manager whose `SDL_Init` succeeds is constructed, whatever was constructed before |
| `Applications.AddQuitRequested` | src/RadishSDK.Core/Application.cs:47 | subscribing appends to the quit callback and changes nothing else |
| `Applications.RemoveQuitRequested` | src/RadishSDK.Core/Application.cs:48-52 | unsubscribing removes one occurrence, does nothing for an absent handler, and changes nothing else |
| `Applications.CreateWindow` | src/RadishSDK.Core/Application.cs:144-150 | exceptions propagate and leave the registry alone; otherwise the platform's window, with the removal handler registered, is appended, earlier entries are unchanged, and the reference returned is the new entry, valid and hidden |
| `Applications.CallWindow` | src/RadishSDK.Core/Application.cs:146-149 | the list holds the object the reference names, so a call through the reference changes that entry exactly as the window call does, and no other entry or application state |
| `Applications.DisposedWindowStaysRegistered` | src/RadishSDK.Core/Application.cs:147 | disposing a registered window through its reference destroys it but runs no handler: the entry is still in the registry, invalid, with the removal handler still attached |
| `Applications.DisposeWindows` | src/RadishSDK.Core/Application.cs:123-126 | every registered window is disposed, in list order |
| `Applications.Dispose` | src/RadishSDK.Core/Application.cs:119-133 | windows in order, then the registry is cleared, then the platform manager, then the fault handler is removed |
| `Applications.DisposeWindowsDestroysEachValidOnce` | src/RadishSDK.Core/Application.cs:123-126 | `SDL_DestroyWindow` runs once per registered window that was still valid |
| `Applications.LiveWindowsBalance` | src/RadishSDK.Core/Application.cs:144-150 | over any run of window creations and calls through references, each window created (or valid at the start) is either still valid in the registry or was destroyed exactly once |
| `Applications.DisposeLeaksNoHandle` | src/RadishSDK.Core/Application.cs:119-130 | after any run of creations and calls through references, `Dispose` leaves every entry invalid, and the destroys made through references plus those made by `Dispose` count each window exactly once |
| `Applications.DisposeTwice` | src/RadishSDK.Core/Application.cs:119-133 | a second `Dispose` destroys no window and does not call `SDL_Quit` |
| `Applications.ShowMessageBox` | src/RadishSDK.Core/Application.cs:200-203 | the plain form forwards type, title, message and parent |
| `Applications.ShowMessageBoxWithButtons` | src/RadishSDK.Core/Application.cs:212-216 | an empty button list fails the debug assertion; otherwise the backend's index is returned unchanged |
| `Applications.OnUnhandledException` | src/RadishSDK.Core/Application.cs:79-116 | with a debugger attached it breaks and shows nothing; otherwise an error dialog [Abort (default), Debug] with the exception text or "null"; 0 exits with 1; 1 launches the debugger and breaks if it attached, else exits with 1; any other result throws `ArgumentOutOfRangeException` |
| `Applications.ClosedDialogThrowsFromHandler` | src/RadishSDK.Core/Application.cs:113-114 | closing the dialog without a button (SDL's -1) makes the handler itself throw |
| `RunLoop.Run` | src/RadishSDK.Core/Application.cs:179-191 | `Run` returns iff some poll returns false; it starts with `Initialize`, ends with `Quit` when it returns, and `IsRunning` is false exactly then |
| `RunLoop.LoopShape` | src/RadishSDK.Core/Application.cs:184-188 | the loop is full rounds up to the first false poll, then one last poll and `Update` |
| `RunLoop.RunShape` | src/RadishSDK.Core/Application.cs:179-191 | closed form: `Initialize`, j rounds (j = first false), then poll, `Update` seeing false, `Quit` |
| `RunLoop.RunCallCounts` | src/RadishSDK.Core/Application.cs:181-190 | `Initialize` once, `Quit` once iff returned; with the first false at j there are j+1 polls and j+1 updates, exactly one seeing `IsRunning == false` |
| `RunLoop.UpdateFollowsEveryPoll` | src/RadishSDK.Core/Application.cs:186-187 | every poll passes `WaitForEvents` and is immediately followed by `Update`, including the poll that stopped the loop |
| `RunLoop.FinalUpdateSeesStop` | src/RadishSDK.Core/Application.cs:184-187 | once `IsRunning` is false it stays false: only the last `Update` before `Quit` sees false |
| `RunLoop.WaitingRunStallsInFirstPoll` | src/RadishSDK.Core/Application.cs:184-188 | as written, with `WaitForEvents` set and no SDL error, `Run` stays in its first `PollEvents`: no `Update`, no `Quit`, `IsRunning` stays true |
| `RunLoop.AsWrittenRunsAsIntendedWhenPolling` | src/RadishSDK.Core/Application.cs:186 | with `WaitForEvents` false, the default, the run as written is the run with the corrected poll |
| `RunLoop.QuitNegotiation` | src/RadishSDK.Core/Application.cs:184-188 | over SDL events, `Run` returns iff some round drains a quit event and the subscribers leave the fresh `true` vote of that round's last quit request (numbered across rounds) at `true` |
| `RunLoop.NoSubscribersQuitOnFirstQuitEvent` | src/RadishSDK.Core/Application.cs:186 | without subscribers the run ends iff a quit event arrives |
| `RunLoop.VetoedRequestCanBeAcceptedLater` | src/RadishSDK.Core/Application.cs:41-44 | a subscriber that cancels the first quit request and accepts the next makes `Run` go two rounds, the second `Update` seeing `IsRunning == false`, then `Quit` |
| `GameApplications.Construct` | src/RadishSDK.Core/GameApplication.cs:27-36 | the registry is exactly the one window `MainWindow` refers to; it is valid, hidden, windowed, 1280x720, minimum 640x480 when SDL accepts it, no maximum, with the shortcut on; `WaitForEvents` is false |
| `GameApplications.MainWindowTogglesOnAltEnter` | src/RadishSDK.Core/GameApplication.cs:35 | `OnSDLEvent` of the new main window, if handed an Alt+Enter key-down for it, returns without a warning and leaves the registered window fullscreen; nothing in the program hands it one |
| `CVarFlags.ExplicitMembersAreDistinctBits` | src/RadishSDK.Core/Configuration/CVarFlags.cs:12-34 | None, Cheat, ArchiveSystem, ReadOnly and ArchiveUser are 1, 2, 4, 8, 16: distinct single bits |
| `CVarFlags.ConstantIsNoneAndArchiveUser` | src/RadishSDK.Core/Configuration/CVarFlags.cs:34-40 | `Constant` is implicitly 17, which is `None | ArchiveUser` |
| `CVarFlags.HasConstantIffNoneAndArchiveUser` | src/RadishSDK.Core/Configuration/CVarFlags.cs:12-40 | under `HasFlag`, a flag set counts as `Constant` iff it holds both the None and ArchiveUser bits |
| `CVarFlags.ConstantOverlaps` | src/RadishSDK.Core/Configuration/CVarFlags.cs:29-40 | `Constant` lacks the ReadOnly bit, yet reports `ArchiveUser` and `None` |
| `CVarFlags.IntendedConstantIsAFreshBit` | src/RadishSDK.Core/Configuration/CVarFlags.cs:40 | with `Constant = 1 << 5` it would share no bit with the other members |
| `ConsoleVariables.New` | src/RadishSDK.Core/Configuration/CVar.cs:67-74 | a new CVar's value is its default, its help text is "" when none is given, and it has no subscribers |
| `ConsoleVariables.Notify` | src/RadishSDK.Core/Configuration/CVar.cs:76-79 | every subscriber is called, in order, with the same (old, new) pair; a null delegate calls nobody |
| `ConsoleVariables.SetValue` | src/RadishSDK.Core/Configuration/CVar.cs:24-38 | a `Constant` variable or an equal value changes and notifies nothing; otherwise the subscribers see (old, new) and the value is stored; nothing but `Value` changes |
| `ConsoleVariables.SetValueIntended` | src/RadishSDK.Core/Configuration/CVar.cs:29-30 | the setter gated by the intended `Constant` bit |
| `ConsoleVariables.ArchivedUserVariableIsFrozen` | src/RadishSDK.Core/Configuration/CVar.cs:29-30 | as written, a `None | ArchiveUser` variable rejects every change; with the intended bit it accepts them |
| `ConsoleVariables.SetValueIdempotent` | src/RadishSDK.Core/Configuration/CVar.cs:32-33 | assigning the same value twice changes and notifies nothing the second time |
| `ConsoleVariables.ReadOnlyDoesNotGateSetter` | src/RadishSDK.Core/Configuration/CVar.cs:24-38 | game code can still set a `ReadOnly` variable |
| `ConsoleVariables.NotificationsChain` | src/RadishSDK.Core/Configuration/CVar.cs:35-36 | over any run of assignments every notifying assignment calls each subscriber in order with one (old, new) pair, and what each subscriber is told is real changes, chained old-to-new, from the value before to the value after; `DefaultValue`, name, flags and subscribers never change |
| `ConsoleVariables.ConstantNeverChanges` | src/RadishSDK.Core/Configuration/CVar.cs:29-30 | a `Constant` variable keeps its value and notifies nobody through any run of assignments |
| `ConsoleVariables.TryParseAndSet` | src/RadishSDK.Core/Configuration/CVar.cs:88-102 | returns true iff the variable is not `ReadOnly` and the text parses; a refusal changes nothing; a success is exactly the `Value` setter applied to the parsed value |
| `ConsoleVariables.ConstantReportsSuccessWithoutChange` | src/RadishSDK.Core/Configuration/CVar.cs:95-99 | a `Constant` variable passes the ReadOnly gate, so parsable text reports success while nothing changes |
| `ConsoleVariables.AddOnChanged` | src/RadishSDK.Core/Configuration/CVar.cs:50 | subscribing appends the handler and changes nothing else |
| `ConsoleVariables.RemoveOnChanged` | src/RadishSDK.Core/Configuration/CVar.cs:51-55 | unsubscribing removes one occurrence, and does nothing for an absent handler |
| `ConsoleVariables.UnsubscribedHandlerIsNotNotified` | src/RadishSDK.Core/Configuration/CVar.cs:48-56 | a handler added and then removed is not notified of the next change |
| `ConfigurationManager.FoldIdentifiesExactlyCaseVariants` | src/RadishSDK.Core/Configuration/ConfigurationManager.cs:22-23 | under the ASCII instance of the comparer, two names share a registry key iff they differ only in letter case |
| `ConfigurationManager.CreateCVar` | src/RadishSDK.Core/Configuration/ConfigurationManager.cs:37-47 | throws `DuplicateCVarException` iff the comparer equates the name with a registered one; otherwise returns a new CVar with the given name, default, help text and flags, and leaves the registry unchanged |
| `ConfigurationManager.CreateAndRegisterCVar` | src/RadishSDK.Core/Configuration/ConfigurationManager.cs:37-47 | as `CreateCVar`, but the new variable is also registered under its name |
| `ConfigurationManager.FindCVar` | src/RadishSDK.Core/Configuration/ConfigurationManager.cs:56-66 | finds a variable iff the name is registered with value type T, and then returns that entry |
| `ConfigurationManager.TryFindCVar` | src/RadishSDK.Core/Configuration/ConfigurationManager.cs:75-79 | returns true iff `FindCVar` finds something, and passes that result out |
| `ConfigurationManager.CVars` | src/RadishSDK.Core/Configuration/ConfigurationManager.cs:20 | enumerates exactly the registered entries |
| `ConfigurationManager.FindIsCaseInsensitive` | src/RadishSDK.Core/Configuration/ConfigurationManager.cs:22-23 | names the comparer equates find the same variable, through `FindCVar` and `TryFindCVar` alike |
| `ConfigurationManager.AsciiCaseVariantsFindAlike` | src/RadishSDK.Core/Configuration/ConfigurationManager.cs:22-23 | with the ASCII comparer, names differing only in letter case find the same variable |
| `ConfigurationManager.FindIsTypeFiltered` | src/RadishSDK.Core/Configuration/ConfigurationManager.cs:61-62 | a name is found under at most one value type |
| `ConfigurationManager.CreatedCVarIsNeverFound` | src/RadishSDK.Core/Configuration/ConfigurationManager.cs:45-46 | as written, a created variable cannot be found, and creating it again does not throw |
| `ConfigurationManager.CreateThenFind` | src/RadishSDK.Core/Configuration/ConfigurationManager.cs:37-47 | with registration, a created variable is found under any name the comparer equates with its own, a second creation under such a name throws, and `CVars` grows by exactly that entry |
| `ConfigurationManager.FindLeavesOthersUnchanged` | src/RadishSDK.Core/Configuration/ConfigurationManager.cs:58 | registering a name does not change the lookup of any name the comparer tells apart from it |
| `LazyCVars.New` | src/RadishSDK.Core/Configuration/LazyCVar.cs:18-21 | construction only stores the name; nothing is resolved or cached |
| `LazyCVars.LazyValue` | src/RadishSDK.Core/Configuration/LazyCVar.cs:35-47 | while nothing is cached an access queries the registry and caches the result; once something is cached it is returned with no query; `Resolved` holds iff something is cached |
| `LazyCVars.Convert` | src/RadishSDK.Core/Configuration/LazyCVar.cs:56-59 | the implicit conversion returns the cached variable if any, else a fresh lookup, and caches what it returns |
| `LazyCVars.ResolvedIsMemoised` | src/RadishSDK.Core/Configuration/LazyCVar.cs:39-45 | a resolved wrapper returns its cached variable whatever the registry holds |
| `LazyCVars.FirstFindWins` | src/RadishSDK.Core/Configuration/LazyCVar.cs:39-43 | over accesses against changing registries, each access retries until one finds the variable; from then on every access returns that variable and `Resolved` stays true |

## Left out

- Logging. A warning is recorded only as a `warned` flag or a warning count. Nothing models the log text.
- `TryInitialize`'s writes to `EngineCVars.BaseDirectory` and `PersistentDataDirectory`. They depend on SDL paths and assembly attributes.
- `TryInitialize`'s `Debug.Assert`s on the assembly's company and title attributes. These are reflection.
- `Sdl3Platform.TryInitialize`: the steps after a successful `SDL_Init` are taken to succeed, but in the program they can throw. In a release build `Debug.Assert` is compiled out, so a missing `AssemblyCompany` or `AssemblyTitle` attribute makes `company.Company` or `title.Title` throw `NullReferenceException`. The `BaseDirectory` setter throws too when its current value is null (see `ConsoleVariables.SetValue` below). Any such throw escapes with SDL initialized and `_initialized` still false; the model has no such outcome.
- `Sdl3Platform.InitAndQuitBalance`: holds only without that throw path. After it, `Dispose` skips `SDL_Quit` because `_initialized` is false, so the program ends with one more `SDL_Init` than `SDL_Quit`.
- The native-library resolver at the top of SDL3PlatformManager.cs. It is platform loading, not logic.
- The `OnProcessEvent` subscription in the `SDL3Window` constructor and its removal in `Dispose`. The event is never raised.
- How long `SDL_WaitEvent` sleeps. A waiting poll is modelled by the events it handed out and whether it then failed.
- `RunLoop.QuitNegotiation`: stated for the run with the corrected poll. As written, with `WaitForEvents` set the run never gets past its first poll (see Findings); with it false, the default, the two runs are equal (`RunLoop.AsWrittenRunsAsIntendedWhenPolling`).
- `RunLoop.NoSubscribersQuitOnFirstQuitEvent`: stated for the run with the corrected poll, for the same reason.
- `Debugger.BreakForUserUnhandledException`, `Debugger.Launch` and `Environment.Exit`. They are process effects, reported as the handler's outcome.
- `GC.SuppressFinalize`.
- UTF-8 marshalling and freeing of the dialog strings.
- `RunLoop.Run`: `Initialize`, `Update` and `Quit` are subclass hooks, modelled as recorded steps. The subscribers and `WaitForEvents` are fixed for the whole run, so a hook that subscribes or unsubscribes during the run is not modelled.
- Stateful quit handlers. A quit handler's answer depends only on which handler it is and which quit request it is. A handler that reads or changes application state is not modelled.
- `ConsoleVariables.SetValue`: handlers are modelled by identity only. The subscribers run before `_value` is stored, so a handler reading `Value` would see the old value, and a handler that re-enters the setter would have its write overwritten by the outer store. Neither effect is modelled.
- `Sdl3Windows.Get`: the pixel size is the logical size times an integer scale. Fractional display scales, and the rounding SDL does for them, are not represented.
- `Sdl3Windows.SetChangesOnlyItsProperty`: "the pixel size follows the logical size" rests on the same integer scale.
- `Sdl3Platform.TypeFlags`: the `_ => throw` arm is left out. It only fires for integers cast to `MessageBoxType` that name no member.
- `Applications.ShowMessageBoxWithButtons`: this models a debug build, where `Debug.Assert` fails on an empty list. In a release build the empty list would reach SDL.
- `ConfigurationManager.FoldIdentifiesExactlyCaseVariants`: this describes the ASCII instance of the comparer only. The registry operations take the comparer as a parameter, a key function, so they hold for `InvariantCultureIgnoreCase` as well. The invariant culture's own rules (Unicode case mapping, "É" against "é", ignorable characters) are not written out.
- `ConfigurationManager.AsciiCaseVariantsFindAlike`: stated for the ASCII comparer only, for the same reason.
- `ConsoleVariables.SetValue`: the equality gate is `_value.Equals(value)`, modelled as Dafny's structural `==`. A user-defined `Equals` is not modelled. When `T` is a reference type and the current value is null, the setter throws `NullReferenceException` instead of comparing; the model has no null values. This is reachable: `TryInitialize` stores `SDL_GetBasePath()` in `EngineCVars.BaseDirectory`, which is null when SDL fails to find the path, and the next `TryInitialize` after `Dispose` then throws at that assignment.
- `CVar.GetValueString` and `ICVar`. Formatting depends on each `T`'s `ToString`.
- `DuplicateCVarException`'s message text. The fault carries only the name.
- CVar identity. A CVar is a value here, and `LazyCVar`'s cache holds the variable found at resolution. No operation of the model updates a registered variable in place. Window identity is modelled by the index reference.
- `CVar.Flags`'s internal setter. Nothing in the core uses it.
- Integer widths. Window sizes, positions and pixel sizes are unbounded integers, and the window id is `bv32`.
- Undisposed state after a failed `GameApplication` construction. When the main window cannot be created, the base constructor has already initialized SDL and subscribed the fault handler; `GameApplications.Construct` reports only the exception.

## Findings

| source | as written | input that shows it | evidently intended | confidence | as-written member | corrected member |
|---|---|---|---|---|---|---|
| src/RadishSDK.Core/Configuration/ConfigurationManager.cs:45-46 | `CreateCVar` builds the CVar and returns it without adding it to `_cvars` | `CreateCVar("x", 1)`, then `FindCVar<int>("x")` returns null, and `CreateCVar("x", 1)` again does not throw | register the new CVar under its name, as the duplicate check and `FindCVar` assume | high, not executed | `ConfigurationManager.CreatedCVarIsNeverFound` | `ConfigurationManager.CreateThenFind` |
| src/RadishSDK.Platform.SDL3/SDL3PlatformManager.cs:113-121 | with `waitForEvents` true the drain loop calls `SDL_WaitEvent` again after every event; that call blocks until the next event and reports false only on an error, so the loop never ends on an empty queue | `WaitForEvents = true` and a quit event whose vote stays `true`: `keepRunning` is false, but `PollEvents` waits for another event, so `Update` and `Quit` do not run | wait for one event, then drain the queue with `SDL_PollEvent` and return | high, not executed | `RunLoop.WaitingRunStallsInFirstPoll` | `Sdl3Platform.PollEventsIntended` |
| src/RadishSDK.Core/Configuration/CVarFlags.cs:34-40 | `Constant` has no initializer, so it is 17 = `None \| ArchiveUser` | a CVar created with `CVarFlags.None \| CVarFlags.ArchiveUser` ignores every `Value` write; a `Constant` CVar reports `HasFlag(ArchiveUser)` | `Constant = 1 << 5`, a bit of its own | medium, not executed | `ConsoleVariables.ArchivedUserVariableIsFrozen` | `ConsoleVariables.SetValueIntended` |

The polling bug is corrected in `PollEventsIntended`; `RunLoop.QuitNegotiation`
and its companions are stated over it, and
`Sdl3Platform.WaitingPollReturnsOnlyOnError` shows the single call as written.
The registry bug is corrected in `CreateAndRegisterCVar`, and `LazyCVars`
lookups work over registries built that way. `FindCVar` and `LazyCVar` behave
the same whichever way the registry was built. The flag bug is kept in
`SetValue` and `TryParseAndSet`, because that is what the program does.
`SetValueIntended` and `CVarFlags.IntendedConstantIsAFreshBit` give the
corrected numbering beside it.
