/**
 The SDL3 backend's platform manager (`SDL3PlatformManager`): the init flag,
 event polling with quit negotiation, and the two message boxes.
 */
module Sdl3Platform {
  import opened Common
  import opened Faults
  import opened PlatformTypes
  import opened QuitRequests
  import opened SdlNative
  import Sdl3Windows

  datatype SDL3PlatformManager = SDL3PlatformManager(initialized: bool)

  // ---------------------------------------------------------------------------
  // Initialization

  /** The subsystems `TryInitialize` asks `SDL_Init` for. */
  datatype Subsystem = Timer | Video | Events | Haptic | Sensor | Gamepad | Joystick
  const InitSubsystems: set<Subsystem> := {Timer, Video, Events, Haptic, Sensor, Gamepad, Joystick}

  /** `SDL_Init`'s result and, on failure, `SDL_GetError`. */
  datatype InitAnswer = InitAnswer(ok: bool, error: string)

  /** The manager afterwards, the returned bool and the `out initError`. */
  datatype InitResult = InitResult(manager: SDL3PlatformManager, ok: bool, initError: Option<string>)

  const AlreadyInitialized := "Already initialized"

  /** The `IPlatformManager.TryInitialize` contract: a false return comes with a non-null error. */
  predicate HonoursInitContract(r: InitResult) {
    r.ok || r.initError.Some?
  }

  /**
   `TryInitialize`: rejected with "Already initialized" (no SDL call) on an
   initialized manager; otherwise `SDL_Init` decides.
   */
  function TryInitialize(m: SDL3PlatformManager, sdl: InitAnswer): (r: InitResult)
    ensures HonoursInitContract(r)
    ensures r.ok <==> !m.initialized && sdl.ok
    ensures r.ok ==> r.manager.initialized && r.initError == None
    ensures !r.ok ==> r.manager == m
    ensures m.initialized ==> r.initError == Some(AlreadyInitialized)
    ensures !m.initialized && !sdl.ok ==> r.initError == Some(sdl.error)
  {
    if m.initialized then InitResult(m, false, Some(AlreadyInitialized))
    else if !sdl.ok then InitResult(m, false, Some(sdl.error))
    else InitResult(m.(initialized := true), true, None)
  }

  /** The manager afterwards and whether `SDL_Quit` was called. */
  datatype DisposeResult = DisposeResult(manager: SDL3PlatformManager, sdlQuitCalled: bool)

  /** `Dispose`: `SDL_Quit` only when initialized; the manager always ends uninitialized. */
  function Dispose(m: SDL3PlatformManager): (r: DisposeResult)
    ensures !r.manager.initialized
    ensures r.sdlQuitCalled <==> m.initialized
  {
    DisposeResult(m.(initialized := false), m.initialized)
  }

  /** A call on the manager's lifecycle. */
  datatype ManagerOp = InitOp(answer: InitAnswer) | DisposeOp

  /** The manager after a sequence of calls, with how often `SDL_Init` succeeded and `SDL_Quit` ran. */
  datatype Replay = Replay(manager: SDL3PlatformManager, sdlInits: nat, sdlQuits: nat)

  function ReplayOps(m: SDL3PlatformManager, ops: seq<ManagerOp>): Replay
    decreases |ops|
  {
    if |ops| == 0 then Replay(m, 0, 0)
    else
      var last := ops[|ops| - 1];
      var before := ReplayOps(m, ops[..|ops| - 1]);
      match last
      case InitOp(answer) =>
        var r := TryInitialize(before.manager, answer);
        Replay(r.manager, before.sdlInits + (if r.ok then 1 else 0), before.sdlQuits)
      case DisposeOp =>
        var r := Dispose(before.manager);
        Replay(r.manager, before.sdlInits, before.sdlQuits + (if r.sdlQuitCalled then 1 else 0))
  }

  /**
   SDL is never initialized twice and never shut down without having been
   initialized: starting uninitialized, every successful `SDL_Init` is matched by
   one `SDL_Quit`, except for the one still open while the manager is initialized.
   */
  lemma {:induction false} InitAndQuitBalance(ops: seq<ManagerOp>)
    ensures var r := ReplayOps(SDL3PlatformManager(false), ops);
      r.sdlInits == r.sdlQuits + (if r.manager.initialized then 1 else 0)
    decreases |ops|
  {
    if |ops| > 0 {
      InitAndQuitBalance(ops[..|ops| - 1]);
    }
  }

  /** Dispose, then initialize again: re-initialization is allowed after disposal. */
  lemma ReinitializeAfterDispose(m: SDL3PlatformManager, sdl: InitAnswer)
    requires sdl.ok
    ensures TryInitialize(Dispose(m).manager, sdl).ok
    ensures !TryInitialize(TryInitialize(Dispose(m).manager, sdl).manager, sdl).ok
  {
  }

  // ---------------------------------------------------------------------------
  // Event polling

  predicate IsQuit(ev: SdlEvent) {
    ev.eventType == SDL_EVENT_QUIT
  }

  /** Where a drain stands: the `keepRunning` local, and how many quit requests have been delivered. */
  datatype Drained = Drained(keepRunning: bool, quitRequests: nat)

  /**
   One drained event. A quit event is the next quit request: a fresh `true`
   vote goes through the callback and its negation overwrites `keepRunning`.
   */
  function HandleEvent(ev: SdlEvent, callback: seq<nat>, handlers: Handlers, d: Drained): Drained {
    if IsQuit(ev) then
      var quit := Invoke(callback, handlers, d.quitRequests, true);
      Drained(!quit, d.quitRequests + 1)
    else d
  }

  /** The body of the `while` loop, once per event SDL hands out. */
  function Drain(events: seq<SdlEvent>, callback: seq<nat>, handlers: Handlers, d: Drained): Drained
    decreases |events|
  {
    if |events| == 0 then d
    else Drain(events[1..], callback, handlers, HandleEvent(events[0], callback, handlers, d))
  }

  function QuitCount(events: seq<SdlEvent>): nat
    decreases |events|
  {
    if |events| == 0 then 0 else (if IsQuit(events[0]) then 1 else 0) + QuitCount(events[1..])
  }

  predicate HasQuit(events: seq<SdlEvent>) {
    exists i :: 0 <= i < |events| && IsQuit(events[i])
  }

  lemma {:induction false} HasQuitIffCounted(events: seq<SdlEvent>)
    ensures HasQuit(events) <==> QuitCount(events) > 0
    decreases |events|
  {
    if |events| > 0 {
      HasQuitIffCounted(events[1..]);
      if HasQuit(events[1..]) {
        var j :| 0 <= j < |events[1..]| && IsQuit(events[1..][j]);
        assert IsQuit(events[j + 1]);
      }
      if HasQuit(events) && !IsQuit(events[0]) {
        var j :| 0 <= j < |events| && IsQuit(events[j]);
        assert IsQuit(events[1..][j - 1]);
      }
    }
  }

  lemma {:induction false} QuitCountAppend(a: seq<SdlEvent>, b: seq<SdlEvent>)
    ensures QuitCount(a + b) == QuitCount(a) + QuitCount(b)
    decreases |a|
  {
    if |a| == 0 {
      assert a + b == b;
    } else {
      assert (a + b)[1..] == a[1..] + b;
      QuitCountAppend(a[1..], b);
    }
  }

  /**
   A drain in closed form: every quit event is one more request, and the last
   one decides. Request numbers run on from `d.quitRequests`, so the last quit
   event of `events` is request `d.quitRequests + QuitCount(events) - 1`.
   */
  lemma {:induction false} DrainCharacterization(events: seq<SdlEvent>, callback: seq<nat>, handlers: Handlers, d: Drained)
    ensures Drain(events, callback, handlers, d) == Drained(
      if QuitCount(events) == 0 then d.keepRunning
      else !Invoke(callback, handlers, d.quitRequests + QuitCount(events) - 1, true),
      d.quitRequests + QuitCount(events))
    decreases |events|
  {
    if |events| > 0 {
      DrainCharacterization(events[1..], callback, handlers, HandleEvent(events[0], callback, handlers, d));
    }
  }

  /** How a `PollEvents` call ended: it returned, or it is still blocked in `SDL_WaitEvent` after handling every event given. */
  datatype PollOutcome = Returned(drained: Drained) | StillWaiting(drained: Drained)

  /**
   `PollEvents` as written: `while (PollOrWaitForEvents(...))` handles every
   event SDL hands out, starting with quit request number `k`. `SDL_PollEvent`
   returns false once the queue (`events`) is empty, which ends the loop.
   `SDL_WaitEvent` instead blocks until the next event and returns false only
   on an error (`waitError`), so with `waitForEvents` the call returns only then.
   The result is whether to KEEP RUNNING.
   */
  function PollEvents(events: seq<SdlEvent>, waitError: bool, callback: seq<nat>, handlers: Handlers, k: nat, waitForEvents: bool): (r: PollOutcome)
    ensures r.Returned? <==> !waitForEvents || waitError
    ensures r.drained.quitRequests == k + QuitCount(events)
    ensures r.drained.keepRunning <==> QuitCount(events) == 0 || !Invoke(callback, handlers, k + QuitCount(events) - 1, true)
  {
    DrainCharacterization(events, callback, handlers, Drained(true, k));
    var d := Drain(events, callback, handlers, Drained(true, k));
    if !waitForEvents || waitError then Returned(d) else StillWaiting(d)
  }

  /**
   `PollEvents(callback)`: `waitForEvents` defaults to false, so the call
   polls, never blocks, and no SDL error can keep it from returning.
   */
  function PollEventsDefault(events: seq<SdlEvent>, callback: seq<nat>, handlers: Handlers, k: nat): (r: PollOutcome)
    ensures r.Returned?
    ensures forall waitError: bool :: r == PollEvents(events, waitError, callback, handlers, k, false)
  {
    PollEvents(events, false, callback, handlers, k, false)
  }

  /**
   As written, a waiting poll does not come back even when a quit request was
   accepted: unless `SDL_WaitEvent` fails, `Update` and `Quit` are never reached.
   */
  lemma WaitingPollReturnsOnlyOnError(events: seq<SdlEvent>, callback: seq<nat>, handlers: Handlers, k: nat)
    ensures PollEvents(events, false, callback, handlers, k, true).StillWaiting?
    ensures QuitCount(events) > 0 && callback == [] ==> !PollEvents(events, false, callback, handlers, k, true).drained.keepRunning
  {
  }

  /**
   `PollEvents` as `WaitForEvents` is documented (the loop runs "only when the
   app receives events"): when asked to, wait for one event, then drain the
   queue with `SDL_PollEvent` and return. `events` starts with the event the
   wait returned. It always returns, and it handles the events exactly as the
   non-waiting poll does.
   */
  function PollEventsIntended(events: seq<SdlEvent>, callback: seq<nat>, handlers: Handlers, k: nat, waitForEvents: bool): (r: Drained)
    ensures r.quitRequests == k + QuitCount(events)
    ensures r.keepRunning <==> QuitCount(events) == 0 || !Invoke(callback, handlers, k + QuitCount(events) - 1, true)
    ensures PollEventsDefault(events, callback, handlers, k) == Returned(r)
  {
    DrainCharacterization(events, callback, handlers, Drained(true, k));
    Drain(events, callback, handlers, Drained(true, k))
  }

  /**
   The last quit event of the call decides: the result is the negated vote of
   that request, whatever the handlers answered to the earlier ones.
   */
  lemma LastQuitDecides(before: seq<SdlEvent>, quit: SdlEvent, after: seq<SdlEvent>, waitError: bool,
                        callback: seq<nat>, handlers: Handlers, k: nat, waitForEvents: bool)
    requires IsQuit(quit)
    requires forall i :: 0 <= i < |after| ==> !IsQuit(after[i])
    ensures PollEvents(before + [quit] + after, waitError, callback, handlers, k, waitForEvents).drained.keepRunning
        == !Invoke(callback, handlers, k + QuitCount(before), true)
  {
    HasQuitIffCounted(after);
    QuitCountAppend(before, [quit]);
    QuitCountAppend(before + [quit], after);
    assert QuitCount([quit]) == 1 by {
      assert [quit][1..] == [];
    }
  }

  /**
   A handler may veto one request and accept the next. With two quit events in
   one poll the second decides, so the poll stops the application, while the
   first quit event alone would not have.
   */
  lemma LaterRequestOverridesVeto(quit: SdlEvent, waitError: bool, waitForEvents: bool)
    requires IsQuit(quit)
    ensures var vetoFirst: Handlers := (h, k) => if k == 0 then ClearVote else LeaveVote;
      && PollEvents([quit], waitError, [7], vetoFirst, 0, waitForEvents).drained.keepRunning
      && !PollEvents([quit, quit], waitError, [7], vetoFirst, 0, waitForEvents).drained.keepRunning
  {
    var vetoFirst: Handlers := (h, k) => if k == 0 then ClearVote else LeaveVote;
    LastQuitDecides([quit], quit, [], waitError, [7], vetoFirst, 0, waitForEvents);
    LastQuitDecides([], quit, [], waitError, [7], vetoFirst, 0, waitForEvents);
    assert [] + [quit] + [] == [quit];
    assert [quit] + [quit] + [] == [quit, quit];
    assert QuitCount([quit]) == 1 by {
      assert [quit][1..] == [];
    }
  }

  /** Non-quit events have no effect on the result. */
  lemma NonQuitEventsIgnored(a: seq<SdlEvent>, ev: SdlEvent, b: seq<SdlEvent>, waitError: bool,
                             callback: seq<nat>, handlers: Handlers, k: nat, waitForEvents: bool)
    requires !IsQuit(ev)
    ensures PollEvents(a + [ev] + b, waitError, callback, handlers, k, waitForEvents)
         == PollEvents(a + b, waitError, callback, handlers, k, waitForEvents)
  {
    QuitCountAppend(a, [ev]);
    QuitCountAppend(a + [ev], b);
    QuitCountAppend(a, b);
    assert QuitCount([ev]) == 0 by {
      assert [ev][1..] == [];
    }
  }

  /** With no quit callback registered, any quit event stops the application. */
  lemma QuitWithoutCallbackStops(events: seq<SdlEvent>, waitError: bool, handlers: Handlers, k: nat, waitForEvents: bool)
    requires HasQuit(events)
    ensures !PollEvents(events, waitError, [], handlers, k, waitForEvents).drained.keepRunning
  {
    HasQuitIffCounted(events);
  }

  /**
   A veto does not carry over to the next quit event. With a handler that
   always inverts the vote, two quit events in one poll still keep running,
   which a vote threaded from one event to the next would not.
   */
  lemma VoteIsFreshPerQuitEvent(quit: SdlEvent, waitError: bool, waitForEvents: bool)
    requires IsQuit(quit)
    ensures var flip: Handlers := (h, k) => InvertVote;
      && PollEvents([quit, quit], waitError, [0], flip, 0, waitForEvents).drained.keepRunning
      && Invoke([0], flip, 1, Invoke([0], flip, 0, true))
  {
    var flip: Handlers := (h, k) => InvertVote;
    LastQuitDecides([quit], quit, [], waitError, [0], flip, 0, waitForEvents);
    assert [quit] + [quit] + [] == [quit, quit];
    assert QuitCount([quit]) == 1 by {
      assert [quit][1..] == [];
    }
  }

  // ---------------------------------------------------------------------------
  // Message boxes

  /**
   The `MessageBoxType` switch; every enum member is mapped, each to the SDL
   flag of the same severity and no other member to it.
   */
  function TypeFlags(t: MessageBoxType): (f: bv32)
    ensures f == SDL_MESSAGEBOX_ERROR || f == SDL_MESSAGEBOX_WARNING || f == SDL_MESSAGEBOX_INFORMATION
    ensures f == SDL_MESSAGEBOX_INFORMATION <==> t == Info
    ensures f == SDL_MESSAGEBOX_WARNING <==> t == Warning
    ensures f == SDL_MESSAGEBOX_ERROR <==> t == Error
  {
    match t
    case Info => SDL_MESSAGEBOX_INFORMATION
    case Warning => SDL_MESSAGEBOX_WARNING
    case Error => SDL_MESSAGEBOX_ERROR
  }

  /** Distinct message-box types get distinct SDL flags. */
  lemma TypeFlagsInjective(a: MessageBoxType, b: MessageBoxType)
    ensures TypeFlags(a) == TypeFlags(b) ==> a == b
  {
  }

  /** `parent as SDL3Window` then `?.WindowHandle ?? IntPtr.Zero`. */
  function ParentHandle(parent: Option<Sdl3Windows.SDL3Window>): nat {
    match parent
    case Some(w) => w.handle
    case None => 0
  }

  /** `SDL_ShowSimpleMessageBox`'s arguments. */
  datatype SimpleMessageBox = SimpleMessageBox(flags: bv32, title: string, message: string, window: nat)

  /** `SDL_MessageBoxButtonData`. */
  datatype ButtonData = ButtonData(flags: bv32, buttonId: int, text: string)

  /** `SDL_MessageBoxData`. */
  datatype MessageBoxData = MessageBoxData(flags: bv32, window: nat, title: string, message: string, numbuttons: int, buttons: seq<ButtonData>)

  /** What SDL reports from the dialog: the displayed button the user pressed, or the raw id when none was. */
  datatype DialogAnswer = Pressed(index: nat) | Closed(rawId: int)

  /** The native call and the value `ShowMessageBox` returns. */
  datatype MessageBoxCall = MessageBoxCall(data: MessageBoxData, button: int)

  /** The simple form: type mapped to its flag, parent to its handle. */
  function ShowSimpleMessageBox(t: MessageBoxType, title: string, message: string, parent: Option<Sdl3Windows.SDL3Window>): (r: SimpleMessageBox)
    ensures r.flags == TypeFlags(t) && r.title == title && r.message == message
    ensures parent.None? ==> r.window == 0
    ensures parent.Some? ==> r.window == parent.value.handle
  {
    SimpleMessageBox(TypeFlags(t), title, message, ParentHandle(parent))
  }

  /** The button loop: button i gets id i, and the return-key flag iff it is the default. */
  function ButtonsData(buttons: seq<MessageBoxButton>): (r: seq<ButtonData>)
    ensures |r| == |buttons|
    ensures forall i :: 0 <= i < |buttons| ==>
      r[i] == ButtonData(if buttons[i].isDefault then SDL_MESSAGEBOX_BUTTON_RETURNKEY_DEFAULT else 0, i, buttons[i].text)
    decreases |buttons|
  {
    if |buttons| == 0 then []
    else ButtonsData(buttons[..|buttons| - 1]) + [ButtonData(
      if buttons[|buttons| - 1].isDefault then SDL_MESSAGEBOX_BUTTON_RETURNKEY_DEFAULT else 0,
      |buttons| - 1, buttons[|buttons| - 1].text)]
  }

  /**
   The custom-button form: builds the dialog data and returns the id SDL reports,
   which for a pressed button is its position in the caller's list.
   */
  function ShowMessageBox(t: MessageBoxType, title: string, message: string, parent: Option<Sdl3Windows.SDL3Window>,
                          buttons: seq<MessageBoxButton>, answer: DialogAnswer): (r: MessageBoxCall)
    requires answer.Pressed? ==> answer.index < |buttons|
    ensures r.data.flags == TypeFlags(t) && r.data.title == title && r.data.message == message
    ensures r.data.numbuttons == |buttons| == |r.data.buttons|
    ensures forall i :: 0 <= i < |buttons| ==> r.data.buttons[i].buttonId == i && r.data.buttons[i].text == buttons[i].text
    ensures forall i :: 0 <= i < |buttons| ==>
      (r.data.buttons[i].flags == SDL_MESSAGEBOX_BUTTON_RETURNKEY_DEFAULT <==> buttons[i].isDefault)
    ensures r.data.window == ParentHandle(parent)
    ensures answer.Pressed? ==> r.button == answer.index
    ensures answer.Closed? ==> r.button == answer.rawId
  {
    var data := MessageBoxData(TypeFlags(t), ParentHandle(parent), title, message, |buttons|, ButtonsData(buttons));
    var button := match answer
      case Pressed(k) => data.buttons[k].buttonId
      case Closed(raw) => raw;
    MessageBoxCall(data, button)
  }
}
