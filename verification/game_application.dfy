/**
 `GameApplication`: an `Application` with default init parameters that
 creates one main window and enables the Alt+Enter fullscreen shortcut on it.
 */
module GameApplications {
  import opened Common
  import opened Faults
  import opened PlatformTypes
  import opened Sdl3Windows
  import opened Sdl3Platform
  import opened Applications

  /** `mainWindow` is the `MainWindow` reference: an index into the application's window table. */
  datatype GameApplication = GameApplication(app: Application, mainWindow: nat)

  /** `GameApplication.Instance` casts `Application.Instance`, which is always null. */
  const GameInstance: Option<GameApplication> := None

  /** The main window: no title, 1280x720, at least 640x480, no maximum, windowed. */
  const MainWindowParams := WindowInitParams(None, Size(1280, 720), Some(Size(640, 480)), None, false)

  /**
   The constructor: the base constructor with `WaitForEvents` left false, then
   the main window, then its shortcut switched on through the `MainWindow`
   reference. Both the base constructor and the window creation can throw.
   */
  function Construct(pm: SDL3PlatformManager, sdlInit: InitAnswer, entryAssemblyName: Option<string>, sdlWindow: CreateAnswer): (r: Outcome<GameApplication>)
    ensures r.Returns? <==> TryInitialize(pm, sdlInit).ok && sdlWindow.handle != 0
    ensures r.Throws? ==> r.fault.PlatformInitializeException?
    ensures r.Returns? ==>
      var g := r.value;
      && g.mainWindow == 0 && |g.app.windows| == 1
      && !g.app.waitForEvents && !g.app.isRunning && g.app.platformManager.initialized
      && g.app.quitCallback == [] && g.app.faultHandlerInstalled
      && var main := g.app.windows[g.mainWindow];
      && main.IsValid() && main.allowToggleFullscreenShortcut
      && main.disposedCallback == [RemoveFromWindows]
      && Read(main.native, IsHidden) == Flag(true)
      && Read(main.native, IsFullscreen) == Flag(false)
      && Read(main.native, WindowSize) == SizeValue(Size(1280, 720))
      && Read(main.native, MaximumSize) == SizeValue(Size(0, 0))
      && (sdlWindow.minimumSizeOk ==> Read(main.native, MinimumSize) == SizeValue(Size(640, 480)))
  {
    match Applications.Construct(DefaultInitParams(pm), sdlInit)
    case Throws(f) => Throws(f)
    case Returns(app) =>
      match CreateWindow(app, MainWindowParams, entryAssemblyName, sdlWindow)
      case Throws(f) => Throws(f)
      case Returns(c) =>
        Returns(GameApplication(CallWindow(c.app, c.index, AllowShortcut(true)).app, c.index))
  }

  /**
   `OnSDLEvent` of the main window, if it is handed an Alt+Enter key-down for
   that window, toggles fullscreen from the windowed state it was created in.
   The event goes through the `MainWindow` reference, so the table entry is
   the window that changes, and the call neither throws nor warns.
   */
  lemma MainWindowTogglesOnAltEnter(pm: SDL3PlatformManager, sdlInit: InitAnswer, entryAssemblyName: Option<string>,
                                     sdlWindow: CreateAnswer, ev: SdlNative.SdlEvent)
    requires Construct(pm, sdlInit, entryAssemblyName, sdlWindow).Returns?
    requires ev.eventType == SdlNative.SDL_EVENT_KEY_DOWN && ev.key == SdlNative.SDLK_RETURN
    requires ev.mod & SdlNative.SDL_KMOD_ALT != 0
    requires var g := Construct(pm, sdlInit, entryAssemblyName, sdlWindow).value;
      ev.windowId == g.app.windows[g.mainWindow].native.id
    ensures var g := Construct(pm, sdlInit, entryAssemblyName, sdlWindow).value;
      var main := g.app.windows[g.mainWindow];
      var call := CallWindow(g.app, g.mainWindow, Event(ev, true));
      && OnSDLEvent(main, ev, true).Returns? && !OnSDLEvent(main, ev, true).value.warned
      && Read(call.app.windows[g.mainWindow].native, IsFullscreen) == Flag(true)
      && call.app.windows[g.mainWindow].IsValid()
  {
  }
}
