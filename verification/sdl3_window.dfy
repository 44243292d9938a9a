/**
 The SDL3 backend's window (`SDL3Window`). The native handle is a number, 0
 being `IntPtr.Zero`; every property goes through `EnsureValid` first and
 setter failures are only logged.
 */
module Sdl3Windows {
  import opened Common
  import opened Faults
  import opened PlatformTypes
  import opened SdlNative
  import PlatformInitialize
  import Delegates

  datatype SDL3Window = SDL3Window(
    handle: nat,                          // WindowHandle, 0 once destroyed
    native: NativeWindow,                 // what SDL reports for the handle
    allowToggleFullscreenShortcut: bool,  // plain auto-property
    disposedCallback: seq<nat>)           // IWindow.DisposedCallback invocation list
  {
    /** `IsValid => WindowHandle != IntPtr.Zero`. */
    predicate IsValid() {
      handle != 0
    }
  }

  /** The window properties that go through `EnsureValid`; `WindowSize` is the C# `Size` property. */
  datatype Property =
    | WindowID | Title | Position | WindowSize | PixelSize
    | MinimumSize | MaximumSize | IsFullscreen | IsHidden | Resizable

  datatype PropertyValue = Id(id: bv32) | Text(text: string) | PointValue(point: Point) | SizeValue(size: Size) | Flag(on: bool)

  /** Properties that have a setter (the others are get-only). */
  predicate HasSetter(p: Property) {
    !(p == WindowID || p == PixelSize || p == IsHidden)
  }

  /** The C# type of each property. */
  predicate Fits(p: Property, v: PropertyValue) {
    match p
    case WindowID => v.Id?
    case Title => v.Text?
    case Position => v.PointValue?
    case IsFullscreen | IsHidden | Resizable => v.Flag?
    case _ => v.SizeValue?
  }

  /** What a getter reads from SDL once the handle is known to be valid. */
  function Read(n: NativeWindow, p: Property): (v: PropertyValue)
    ensures Fits(p, v)
  {
    match p
    case WindowID => Id(n.id)
    case Title => Text(n.title)
    case Position => PointValue(n.position)
    case WindowSize => SizeValue(n.size)
    case PixelSize => SizeValue(Size(n.size.width * n.pixelScale, n.size.height * n.pixelScale))
    case MinimumSize => SizeValue(n.minimumSize)
    case MaximumSize => SizeValue(n.maximumSize)
    case IsFullscreen => Flag(n.flags & SDL_WINDOW_FULLSCREEN != 0)
    case IsHidden => Flag(n.flags & SDL_WINDOW_HIDDEN != 0)
    case Resizable => Flag(n.flags & SDL_WINDOW_RESIZABLE != 0)
  }

  function WithBit(flags: bv64, bit: bv64, on: bool): bv64 {
    if on then flags | bit else flags & !bit
  }

  /** What a successful SDL setter call leaves behind. */
  function Write(n: NativeWindow, p: Property, v: PropertyValue): NativeWindow
    requires HasSetter(p) && Fits(p, v)
  {
    match p
    case Title => n.(title := v.text)
    case Position => n.(position := v.point)
    case WindowSize => n.(size := v.size)
    case MinimumSize => n.(minimumSize := v.size)
    case MaximumSize => n.(maximumSize := v.size)
    case IsFullscreen => n.(flags := WithBit(n.flags, SDL_WINDOW_FULLSCREEN, v.on))
    case Resizable => n.(flags := WithBit(n.flags, SDL_WINDOW_RESIZABLE, v.on))
  }

  /** `EnsureValid(WindowHandle)`: throws `ObjectDisposedException` on a null handle. */
  function EnsureValid(handle: nat): (r: Outcome<()>)
    ensures r.Throws? <==> handle == 0
    ensures r.Throws? ==> r.fault == ObjectDisposedException
  {
    if handle == 0 then Throws(ObjectDisposedException) else Returns(())
  }

  /** A property getter. */
  function Get(w: SDL3Window, p: Property): (r: Outcome<PropertyValue>)
    ensures r.Throws? <==> !w.IsValid()
    ensures r.Throws? ==> r.fault == ObjectDisposedException
    ensures r.Returns? ==> Fits(p, r.value)
  {
    match EnsureValid(w.handle)
    case Throws(f) => Throws(f)
    case Returns(_) => Returns(Read(w.native, p))
  }

  /** Result of an advisory call: the window afterwards and whether a warning was logged. */
  datatype Advisory = Advisory(window: SDL3Window, warned: bool)

  /** Everything but the native state is the same. */
  predicate SameWrapper(a: SDL3Window, b: SDL3Window) {
    a.handle == b.handle && a.allowToggleFullscreenShortcut == b.allowToggleFullscreenShortcut
    && a.disposedCallback == b.disposedCallback
  }

  /**
   A property setter: `EnsureValid`, then the SDL call, whose failure
   (`sdlOk == false`) is only logged as a warning and changes nothing.
   */
  function Set(w: SDL3Window, p: Property, v: PropertyValue, sdlOk: bool): (r: Outcome<Advisory>)
    requires HasSetter(p) && Fits(p, v)
    ensures r.Throws? <==> !w.IsValid()
    ensures r.Throws? ==> r.fault == ObjectDisposedException
    ensures r.Returns? ==> r.value.warned == !sdlOk && SameWrapper(r.value.window, w)
    ensures r.Returns? && sdlOk ==> Read(r.value.window.native, p) == v
    ensures r.Returns? && !sdlOk ==> r.value.window == w
  {
    match EnsureValid(w.handle)
    case Throws(f) => Throws(f)
    case Returns(_) =>
      if sdlOk then Returns(Advisory(w.(native := Write(w.native, p, v)), false))
      else Returns(Advisory(w, true))
  }

  /** A successful setter touches only its own property (and the pixel size follows the logical size). */
  lemma SetChangesOnlyItsProperty(w: SDL3Window, p: Property, v: PropertyValue, q: Property)
    requires w.IsValid() && HasSetter(p) && Fits(p, v)
    requires q != p && !(p == WindowSize && q == PixelSize)
    ensures Read(Set(w, p, v, true).value.window.native, q) == Read(w.native, q)
  {
  }

  function SetHidden(w: SDL3Window, hidden: bool, sdlOk: bool): (r: Outcome<Advisory>)
    ensures r.Throws? <==> !w.IsValid()
    ensures r.Throws? ==> r.fault == ObjectDisposedException
    ensures r.Returns? ==> r.value.warned == !sdlOk && SameWrapper(r.value.window, w)
    ensures r.Returns? && sdlOk ==> Read(r.value.window.native, IsHidden) == Flag(hidden)
    ensures r.Returns? && sdlOk ==> forall q :: q != IsHidden ==> Read(r.value.window.native, q) == Read(w.native, q)
    ensures r.Returns? && !sdlOk ==> r.value.window == w
  {
    match EnsureValid(w.handle)
    case Throws(f) => Throws(f)
    case Returns(_) =>
      if sdlOk then Returns(Advisory(w.(native := w.native.(flags := WithBit(w.native.flags, SDL_WINDOW_HIDDEN, hidden))), false))
      else Returns(Advisory(w, true))
  }

  /** `Show()`: `SDL_ShowWindow` clears the hidden flag. */
  function Show(w: SDL3Window, sdlOk: bool): (r: Outcome<Advisory>)
    ensures r.Throws? <==> !w.IsValid()
    ensures r.Returns? && sdlOk ==> Read(r.value.window.native, IsHidden) == Flag(false)
    ensures r.Returns? ==> r.value.warned == !sdlOk
  {
    SetHidden(w, false, sdlOk)
  }

  /** `Hide()`: `SDL_HideWindow` sets the hidden flag. */
  function Hide(w: SDL3Window, sdlOk: bool): (r: Outcome<Advisory>)
    ensures r.Throws? <==> !w.IsValid()
    ensures r.Returns? && sdlOk ==> Read(r.value.window.native, IsHidden) == Flag(true)
    ensures r.Returns? ==> r.value.warned == !sdlOk
  {
    SetHidden(w, true, sdlOk)
  }

  /** `AllowToggleFullscreenShortcut = on`: a plain field, so it works on a disposed window too. */
  function SetAllowToggleFullscreenShortcut(w: SDL3Window, on: bool): (r: SDL3Window)
    ensures r.allowToggleFullscreenShortcut == on
    ensures r.handle == w.handle && r.native == w.native && r.disposedCallback == w.disposedCallback
  {
    w.(allowToggleFullscreenShortcut := on)
  }

  /** `OnDisposed += cb`. */
  function AddOnDisposed(w: SDL3Window, cb: nat): (r: SDL3Window)
    ensures r.disposedCallback == w.disposedCallback + [cb]
    ensures r.(disposedCallback := w.disposedCallback) == w
  {
    w.(disposedCallback := Delegates.Combine(w.disposedCallback, cb))
  }

  /** `OnDisposed -= cb`, guarded by the null check: a no-op while nothing is registered. */
  function RemoveOnDisposed(w: SDL3Window, cb: nat): (r: SDL3Window)
    ensures |w.disposedCallback| == 0 ==> r == w
    ensures cb !in w.disposedCallback ==> r == w
    ensures multiset(r.disposedCallback) == multiset(w.disposedCallback) - multiset{cb}
    ensures r.(disposedCallback := w.disposedCallback) == w
  {
    w.(disposedCallback := Delegates.RemoveIfSubscribed(w.disposedCallback, cb))
  }

  // ---------------------------------------------------------------------------
  // Construction

  /** What SDL answers while a window is being constructed. */
  datatype CreateAnswer = CreateAnswer(
    handle: nat,            // SDL_CreateWindow's result, 0 on failure
    id: bv32,               // SDL_GetWindowID
    position: Point,        // where the window manager put it
    pixelScale: nat,        // display scaling
    error: string,          // SDL_GetError after the call
    minimumSizeOk: bool,    // SDL_SetWindowMinimumSize's result, if called
    maximumSizeOk: bool)    // SDL_SetWindowMaximumSize's result, if called

  /** A constructed window and the number of warnings logged on the way. */
  datatype Created = Created(window: SDL3Window, warnings: nat)

  const DefaultTitle := "Radish SDK Game"
  const HandleCheckText := "WindowHandle != IntPtr.Zero"

  /** Every window is created hidden with high pixel density; fullscreen only on request. */
  function CreationFlags(startFullscreen: bool): (f: bv64)
    ensures f & SDL_WINDOW_HIDDEN != 0
    ensures f & SDL_WINDOW_HIGH_PIXEL_DENSITY != 0
    ensures (f & SDL_WINDOW_FULLSCREEN != 0) <==> startFullscreen
    ensures f & SDL_WINDOW_RESIZABLE == 0
  {
    var flags := SDL_WINDOW_HIDDEN | SDL_WINDOW_HIGH_PIXEL_DENSITY;
    if startFullscreen then flags | SDL_WINDOW_FULLSCREEN else flags
  }

  /** `Title ?? entry assembly name ?? "Radish SDK Game"`. */
  function InitialTitle(params: WindowInitParams, entryAssemblyName: Option<string>): (t: string)
    ensures params.title.Some? ==> t == params.title.value
    ensures params.title.None? && entryAssemblyName.Some? ==> t == entryAssemblyName.value
    ensures params.title.None? && entryAssemblyName.None? ==> t == DefaultTitle
  {
    params.title.OrElse(entryAssemblyName.OrElse(DefaultTitle))
  }

  /** Applies an optional minimum or maximum size through its setter, only when one was given. */
  function ApplyOptionalSize(c: Created, p: Property, size: Option<Size>, sdlOk: bool): (r: Created)
    requires c.window.IsValid() && (p == MinimumSize || p == MaximumSize)
    ensures SameWrapper(r.window, c.window)
    ensures size.None? ==> r == c
    ensures size.Some? && sdlOk ==> Read(r.window.native, p) == SizeValue(size.value) && r.warnings == c.warnings
    ensures size.Some? && !sdlOk ==> r.window == c.window && r.warnings == c.warnings + 1
    ensures forall q :: q != p ==> Read(r.window.native, q) == Read(c.window.native, q)
  {
    match size
    case None => c
    case Some(s) =>
      var a := Set(c.window, p, SizeValue(s), sdlOk).value;
      Created(a.window, c.warnings + if a.warned then 1 else 0)
  }

  /**
   The constructor: creates the native window, throws `PlatformInitializeException`
   with SDL's error when the handle is null, then applies the optional size limits.
   */
  function Create(params: WindowInitParams, entryAssemblyName: Option<string>, sdl: CreateAnswer): (r: Outcome<Created>)
    ensures r.Throws? <==> sdl.handle == 0
    ensures r.Throws? ==> r.fault.PlatformInitializeException? && r.fault.error == Some(sdl.error)
    ensures r.Returns? ==>
      var w := r.value.window;
      && w.IsValid() && w.handle == sdl.handle
      && Read(w.native, IsHidden) == Flag(true)
      && Read(w.native, IsFullscreen) == Flag(params.startFullscreen)
      && Read(w.native, Resizable) == Flag(false)
      && Read(w.native, Title) == Text(InitialTitle(params, entryAssemblyName))
      && Read(w.native, WindowSize) == SizeValue(params.size)
      && Read(w.native, WindowID) == Id(sdl.id)
      && (params.minimumSize.Some? && sdl.minimumSizeOk ==> Read(w.native, MinimumSize) == SizeValue(params.minimumSize.value))
      && (params.minimumSize.None? ==> Read(w.native, MinimumSize) == SizeValue(Size(0, 0)))
      && (params.maximumSize.Some? && sdl.maximumSizeOk ==> Read(w.native, MaximumSize) == SizeValue(params.maximumSize.value))
      && (params.maximumSize.None? ==> Read(w.native, MaximumSize) == SizeValue(Size(0, 0)))
      && !w.allowToggleFullscreenShortcut && w.disposedCallback == []
      && r.value.warnings == (if params.minimumSize.Some? && !sdl.minimumSizeOk then 1 else 0)
                           + (if params.maximumSize.Some? && !sdl.maximumSizeOk then 1 else 0)
  {
    var native := NativeWindow(sdl.id, InitialTitle(params, entryAssemblyName), sdl.position, params.size,
                               sdl.pixelScale, Size(0, 0), Size(0, 0), CreationFlags(params.startFullscreen));
    match PlatformInitialize.ThrowIfFailed(sdl.handle != 0, Some(sdl.error), Some(HandleCheckText))
    case Throws(f) => Throws(f)
    case Returns(_) =>
      var c0 := Created(SDL3Window(sdl.handle, native, false, []), 0);
      var c1 := ApplyOptionalSize(c0, MinimumSize, params.minimumSize, sdl.minimumSizeOk);
      Returns(ApplyOptionalSize(c1, MaximumSize, params.maximumSize, sdl.maximumSizeOk))
  }

  // ---------------------------------------------------------------------------
  // Alt+Enter

  /** The four conditions of the fullscreen shortcut, for a key-down event. */
  predicate IsToggleShortcut(allow: bool, windowId: bv32, ev: SdlEvent) {
    && allow
    && ev.windowId == windowId
    && ev.mod & SDL_KMOD_ALT != 0
    && ev.key == SDLK_RETURN
  }

  /**
   `OnSDLEvent`: on a key-down event, `AllowToggleFullscreenShortcut` is tested
   first; only then is `WindowID` read (which throws on a disposed window), then
   the modifier and the key; a match runs `IsFullscreen = !IsFullscreen`.
   */
  function OnSDLEvent(w: SDL3Window, ev: SdlEvent, sdlOk: bool): (r: Outcome<Advisory>)
    ensures r.Throws? <==> ev.eventType == SDL_EVENT_KEY_DOWN && w.allowToggleFullscreenShortcut && !w.IsValid()
    ensures r.Returns? ==> SameWrapper(r.value.window, w)
    ensures r.Returns? ==>
      var toggles := ev.eventType == SDL_EVENT_KEY_DOWN && IsToggleShortcut(w.allowToggleFullscreenShortcut, w.native.id, ev);
      && (Read(r.value.window.native, IsFullscreen) != Read(w.native, IsFullscreen) <==> toggles && sdlOk)
      && (r.value.warned <==> toggles && !sdlOk)
  {
    if ev.eventType != SDL_EVENT_KEY_DOWN || !w.allowToggleFullscreenShortcut then
      Returns(Advisory(w, false))
    else
      match Get(w, WindowID)
      case Throws(f) => Throws(f)
      case Returns(id) =>
        if id.id != ev.windowId || ev.mod & SDL_KMOD_ALT == 0 || ev.key != SDLK_RETURN then
          Returns(Advisory(w, false))
        else
          match Get(w, IsFullscreen)
          case Throws(f) => Throws(f)
          case Returns(current) => Set(w, IsFullscreen, Flag(!current.on), sdlOk)
  }

  // ---------------------------------------------------------------------------
  // Disposal

  /** The window after `Dispose()` and whether `SDL_DestroyWindow` was called. */
  datatype Disposal = Disposal(window: SDL3Window, destroyedNative: bool)

  /**
   `Dispose()`: destroys the native window only while the handle is set, then
   clears it. `DisposedCallback` is never invoked.
   */
  function Dispose(w: SDL3Window): (r: Disposal)
    ensures !r.window.IsValid()
    ensures r.destroyedNative <==> w.IsValid()
    ensures r.window.native == w.native
    ensures r.window.allowToggleFullscreenShortcut == w.allowToggleFullscreenShortcut
    ensures r.window.disposedCallback == w.disposedCallback
  {
    if w.handle != 0 then Disposal(w.(handle := 0), true) else Disposal(w, false)
  }

  /** A second `Dispose` destroys nothing and changes nothing. */
  lemma DisposeIsIdempotent(w: SDL3Window)
    ensures Dispose(Dispose(w).window) == Disposal(Dispose(w).window, false)
  {
  }

  /** Once disposed, every property getter and setter and `Show`/`Hide` throw; the shortcut flag still works. */
  lemma DisposedWindowRejectsAccess(w: SDL3Window, p: Property, v: PropertyValue, sdlOk: bool)
    requires HasSetter(p) && Fits(p, v)
    ensures var d := Dispose(w).window;
      && Get(d, p) == Throws(ObjectDisposedException)
      && Set(d, p, v, sdlOk) == Throws(ObjectDisposedException)
      && Show(d, sdlOk).Throws? && Hide(d, sdlOk).Throws?
      && SetAllowToggleFullscreenShortcut(d, true).allowToggleFullscreenShortcut
  {
  }

  /** A successful setter followed by the getter returns the value written. */
  lemma GetAfterSet(w: SDL3Window, p: Property, v: PropertyValue)
    requires w.IsValid() && HasSetter(p) && Fits(p, v)
    ensures Get(Set(w, p, v, true).value.window, p) == Returns(v)
  {
  }

  // ---------------------------------------------------------------------------
  // Lifecycle

  /** One call a client can make on a window, with SDL's answer where one is needed. */
  datatype WindowOp =
    | SetProperty(p: Property, v: PropertyValue, sdlOk: bool)
    | ShowWindow(sdlOk: bool)
    | HideWindow(sdlOk: bool)
    | Event(ev: SdlEvent, sdlOk: bool)
    | AllowShortcut(on: bool)
    | DisposeWindow

  predicate WellTyped(op: WindowOp) {
    op.SetProperty? ==> HasSetter(op.p) && Fits(op.p, op.v)
  }

  /** One call; a call that throws leaves the window as it was. */
  function ApplyOp(w: SDL3Window, op: WindowOp): SDL3Window
    requires WellTyped(op)
  {
    match op
    case SetProperty(p, v, ok) => (match Set(w, p, v, ok) case Returns(a) => a.window case Throws(_) => w)
    case ShowWindow(ok) => (match Show(w, ok) case Returns(a) => a.window case Throws(_) => w)
    case HideWindow(ok) => (match Hide(w, ok) case Returns(a) => a.window case Throws(_) => w)
    case Event(ev, ok) => (match OnSDLEvent(w, ev, ok) case Returns(a) => a.window case Throws(_) => w)
    case AllowShortcut(on) => SetAllowToggleFullscreenShortcut(w, on)
    case DisposeWindow => Dispose(w).window
  }

  function ApplyOps(w: SDL3Window, ops: seq<WindowOp>): SDL3Window
    requires forall i :: 0 <= i < |ops| ==> WellTyped(ops[i])
    decreases |ops|
  {
    if |ops| == 0 then w else ApplyOps(ApplyOp(w, ops[0]), ops[1..])
  }

  /**
   A window is valid exactly while it was created successfully and has not been
   disposed: no other call clears the handle, and nothing sets it again.
   */
  lemma {:induction false} ValidUntilDisposed(w: SDL3Window, ops: seq<WindowOp>)
    requires forall i :: 0 <= i < |ops| ==> WellTyped(ops[i])
    ensures ApplyOps(w, ops).IsValid() <==> w.IsValid() && forall i :: 0 <= i < |ops| ==> !ops[i].DisposeWindow?
    decreases |ops|
  {
    if |ops| > 0 {
      ValidUntilDisposed(ApplyOp(w, ops[0]), ops[1..]);
      assert forall i :: 1 <= i < |ops| ==> ops[i] == ops[1..][i - 1];
    }
  }

  /** A freshly created window stays valid through any calls that do not dispose it. */
  lemma CreatedWindowValidUntilDisposed(params: WindowInitParams, entryAssemblyName: Option<string>, sdl: CreateAnswer, ops: seq<WindowOp>)
    requires sdl.handle != 0
    requires forall i :: 0 <= i < |ops| ==> WellTyped(ops[i])
    ensures Create(params, entryAssemblyName, sdl).Returns?
    ensures ApplyOps(Create(params, entryAssemblyName, sdl).value.window, ops).IsValid()
        <==> forall i :: 0 <= i < |ops| ==> !ops[i].DisposeWindow?
  {
    ValidUntilDisposed(Create(params, entryAssemblyName, sdl).value.window, ops);
  }
}
