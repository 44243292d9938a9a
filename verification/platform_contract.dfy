/**
 The backend-independent platform contract (`IPlatformManager`): the default
 `TryCreateWindow`, which turns the `PlatformInitializeException` thrown by
 `CreateWindow` into a result value.
 */
module PlatformContract {
  import opened Common
  import opened Faults
  import opened PlatformTypes
  import Sdl3Windows

  /** The return value and the two `out` parameters of `TryCreateWindow`. */
  datatype TryCreateResult<W> = TryCreateResult(ok: bool, window: Option<W>, errorMessage: Option<string>)

  /**
   `TryCreateWindow` given what `CreateWindow` did: a returned window is passed
   on; a `PlatformInitializeException` becomes `false` with its `Error` as the
   message; any other exception is not caught.
   */
  function TryCreateWindow<W>(created: Outcome<W>): (r: Outcome<TryCreateResult<W>>)
    ensures r.Throws? <==> created.Throws? && !created.fault.PlatformInitializeException?
    ensures r.Throws? ==> r.fault == created.fault
    ensures r.Returns? ==> (r.value.ok <==> created.Returns?) && (r.value.ok <==> r.value.window.Some?)
    ensures r.Returns? && r.value.ok ==> r.value.window == Some(created.value) && r.value.errorMessage == None
    ensures r.Returns? && !r.value.ok ==> r.value.errorMessage == created.fault.error
  {
    match created
    case Returns(w) => Returns(TryCreateResult(true, Some(w), None))
    case Throws(f) =>
      if f.PlatformInitializeException? then Returns(TryCreateResult(false, None, f.error))
      else Throws(f)
  }

  /**
   Over the SDL3 backend `TryCreateWindow` never throws: it succeeds exactly when
   SDL hands out a window, and otherwise reports SDL's error string.
   */
  lemma Sdl3TryCreateWindow(params: WindowInitParams, entryAssemblyName: Option<string>, sdl: Sdl3Windows.CreateAnswer)
    ensures var created := Sdl3Windows.Create(params, entryAssemblyName, sdl);
      var r := TryCreateWindow(created);
      && r.Returns?
      && (r.value.ok <==> sdl.handle != 0)
      && (r.value.ok ==> r.value.window.value.window.IsValid())
      && (!r.value.ok ==> r.value.errorMessage == Some(sdl.error))
  {
  }
}
