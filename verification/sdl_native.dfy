/**
 The slice of the SDL3 C API the backend calls. Native calls are not modelled:
 what SDL answers is passed in as a parameter, and only the constants and the
 shapes of the records SDL exchanges live here.
 */
module SdlNative {
  import opened PlatformTypes

  // SDL_WindowFlags
  const SDL_WINDOW_FULLSCREEN: bv64 := 0x1
  const SDL_WINDOW_HIDDEN: bv64 := 0x8
  const SDL_WINDOW_RESIZABLE: bv64 := 0x20
  const SDL_WINDOW_HIGH_PIXEL_DENSITY: bv64 := 0x2000

  // SDL_EventType
  const SDL_EVENT_QUIT: bv32 := 0x100
  const SDL_EVENT_KEY_DOWN: bv32 := 0x300

  // SDL_Keymod (either Alt key) and SDL_Keycode
  const SDL_KMOD_ALT: bv16 := 0x0300
  const SDLK_RETURN: bv32 := 0x0000000d

  // SDL_MessageBoxFlags and SDL_MessageBoxButtonFlags
  const SDL_MESSAGEBOX_ERROR: bv32 := 0x10
  const SDL_MESSAGEBOX_WARNING: bv32 := 0x20
  const SDL_MESSAGEBOX_INFORMATION: bv32 := 0x40
  const SDL_MESSAGEBOX_BUTTON_RETURNKEY_DEFAULT: bv32 := 0x1

  /** The fields of an `SDL_Event` the backend reads: its type and, for keyboard events, the key data. */
  datatype SdlEvent = SdlEvent(eventType: bv32, windowId: bv32, mod: bv16, key: bv32)

  /**
   What SDL reports about a live window. The pixel size is the logical size
   times the display's (integer) pixel scale.
   */
  datatype NativeWindow = NativeWindow(
    id: bv32,
    title: string,
    position: Point,
    size: Size,
    pixelScale: nat,
    minimumSize: Size,
    maximumSize: Size,
    flags: bv64)
}
