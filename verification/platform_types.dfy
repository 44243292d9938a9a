/** The plain records the platform contract exchanges (`System.Drawing` sizes, message-box and window parameters). */
module PlatformTypes {
  import opened Common

  /** `System.Drawing.Size`. */
  datatype Size = Size(width: int, height: int)

  /** `System.Drawing.Point`. */
  datatype Point = Point(x: int, y: int)

  /** Icon of a message box. */
  datatype MessageBoxType = Info | Warning | Error

  /** A custom message-box button; `isDefault` marks the one Return selects. */
  datatype MessageBoxButton = MessageBoxButton(text: string, isDefault: bool)

  /** Creation parameters of a window; the optional members default to null / false. */
  datatype WindowInitParams = WindowInitParams(
    title: Option<string>,
    size: Size,
    minimumSize: Option<Size>,
    maximumSize: Option<Size>,
    startFullscreen: bool)
}
