/** The host windowing API's values, as plain immutable records.

    The windowing library hands out opaque window and monitor handles and is
    queried for their geometry; here every handle is replaced by a snapshot of
    what the queries would return, and writing a window position becomes a
    pure update that returns the new window record. */
module Model {

  /** The usual optional value: absent (`None`) or present (`Some`). */
  datatype Option<T> = None | Some(value: T)

  /** A point in virtual-screen coordinates (signed 32-bit in the host API). */
  datatype Point = Point(x: int, y: int)

  /** A window size as the host reports it. The host uses signed integers and
      the centering code does not check that they are non-negative. */
  datatype Size = Size(width: int, height: int)

  /** A monitor's active resolution; the host reports unsigned integers. */
  datatype VideoMode = VideoMode(width: nat, height: nat)

  /** A connected monitor: its position, and its video mode when the host
      currently has one (a monitor may transiently report none). */
  datatype Monitor = Monitor(pos: Point, mode: Option<VideoMode>)

  /** A window: the position of its top-left corner and its size. */
  datatype Window = Window(pos: Point, size: Size)

  /** Moving a window: the new position is taken verbatim and the size is kept. */
  function SetPos(w: Window, x: int, y: int): (r: Window)
    ensures r.pos == Point(x, y)
    ensures r.size == w.size
  {
    w.(pos := Point(x, y))
  }
}
