/**
 * Values that the layout cache passes around: the window records the window
 * server reports, integer rectangles, accessibility window handles and the
 * attribute writes issued against them.
 */
module Windows {

  datatype Option<+T> = None | Some(value: T)

  /** Swift's `Int32`, the type of a process identifier and of a window layer. */
  newtype int32 = x: int | -0x8000_0000 <= x < 0x8000_0000

  /** A process identifier (`pid_t`). */
  type Pid = int32

  datatype Point = Point(x: int, y: int)
  datatype Size = Size(width: int, height: int)

  /**
   * A window's bounds.  The program builds every rectangle from the integer
   * fields "X", "Y", "Width" and "Height" of a window record, so the model keeps
   * them as integers; `origin` and `size` are the two halves written back.
   */
  datatype Rect = Rect(x: int, y: int, width: int, height: int) {
    function Origin(): Point {
      Point(x, y)
    }

    function Extent(): Size {
      Size(width, height)
    }
  }

  /**
   * One entry of the on-screen window list: the owning process, the window
   * layer, and the bounds dictionary when it holds all four integer keys
   * (None stands for a record whose bounds cannot be read as integers).
   */
  datatype WindowInfo = WindowInfo(pid: Pid, layer: int32, bounds: Option<Rect>)

  /**
   * The program unwraps the bounds of every layer-0 entry and would stop there
   * if they were missing; entries of any other layer are skipped before their
   * bounds are looked at.
   */
  predicate WellFormed(windowList: seq<WindowInfo>) {
    forall j :: 0 <= j < |windowList| && windowList[j].layer == 0 ==> windowList[j].bounds.Some?
  }

  /** The per-process snapshot: each pid's layer-0 window bounds in window-list order. */
  type Snapshot = map<Pid, seq<Rect>>

  /**
   * An accessibility element of an application's window list, with its role
   * attribute when that attribute is present and is a string.
   */
  datatype Element = Element(id: int, role: Option<string>)

  /** The value of the window role constant. */
  const WindowRole: string := "AXWindow"

  /**
   * The accessibility view of the running applications: for each pid, the
   * elements of its windows attribute.  A pid without an entry is an
   * application whose windows attribute cannot be read as a list of elements.
   */
  type AXTree = map<Pid, seq<Element>>

  /** The two attributes the restore writes onto a window. */
  datatype AXValue = Position(point: Point) | Dimensions(size: Size)

  /** One attribute write: the element it targets and the value written. */
  datatype AXWrite = AXWrite(target: Element, value: AXValue)
}
