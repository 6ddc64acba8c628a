/**
 * The accessibility side of a restore: an application's window list filtered
 * down to the elements whose role is the window role.
 */
module Accessibility {
  import opened Windows

  predicate IsWindow(e: Element) {
    e.role == Some(WindowRole)
  }

  /**
   * The elements of `elements` whose role is the window role, in their
   * original order.
   */
  function WindowsOnly(elements: seq<Element>): (r: seq<Element>)
    ensures |r| <= |elements|
    ensures forall e :: e in r <==> e in elements && IsWindow(e)
    decreases |elements|
  {
    if elements == [] then []
    else
      var last := elements[|elements| - 1];
      WindowsOnly(elements[..|elements| - 1]) + (if IsWindow(last) then [last] else [])
  }

  /** The handles `axWinList` yields for `pid` under the accessibility view `ax`. */
  function LiveWindows(ax: AXTree, pid: Pid): seq<Element> {
    if pid in ax then WindowsOnly(ax[pid]) else []
  }

  /** Filtering distributes over concatenation, so the relative order of windows is kept. */
  lemma {:induction false} WindowsOnlyAppend(front: seq<Element>, back: seq<Element>)
    ensures WindowsOnly(front + back) == WindowsOnly(front) + WindowsOnly(back)
    decreases |back|
  {
    if back == [] {
      assert front + back == front;
    } else {
      var n := |back| - 1;
      assert (front + back)[..|front + back| - 1] == front + back[..n];
      WindowsOnlyAppend(front, back[..n]);
    }
  }

  /**
   * axWinList: reads the windows attribute of the application `pid`, keeps
   * the elements whose role is the window role, and yields nothing when the
   * attribute is unavailable.
   */
  method AxWinList(pid: Pid, ax: AXTree) returns (windows: seq<Element>)
    ensures pid !in ax ==> windows == []
    ensures pid in ax ==> windows == WindowsOnly(ax[pid])
    ensures windows == LiveWindows(ax, pid)
  {
    if pid !in ax {
      return [];
    }
    var windowList := ax[pid];
    var tmp: seq<Element> := [];
    for i := 0 to |windowList|
      invariant tmp == WindowsOnly(windowList[..i])
    {
      var win := windowList[i];
      assert windowList[..i + 1][..i] == windowList[..i];
      if win.role == Some(WindowRole) {
        tmp := tmp + [win];
      }
    }
    assert windowList[..|windowList|] == windowList;
    return tmp;
  }
}
