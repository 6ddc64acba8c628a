/**
 * Positional restore: a snapshot's bounds written back, index by index, onto
 * each process's live window handles, as a log of accessibility writes.
 */
module Restore {
  import opened Windows
  import opened Accessibility

  /**
   * The writes that move handle i to `sizes[i]`: its position, then its size,
   * for every index in increasing order.
   */
  function Moves(windows: seq<Element>, sizes: seq<Rect>): (w: seq<AXWrite>)
    requires |windows| == |sizes|
    ensures |w| == 2 * |sizes|
    ensures forall i :: 0 <= i < |sizes| ==>
      w[2 * i] == AXWrite(windows[i], Position(sizes[i].Origin()))
      && w[2 * i + 1] == AXWrite(windows[i], Dimensions(sizes[i].Extent()))
    decreases |sizes|
  {
    if sizes == [] then []
    else
      var n := |sizes| - 1;
      Moves(windows[..n], sizes[..n])
        + [AXWrite(windows[n], Position(sizes[n].Origin())), AXWrite(windows[n], Dimensions(sizes[n].Extent()))]
  }

  /** True when the handle count lets `sizes` be applied positionally. */
  predicate Matches(windows: seq<Element>, sizes: seq<Rect>) {
    0 < |windows| && |windows| == |sizes|
  }

  /** The writes of one process: none unless the handle and bounds counts match. */
  function ProcessWrites(windows: seq<Element>, sizes: seq<Rect>): seq<AXWrite> {
    if Matches(windows, sizes) then Moves(windows, sizes) else []
  }

  /** The writes of restoring the processes of `order`, one after another. */
  function RestoreWrites(snapshot: Snapshot, ax: AXTree, order: seq<Pid>): seq<AXWrite>
    requires forall pid :: pid in order ==> pid in snapshot
    decreases |order|
  {
    if order == [] then []
    else
      var n := |order| - 1;
      RestoreWrites(snapshot, ax, order[..n]) + ProcessWrites(LiveWindows(ax, order[n]), snapshot[order[n]])
  }

  /** `order` lists every pid of `pids` exactly once. */
  predicate Enumerates(order: seq<Pid>, pids: set<Pid>) {
    && (forall pid :: pid in order <==> pid in pids)
    && (forall i, j :: 0 <= i < j < |order| ==> order[i] != order[j])
  }

  /**
   * `w` is one of the two writes that move the live handle i of `pid` to the
   * cached entry i, in a process whose handle and bounds counts match.
   */
  predicate MovesEntry(snapshot: Snapshot, ax: AXTree, pid: Pid, i: int, w: AXWrite) {
    && pid in snapshot
    && Matches(LiveWindows(ax, pid), snapshot[pid])
    && 0 <= i < |snapshot[pid]|
    && (|| w == AXWrite(LiveWindows(ax, pid)[i], Position(snapshot[pid][i].Origin()))
        || w == AXWrite(LiveWindows(ax, pid)[i], Dimensions(snapshot[pid][i].Extent())))
  }

  /** `w` moves some handle of a process whose counts match to its cached entry. */
  ghost predicate FromMatched(snapshot: Snapshot, ax: AXTree, w: AXWrite) {
    exists pid, i :: MovesEntry(snapshot, ax, pid, i, w)
  }

  /**
   * Every write of a restore belongs to a process whose live handle count
   * equals its cached bounds count, and moves that process's handle i to
   * cached entry i.
   */
  lemma {:induction false} RestoreWritesFromMatched(snapshot: Snapshot, ax: AXTree, order: seq<Pid>, k: nat)
    requires forall pid :: pid in order ==> pid in snapshot
    requires k < |RestoreWrites(snapshot, ax, order)|
    ensures exists pid, i :: pid in order && MovesEntry(snapshot, ax, pid, i, RestoreWrites(snapshot, ax, order)[k])
    decreases |order|
  {
    var n := |order| - 1;
    var front := RestoreWrites(snapshot, ax, order[..n]);
    var pid := order[n];
    var tail := ProcessWrites(LiveWindows(ax, pid), snapshot[pid]);
    var w := RestoreWrites(snapshot, ax, order)[k];
    assert RestoreWrites(snapshot, ax, order) == front + tail;
    if k < |front| {
      assert w == front[k];
      RestoreWritesFromMatched(snapshot, ax, order[..n], k);
      var p, i :| p in order[..n] && MovesEntry(snapshot, ax, p, i, front[k]);
      assert p in order;
    } else {
      assert w == tail[k - |front|];
      MovesAt(LiveWindows(ax, pid), snapshot[pid], k - |front|);
      assert MovesEntry(snapshot, ax, pid, (k - |front|) / 2, w);
    }
  }

  /** Write m of `Moves` is the position (m even) or the size (m odd) for handle m / 2. */
  lemma MovesAt(windows: seq<Element>, sizes: seq<Rect>, m: nat)
    requires |windows| == |sizes| && m < 2 * |sizes|
    ensures 0 <= m / 2 < |sizes|
    ensures Moves(windows, sizes)[m] ==
      if m % 2 == 0 then AXWrite(windows[m / 2], Position(sizes[m / 2].Origin()))
      else AXWrite(windows[m / 2], Dimensions(sizes[m / 2].Extent()))
  {
  }

  /** Restoring one more process adds no write exactly when its counts do not match. */
  lemma RestoreWritesSkipMismatch(snapshot: Snapshot, ax: AXTree, order: seq<Pid>, pid: Pid)
    requires forall p :: p in order ==> p in snapshot
    requires pid in snapshot
    ensures RestoreWrites(snapshot, ax, order + [pid]) == RestoreWrites(snapshot, ax, order)
      <==> !Matches(LiveWindows(ax, pid), snapshot[pid])
  {
  }

  /**
   * setWindowSizes: looks up the process's window handles and, only when
   * there is at least one and there are as many as cached bounds, moves
   * handle i to `sizes[i]`, position first and size second.
   */
  method SetWindowSizes(pid: Pid, sizes: seq<Rect>, ax: AXTree) returns (writes: seq<AXWrite>)
    ensures !Matches(LiveWindows(ax, pid), sizes) ==> writes == []
    ensures Matches(LiveWindows(ax, pid), sizes) ==>
      |writes| == 2 * |sizes|
      && forall i :: 0 <= i < |sizes| ==>
        writes[2 * i] == AXWrite(LiveWindows(ax, pid)[i], Position(sizes[i].Origin()))
        && writes[2 * i + 1] == AXWrite(LiveWindows(ax, pid)[i], Dimensions(sizes[i].Extent()))
    ensures writes == ProcessWrites(LiveWindows(ax, pid), sizes)
  {
    var win := AxWinList(pid, ax);
    if !(|win| > 0 && |win| == |sizes|) {
      return [];
    }
    writes := [];
    for i := 0 to |win|
      invariant writes == Moves(win[..i], sizes[..i])
    {
      var newPoint := sizes[i].Origin();
      var newSize := sizes[i].Extent();
      writes := writes + [AXWrite(win[i], Position(newPoint)), AXWrite(win[i], Dimensions(newSize))];
      assert win[..i + 1][..i] == win[..i];
      assert sizes[..i + 1][..i] == sizes[..i];
    }
    assert win[..|win|] == win;
    assert sizes[..|sizes|] == sizes;
  }

  /**
   * restoreState: calls setWindowSizes once for every pid of the snapshot.
   * The dictionary's iteration order is unspecified, so the order is chosen
   * freely and returned as `order`.
   */
  method RestoreState(snapshot: Snapshot, ax: AXTree) returns (writes: seq<AXWrite>, ghost order: seq<Pid>)
    ensures Enumerates(order, snapshot.Keys)
    ensures writes == RestoreWrites(snapshot, ax, order)
    ensures forall k :: 0 <= k < |writes| ==> FromMatched(snapshot, ax, writes[k])
  {
    writes, order := [], [];
    var remaining := snapshot.Keys;
    while remaining != {}
      invariant remaining <= snapshot.Keys
      invariant Enumerates(order, snapshot.Keys - remaining)
      invariant writes == RestoreWrites(snapshot, ax, order)
      decreases |remaining|
    {
      var pid :| pid in remaining;
      var w := SetWindowSizes(pid, snapshot[pid], ax);
      assert (order + [pid])[..|order|] == order;
      writes := writes + w;
      order := order + [pid];
      remaining := remaining - {pid};
    }
    forall k | 0 <= k < |writes|
      ensures FromMatched(snapshot, ax, writes[k])
    {
      RestoreWritesFromMatched(snapshot, ax, order, k);
    }
  }
}
