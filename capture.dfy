/**
 * Snapshot capture: the on-screen window list reduced to the bounds of its
 * layer-0 windows, grouped by owning process.
 */
module Capture {
  import opened Windows

  /** The pids that own at least one layer-0 entry. */
  function LayerZeroPids(windowList: seq<WindowInfo>): set<Pid> {
    set j | 0 <= j < |windowList| && windowList[j].layer == 0 :: windowList[j].pid
  }

  /** The bounds of the layer-0 entries owned by `pid`, in window-list order. */
  function BoundsOf(windowList: seq<WindowInfo>, pid: Pid): seq<Rect>
    requires WellFormed(windowList)
    decreases |windowList|
  {
    if windowList == [] then []
    else
      var last := windowList[|windowList| - 1];
      BoundsOf(windowList[..|windowList| - 1], pid)
        + (if last.layer == 0 && last.pid == pid then [last.bounds.value] else [])
  }

  /** The number of layer-0 entries. */
  function LayerZeroCount(windowList: seq<WindowInfo>): nat
    decreases |windowList|
  {
    if windowList == [] then 0
    else
      LayerZeroCount(windowList[..|windowList| - 1])
        + (if windowList[|windowList| - 1].layer == 0 then 1 else 0)
  }

  /**
   * The snapshot a capture produces: one key per pid owning a layer-0 entry,
   * mapped to the bounds of its layer-0 entries in window-list order.
   */
  function Grouped(windowList: seq<WindowInfo>): (g: Snapshot)
    requires WellFormed(windowList)
    ensures forall pid :: pid in g <==>
      exists j :: 0 <= j < |windowList| && windowList[j].layer == 0 && windowList[j].pid == pid
  {
    map pid | pid in LayerZeroPids(windowList) :: BoundsOf(windowList, pid)
  }

  /** The number of bounds a snapshot holds over all of its pids. */
  ghost function Total(g: Snapshot): nat
    decreases |g|
  {
    if g == map[] then 0
    else
      var pid :| pid in g;
      assert (g - {pid}).Keys < g.Keys;
      |g[pid]| + Total(g - {pid})
  }

  lemma TotalRemove(g: Snapshot, pid: Pid)
    requires pid in g
    ensures Total(g) == |g[pid]| + Total(g - {pid})
    decreases |g|
  {
    var chosen :| chosen in g && Total(g) == |g[chosen]| + Total(g - {chosen});
    if chosen != pid {
      TotalRemove(g - {chosen}, pid);
      TotalRemove(g - {pid}, chosen);
      assert g - {chosen} - {pid} == g - {pid} - {chosen};
    }
  }

  /** Total of a snapshot after one pid's sequence is replaced. */
  lemma TotalUpdate(g: Snapshot, pid: Pid, rects: seq<Rect>)
    ensures Total(g[pid := rects]) == Total(g - {pid}) + |rects|
  {
    TotalRemove(g[pid := rects], pid);
    assert g[pid := rects] - {pid} == g - {pid};
  }

  lemma WellFormedPrefix(windowList: seq<WindowInfo>, n: nat)
    requires WellFormed(windowList) && n <= |windowList|
    ensures WellFormed(windowList[..n])
  {
  }

  lemma LayerZeroPidsSnoc(windowList: seq<WindowInfo>, entry: WindowInfo)
    ensures LayerZeroPids(windowList + [entry])
      == LayerZeroPids(windowList) + (if entry.layer == 0 then {entry.pid} else {})
  {
    var after := windowList + [entry];
    var n := |windowList|;
    var extra := if entry.layer == 0 then {entry.pid} else {};
    forall pid | pid in LayerZeroPids(after)
      ensures pid in LayerZeroPids(windowList) + extra
    {
      var j :| 0 <= j < |after| && after[j].layer == 0 && after[j].pid == pid;
      if j < n {
        assert windowList[j] == after[j];
      }
    }
    forall pid | pid in LayerZeroPids(windowList) + extra
      ensures pid in LayerZeroPids(after)
    {
      if pid in LayerZeroPids(windowList) {
        var j :| 0 <= j < n && windowList[j].layer == 0 && windowList[j].pid == pid;
        assert after[j] == windowList[j];
      } else {
        assert after[n].layer == 0 && after[n].pid == pid;
      }
    }
  }

  lemma BoundsOfSnoc(windowList: seq<WindowInfo>, entry: WindowInfo, pid: Pid)
    requires WellFormed(windowList + [entry])
    ensures WellFormed(windowList)
    ensures entry.layer == 0 ==> entry.bounds.Some?
    ensures BoundsOf(windowList + [entry], pid) == BoundsOf(windowList, pid)
      + (if entry.layer == 0 && entry.pid == pid then [entry.bounds.value] else [])
  {
    var after := windowList + [entry];
    assert after[|windowList|] == entry;
    WellFormedPrefix(after, |windowList|);
    assert after[..|windowList|] == windowList;
  }

  /** A pid owning no layer-0 entry has no bounds. */
  lemma {:induction false} BoundsOfAbsent(windowList: seq<WindowInfo>, pid: Pid)
    requires WellFormed(windowList)
    ensures BoundsOf(windowList, pid) == [] <==> pid !in LayerZeroPids(windowList)
    decreases |windowList|
  {
    if windowList != [] {
      var n := |windowList| - 1;
      assert windowList == windowList[..n] + [windowList[n]];
      BoundsOfSnoc(windowList[..n], windowList[n], pid);
      BoundsOfAbsent(windowList[..n], pid);
      LayerZeroPidsSnoc(windowList[..n], windowList[n]);
    }
  }

  /**
   * How capturing one more entry changes the snapshot: an entry of another
   * layer is skipped, a layer-0 entry appends its bounds to its pid's sequence
   * (starting the sequence when the pid is new).
   */
  lemma GroupedSnoc(windowList: seq<WindowInfo>, entry: WindowInfo)
    requires WellFormed(windowList + [entry])
    ensures WellFormed(windowList)
    ensures entry.layer == 0 ==> entry.bounds.Some?
    ensures entry.layer != 0 ==> Grouped(windowList + [entry]) == Grouped(windowList)
    ensures entry.layer == 0 ==>
      var before := Grouped(windowList);
      Grouped(windowList + [entry]) ==
        before[entry.pid := (if entry.pid in before then before[entry.pid] else []) + [entry.bounds.value]]
  {
    var after := windowList + [entry];
    BoundsOfSnoc(windowList, entry, entry.pid);
    LayerZeroPidsSnoc(windowList, entry);
    BoundsOfAbsent(windowList, entry.pid);
    var before := Grouped(windowList);
    var g := Grouped(after);
    var expected := if entry.layer != 0 then before
      else before[entry.pid := (if entry.pid in before then before[entry.pid] else []) + [entry.bounds.value]];
    forall pid | pid in g
      ensures pid in expected && g[pid] == expected[pid]
    {
      BoundsOfSnoc(windowList, entry, pid);
      if pid != entry.pid || entry.layer != 0 {
        BoundsOfAbsent(windowList, pid);
      }
    }
    forall pid | pid in expected
      ensures pid in g
    {
    }
    assert g == expected;
  }

  /** Bounds of a concatenated window list: order across the two parts is kept. */
  lemma {:induction false} BoundsOfAppend(front: seq<WindowInfo>, back: seq<WindowInfo>, pid: Pid)
    requires WellFormed(front + back)
    ensures WellFormed(front) && WellFormed(back)
    ensures BoundsOf(front + back, pid) == BoundsOf(front, pid) + BoundsOf(back, pid)
    decreases |back|
  {
    var whole := front + back;
    WellFormedPrefix(whole, |front|);
    assert whole[..|front|] == front;
    assert WellFormed(back) by {
      forall j | 0 <= j < |back| && back[j].layer == 0
        ensures back[j].bounds.Some?
      {
        assert back[j] == whole[|front| + j];
      }
    }
    if back == [] {
      assert whole == front;
    } else {
      var n := |back| - 1;
      assert whole[..|whole| - 1] == front + back[..n];
      assert whole[|whole| - 1] == back[n];
      BoundsOfAppend(front, back[..n], pid);
    }
  }

  /**
   * A rectangle is among a pid's captured bounds exactly when some layer-0
   * entry of that pid has it as bounds: entries of other layers contribute
   * nothing.
   */
  lemma {:induction false} BoundsOfMember(windowList: seq<WindowInfo>, pid: Pid, r: Rect)
    requires WellFormed(windowList)
    ensures r in BoundsOf(windowList, pid) <==>
      exists j :: 0 <= j < |windowList| && windowList[j].layer == 0
        && windowList[j].pid == pid && windowList[j].bounds == Some(r)
    decreases |windowList|
  {
    if windowList != [] {
      var n := |windowList| - 1;
      WellFormedPrefix(windowList, n);
      BoundsOfMember(windowList[..n], pid, r);
      assert forall j :: 0 <= j < n ==> windowList[..n][j] == windowList[j];
    }
  }

  /** A capture holds exactly one bounds value per layer-0 entry. */
  lemma {:induction false} GroupedTotal(windowList: seq<WindowInfo>)
    requires WellFormed(windowList)
    ensures Total(Grouped(windowList)) == LayerZeroCount(windowList)
    decreases |windowList|
  {
    if windowList == [] {
      assert Grouped(windowList) == map[];
    } else {
      var n := |windowList| - 1;
      var entry := windowList[n];
      assert windowList == windowList[..n] + [entry];
      GroupedSnoc(windowList[..n], entry);
      GroupedTotal(windowList[..n]);
      var before := Grouped(windowList[..n]);
      if entry.layer == 0 {
        var old_ := if entry.pid in before then before[entry.pid] else [];
        TotalUpdate(before, entry.pid, old_ + [entry.bounds.value]);
        if entry.pid in before {
          TotalRemove(before, entry.pid);
        } else {
          assert before - {entry.pid} == before;
        }
      }
    }
  }

  /**
   * getState: walks the window list in order, skips entries whose layer is
   * not 0, and appends each remaining entry's bounds to its pid's sequence.
   */
  method GetState(windowList: seq<WindowInfo>) returns (state: Snapshot)
    requires WellFormed(windowList)
    ensures state == Grouped(windowList)
    ensures Total(state) == LayerZeroCount(windowList)
  {
    state := map[];
    for i := 0 to |windowList|
      invariant WellFormed(windowList[..i])
      invariant state == Grouped(windowList[..i])
    {
      var entry := windowList[i];
      assert windowList[..i + 1] == windowList[..i] + [entry];
      WellFormedPrefix(windowList, i + 1);
      GroupedSnoc(windowList[..i], entry);
      if entry.layer != 0 {
        continue;
      }
      var bounds := entry.bounds.value;
      if entry.pid !in state {
        assert [] + [bounds] == [bounds];
        state := state[entry.pid := [bounds]];
      } else {
        state := state[entry.pid := state[entry.pid] + [bounds]];
      }
    }
    assert windowList[..|windowList|] == windowList;
    GroupedTotal(windowList);
  }
}
