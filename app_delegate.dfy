/**
 * The application delegate: a cache of window snapshots keyed by the number
 * of connected screens, saved when the count changes away from a value and
 * replayed when the count comes back to it.
 */
module Memmon {
  import opened Windows
  import opened Capture
  import opened Restore

  /** The delegate's state: the screen count last seen and the snapshot cache. */
  datatype Cache = Cache(numScreens: nat, state: map<nat, Snapshot>)

  /**
   * The cache after a screen-parameters notification reporting `screenCount`
   * screens while the window server lists `windowList`.
   */
  function ScreenChange(c: Cache, screenCount: nat, windowList: seq<WindowInfo>): (next: Cache)
    requires screenCount != c.numScreens ==> WellFormed(windowList)
    ensures screenCount == c.numScreens ==> next == c
    ensures screenCount != c.numScreens ==>
      && next.numScreens == screenCount
      && next.state.Keys == c.state.Keys + {c.numScreens}
      && next.state[c.numScreens] == Grouped(windowList)
      && (forall k :: k in c.state && k != c.numScreens ==> next.state[k] == c.state[k])
  {
    if screenCount == c.numScreens then c
    else Cache(screenCount, c.state[c.numScreens := Grouped(windowList)])
  }

  /**
   * The snapshot the same notification replays, looked up under the new
   * count after the fresh capture has been stored under the old one: present
   * exactly when the count changed and the cache already held the new count,
   * and then it is the entry cached before this notification, never the
   * capture just taken.
   */
  function Replayed(c: Cache, screenCount: nat, windowList: seq<WindowInfo>): (r: Option<Snapshot>)
    requires screenCount != c.numScreens ==> WellFormed(windowList)
    ensures r.Some? <==> screenCount != c.numScreens && screenCount in c.state
    ensures r.Some? ==> r.value == c.state[screenCount]
  {
    if screenCount == c.numScreens then None
    else
      var saved := ScreenChange(c, screenCount, windowList).state;
      if screenCount in saved then Some(saved[screenCount]) else None
  }

  /** A notification: the screen count it reports and the window list at that moment. */
  datatype Notification = Notification(screenCount: nat, windowList: seq<WindowInfo>)

  /**
   * Every notification of `events` that changes the count, replayed from `c`,
   * carries a window list the capture can read; a notification that keeps
   * the count never has its window list read.
   */
  predicate Feasible(c: Cache, events: seq<Notification>)
    decreases |events|, 0
  {
    if events == [] then true
    else
      var n := |events| - 1;
      && Feasible(c, events[..n])
      && (events[n].screenCount != Run(c, events[..n]).numScreens ==> WellFormed(events[n].windowList))
  }

  /** The cache after a sequence of notifications, delivered one at a time. */
  function Run(c: Cache, events: seq<Notification>): Cache
    requires Feasible(c, events)
    decreases |events|, 1
  {
    if events == [] then c
    else
      var n := |events| - 1;
      ScreenChange(Run(c, events[..n]), events[n].screenCount, events[n].windowList)
  }

  /** Every prefix of a feasible sequence of notifications is feasible. */
  lemma {:induction false} FeasiblePrefix(c: Cache, events: seq<Notification>, i: nat)
    requires Feasible(c, events) && i <= |events|
    ensures Feasible(c, events[..i])
    decreases |events|
  {
    if i < |events| {
      var n := |events| - 1;
      FeasiblePrefix(c, events[..n], i);
      assert events[..n][..i] == events[..i];
    } else {
      assert events[..i] == events;
    }
  }

  /** The count that notification i makes the delegate leave, if it changes the count; None if it keeps it. */
  function CountLeftBy(c: Cache, events: seq<Notification>, i: nat): (left: Option<nat>)
    requires Feasible(c, events) && i < |events|
    ensures left.Some? ==> WellFormed(events[i].windowList)
  {
    FeasiblePrefix(c, events, i);
    FeasiblePrefix(c, events, i + 1);
    assert events[..i + 1][..i] == events[..i] && events[..i + 1][i] == events[i];
    var before := Run(c, events[..i]);
    if events[i].screenCount != before.numScreens then Some(before.numScreens) else None
  }

  /**
   * Leaving a screen count stores the capture taken at that moment, and the
   * cache never forgets a count: after any sequence of notifications, a count
   * is cached exactly when it was cached before or was left by some
   * notification.
   */
  lemma {:induction false} RunKeys(c: Cache, events: seq<Notification>, k: nat)
    requires Feasible(c, events)
    ensures k in Run(c, events).state <==>
      k in c.state || exists i :: 0 <= i < |events| && CountLeftBy(c, events, i) == Some(k)
    decreases |events|
  {
    if events != [] {
      var n := |events| - 1;
      assert Feasible(c, events[..n]);
      RunKeys(c, events[..n], k);
      CountLeftByPrefix(c, events);
      if exists i :: 0 <= i < n && CountLeftBy(c, events[..n], i) == Some(k) {
        var i :| 0 <= i < n && CountLeftBy(c, events[..n], i) == Some(k);
        assert CountLeftBy(c, events, i) == Some(k);
      }
      if exists i :: 0 <= i < |events| && CountLeftBy(c, events, i) == Some(k) {
        var i :| 0 <= i < |events| && CountLeftBy(c, events, i) == Some(k);
        if i < n {
          assert CountLeftBy(c, events[..n], i) == Some(k);
        }
      }
    }
  }

  lemma CountLeftByPrefix(c: Cache, events: seq<Notification>)
    requires Feasible(c, events) && events != []
    ensures Feasible(c, events[..|events| - 1])
    ensures forall i :: 0 <= i < |events| - 1 ==> CountLeftBy(c, events, i) == CountLeftBy(c, events[..|events| - 1], i)
    ensures CountLeftBy(c, events, |events| - 1) ==
      var before := Run(c, events[..|events| - 1]);
      if events[|events| - 1].screenCount != before.numScreens then Some(before.numScreens) else None
  {
  }

  /**
   * The entry cached under a count is the capture taken by the last
   * notification that left that count.
   */
  lemma {:induction false} RunLatestCapture(c: Cache, events: seq<Notification>, k: nat, j: nat)
    requires Feasible(c, events) && j < |events|
    requires CountLeftBy(c, events, j) == Some(k)
    requires forall i :: j < i < |events| ==> CountLeftBy(c, events, i) != Some(k)
    ensures k in Run(c, events).state && Run(c, events).state[k] == Grouped(events[j].windowList)
    decreases |events|
  {
    var n := |events| - 1;
    CountLeftByPrefix(c, events);
    var before := Run(c, events[..n]);
    assert Run(c, events) == ScreenChange(before, events[n].screenCount, events[n].windowList);
    if j < n {
      forall i | j < i < n
        ensures CountLeftBy(c, events[..n], i) != Some(k)
      {
        assert CountLeftBy(c, events, i) != Some(k);
      }
      RunLatestCapture(c, events[..n], k, j);
      assert events[..n][j] == events[j];
      assert before.state[k] == Grouped(events[j].windowList);
    }
  }

  /**
   * Docking then undocking: with one screen, a second screen is attached
   * (nothing is cached for two screens yet, so nothing is replayed) and later
   * detached; the replay on detaching is exactly the snapshot captured when
   * one screen was left.
   */
  lemma DockThenUndockReplaysSingleScreenLayout(
    c: Cache, beforeDocking: seq<WindowInfo>, beforeUndocking: seq<WindowInfo>)
    requires c.numScreens == 1 && 2 !in c.state
    requires WellFormed(beforeDocking) && WellFormed(beforeUndocking)
    ensures Replayed(c, 2, beforeDocking) == None
    ensures var docked := ScreenChange(c, 2, beforeDocking);
      && docked.numScreens == 2
      && Replayed(docked, 1, beforeUndocking) == Some(Grouped(beforeDocking))
      && ScreenChange(docked, 1, beforeUndocking) == Cache(1, c.state[1 := Grouped(beforeDocking)][2 := Grouped(beforeUndocking)])
  {
  }

  /**
   * The delegate proper.  `numScreens` starts at the screen count seen at
   * launch and `state` starts empty.
   */
  class AppDelegate {
    var numScreens: nat
    var state: map<nat, Snapshot>

    constructor (screenCount: nat)
      ensures numScreens == screenCount && state == map[]
    {
      numScreens := screenCount;
      state := map[];
    }

    function Model(): Cache
      reads this
    {
      Cache(numScreens, state)
    }

    /**
     * applicationDidChangeScreenParameters: when the screen count differs from
     * the one last seen, saves a fresh capture under the old count, adopts the
     * new count, and restores the snapshot cached under the new count if
     * there is one.  `ax` is the accessibility view used by that restore; the
     * writes it issues are returned in order, with the order the snapshot's
     * pids were visited in.
     */
    method ApplicationDidChangeScreenParameters(screenCount: nat, windowList: seq<WindowInfo>, ax: AXTree)
      returns (writes: seq<AXWrite>, ghost order: seq<Pid>)
      requires screenCount != numScreens ==> WellFormed(windowList)
      modifies this
      ensures Model() == ScreenChange(old(Model()), screenCount, windowList)
      ensures screenCount == old(numScreens) ==>
        numScreens == old(numScreens) && state == old(state) && writes == []
      ensures screenCount != old(numScreens) ==>
        && numScreens == screenCount
        && state == old(state)[old(numScreens) := Grouped(windowList)]
      ensures match Replayed(old(Model()), screenCount, windowList)
        case None => writes == [] && order == []
        case Some(previous) => Enumerates(order, previous.Keys) && writes == RestoreWrites(previous, ax, order)
    {
      writes, order := [], [];
      if numScreens != screenCount {
        var snapshot := GetState(windowList);
        state := state[numScreens := snapshot];
        numScreens := screenCount;
        if numScreens in state {
          var previous := state[numScreens];
          writes, order := RestoreState(previous, ax);
        }
      }
    }
  }
}
