# Memmon window-layout cache, modelled in Dafny

Memmon is a macOS status-bar utility that puts windows back where they were
when the number of connected screens changes. Its `AppDelegate` keeps the
screen count it last saw (`numScreens`) and a cache `state` that maps a screen
count to a snapshot: for each process id, the bounds of that process's
on-screen layer-0 windows, in window-list order.

When the screen parameters change and the count is different from
`numScreens`, the delegate does three things. It captures a fresh snapshot
and stores it under the old count. It adopts the new count. If the cache
already holds a snapshot for the new count, it replays that snapshot. The
replay is positional. For each cached pid, the application's accessibility
window list is filtered to the elements whose role is `AXWindow`. If that list
is empty, or its length differs from the number of cached bounds, the process
is left alone. Otherwise handle `i` gets the position, then the size, of
cached rectangle `i`.

The model has five modules:

- `Windows` (windows.dfy) holds the values: integer rectangles, window-list records, accessibility elements, and the attribute writes.
- `Capture` (capture.dfy) models `getState`. `GetState` is a loop proved against the group-by specification `Grouped`.
- `Accessibility` (accessibility.dfy) models `axWinList`. `AxWinList` is a loop proved against the filter `WindowsOnly`.
- `Restore` (restore.dfy) models `setWindowSizes` and `restoreState`. They are loops that return the writes they issue, proved against `ProcessWrites` and `RestoreWrites`.
- `Memmon` (app_delegate.dfy) holds the `AppDelegate` class with fields `numScreens` and `state`. Its notification handler is proved against the pure step `ScreenChange` and the lookup `Replayed`. `Run` extends the step to a sequence of notifications.

The operating system is passed in as plain data:

- the screen count is a parameter;
- the on-screen window list is a `seq<WindowInfo>`;
- the accessibility view of every application is an `AXTree`, a map from pid to that application's window elements, where a missing pid means the windows attribute is unavailable;
- every accessibility write is returned, in issue order, as an `AXWrite` (target element, position or size value).

`getState`, `axWinList`, `setWindowSizes` and `restoreState` are private
methods of `AppDelegate` in the source, but none of them reads or writes a
field of the delegate. They are therefore module-level methods here. Only
the notification handler changes the class's fields.

The code keys the cache by screen count alone. It has no virtual-desktop
sentinels, visited sets, placeholder bounds, reconciliation across cached
counts or recency-ordered capture, and the model has none either. Each count
change takes one capture, stores it under the old count only, and groups
bounds in window-list order.

## Model

| member | source | states |
|---|---|---|
| Capture.GetState | src/main.swift:61-80 | the returned dictionary is the group-by of the window list's layer-0 entries, and it holds exactly one bounds value per layer-0 entry |
| Capture.Grouped | src/main.swift:73-77 | a pid is a key of the snapshot exactly when some layer-0 entry of the window list has that pid |
| Capture.GroupedSnoc | src/main.swift:68-77 | one loop step: an entry of a non-zero layer leaves the snapshot unchanged; a layer-0 entry appends its bounds to its pid's sequence, or starts the sequence when the pid is new |
| Capture.BoundsOfMember | src/main.swift:68-72 | a rectangle is among a pid's captured bounds exactly when some layer-0 entry of that pid carries it, so entries of other layers contribute nothing |
| Capture.BoundsOfAppend | src/main.swift:73-77 | capturing a concatenated list gives each pid the bounds of the first part followed by those of the second, so window-list order is kept |
| Capture.GroupedTotal | src/main.swift:64-77 | the number of bounds over all pids equals the number of layer-0 entries |
| Accessibility.WindowsOnly | src/main.swift:108-117 | the filtered list is no longer than the input, and an element is in it exactly when it is in the input and its role is the window role |
| Accessibility.WindowsOnlyAppend | src/main.swift:110-116 | filtering distributes over concatenation, so the kept handles stay in their original order |
| Accessibility.AxWinList | src/main.swift:104-120 | returns the in-order window-role elements of the application's windows attribute, and an empty list when the attribute is unavailable |
| Restore.Moves | src/main.swift:94-101 | for matching lengths, there are exactly 2·n writes; write 2i sets handle i's position to cached rectangle i's origin, and write 2i+1 sets its size to that rectangle's size |
| Restore.MovesAt | src/main.swift:94-101 | write m of the position/size sequence is the position (m even) or the size (m odd) of handle m / 2 |
| Restore.SetWindowSizes | src/main.swift:88-102 | with no live handle, or a handle count different from the bounds count, nothing is written; otherwise handle i receives the origin and then the size of bounds i, for i in increasing order, 2·count writes in all |
| Restore.RestoreState | src/main.swift:82-86 | visits every pid of the snapshot exactly once, in some order, and the writes are the per-pid writes of setWindowSizes concatenated in that order; whatever the order, every write moves handle i of a pid whose handle count matches its bounds count to that pid's cached rectangle i |
| Restore.RestoreWritesFromMatched | src/main.swift:82-101 | every write of a restore belongs to a cached pid whose live handle count equals its bounds count, and moves that pid's handle i to cached rectangle i |
| Restore.RestoreWritesSkipMismatch | src/main.swift:88-93 | restoring one more pid adds no write exactly when its handle count is zero or differs from its bounds count |
| Memmon.ScreenChange | src/main.swift:49-54 | an unchanged count leaves the cache as it is, whatever the window list; a changed count adopts the new count, stores the fresh capture under the old count, adds no other key and leaves every other key's entry unchanged |
| Memmon.Replayed | src/main.swift:55-57 | a replay happens exactly when the count changed and the cache already held the new count, and it replays the entry cached before this notification, never the capture just taken |
| Memmon.RunKeys | src/main.swift:49-53 | after any feasible sequence of notifications (one where every notification that changes the count carries a readable window list), a count is cached exactly when it was cached at the start or some notification left it; the cache never drops a key |
| Memmon.RunLatestCapture | src/main.swift:49-53 | after any feasible sequence of notifications, the entry under a count is the capture taken by the last notification that left that count |
| Memmon.DockThenUndockReplaysSingleScreenLayout | src/main.swift:49-57 | going from 1 to 2 screens replays nothing when 2 was never cached; going back from 2 to 1 replays exactly the snapshot captured when leaving 1 |
| Memmon.AppDelegate.constructor | src/main.swift:7-8 | the delegate starts with the launch-time screen count and an empty cache |
| Memmon.AppDelegate.ApplicationDidChangeScreenParameters | src/main.swift:49-59 | same count: fields unchanged and no write. Changed count: `state` gains the fresh capture under the old count, `numScreens` becomes the new count, and the writes are the restore of the snapshot `Replayed` names, or none when it names none |

## Left out

- `statusMenuIcon` (src/main.swift:23-43) is floating-point drawing with no logic to state.
- `applicationDidFinishLaunching`, `enableInvisbleMode` and the run-loop bootstrap (src/main.swift:10-21, 45-47, 123-126) are menu UI, a user-defaults flag and application wiring.
- `NSScreen.screens.count`, `CGWindowListCopyWindowInfo`, `AXUIElementCreateApplication`, `AXUIElementCopyAttributeValue`, `AXUIElementSetAttributeValue` and `AXValueCreate` are not modelled as calls. Their results are parameters, and their writes are the returned log.
- Memmon.AppDelegate.ApplicationDidChangeScreenParameters: the source reads `NSScreen.screens.count` twice (lines 50 and 53). The model takes one value for both reads, so it does not cover a count that changes between them.
- Whether a write succeeds is not modelled. The source ignores the result of `AXUIElementSetAttributeValue`.
- The accessibility view is fixed for the length of a restore. A window moved for one pid is assumed not to change another application's window list or roles.
- The force-unwrap crash paths are not behaviour in the model. A nil window list (line 64) is excluded by taking the list itself as input. A record without an integer pid or layer (lines 65-66) cannot be built. A layer-0 record without integer bounds (lines 71-72) is excluded by `WellFormed`, which also lets records of other layers lack bounds, as the source does. `WellFormed` is required only of a notification that changes the count, because the source reads the window list only then. `Feasible` carries the same condition across a sequence of notifications.
- A role attribute that is missing or is not a string is modelled as `None`. It never equals the window role, as in the source.
- The diagnostic `print` on a count mismatch (line 91) is not modelled.
- Rectangles are integers. The source builds each `CGRect` from integer fields, so the floating-point backing of `CGRect` is not modelled.
- Swift `Int` for `numScreens` and for the cache keys is modelled as an unbounded `nat`. Pids and layers are the `int32` newtype.
- The order in which `restoreState` visits a dictionary's pids is unspecified in Swift. The model chooses it freely and only promises that each pid is visited once.
