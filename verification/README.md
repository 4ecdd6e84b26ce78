# glfw-ext window centering, modelled in Dafny

glfw-ext adds two operations to a GLFW window:

- `try_center_on_monitor` centers the window on a given monitor.
- `try_center` centers the window on its *dominant* monitor, the one it is mostly on.

Both return `false` when they cannot center the window. The only logic is integer geometry. Dropping monitors without a video mode, scoring the rest by their overlap with the window, and picking the best with `max_by_key` is `find_dominant_monitor`. Halving the free space on each axis is the centering step.

The model replaces the GLFW handles with immutable records (`Model`):

- A window is a position and a size.
- A monitor is a position and an optional video mode.
- `set_pos` becomes a pure update that returns the moved window.

Each operation returns its boolean together with the window as it is afterwards. `find_dominant_monitor` returns a reference into the monitor slice; the model returns that monitor's index.

Modules:

- `Model` (model.dfy): the host's values and `SetPos`.
- `Arith` (arith.dfy): `TruncDiv2`, the host language's `/ 2` on signed integers. It truncates toward zero, unlike Dafny's flooring `/`.
- `Centering` (centering.dfy): the one-axis centering arithmetic. It also defines `CenteredOn`, an independent definition of "centered" (balanced margins, odd pixel placed as truncation places it). `CenterCoord` is proved to be the only position that satisfies it.
- `Dominant` (dominant.dfy): the score and `FindDominantMonitor`. `find_dominant_monitor` filters out monitors without a video mode, then folds with `max_by_key`. The model writes that chain as one fold over the enumeration that skips those monitors. `IsDominant` is an independent reference definition of the chosen monitor, and the selection is proved equal to it in both directions.
- `WindowExt` (window_ext.dfy): `TryCenterOnMonitor` and `TryCenter`, with idempotence, independence from the old position, and worked examples.

Two behaviours follow the code, not the geometric intent:

- **The score is not clamped.** It is the product of the two axis deltas of the window and monitor rectangles. A monitor apart from the window on both axes scores a product of two negatives, which is positive. `DisjointMonitorCanWin` shows this in a 2x2 grid of 1920x1080 monitors: a window lying wholly on the top-left monitor is assigned to the bottom-right one. When the rectangles meet on both axes, the score is the overlap area (`ScoreIsOverlapWhenAxesMeet`). So the documented promise, centering on the monitor holding most of the window, holds unless some monitor with a video mode is apart from the window on both axes (`ChosenHasLargestOverlapUnlessApartOnBoth`).
- **Ties go to the last monitor.** Rust documents `Iterator::max_by_key` as: "If several elements are equally maximum, the last element is returned." So of several equally scoring monitors, the last in enumeration order wins.

## Model

| member | source | states |
|---|---|---|
| Model.SetPos | src/lib.rs:85 | moving a window sets exactly the requested position and keeps its size |
| Arith.TruncDiv2 | src/lib.rs:83-84 | the halving used for centering leaves a remainder in 0..1 for a non-negative dividend and in -1..0 for a negative one (rounding toward zero) |
| Arith.TruncDiv2Unique | src/lib.rs:83-84 | those remainder conditions determine the quotient, so they fully specify the halving |
| Arith.TruncDiv2Odd | src/lib.rs:83-84 | halving toward zero is symmetric: halving `-a` gives minus the halving of `a` |
| Arith.TruncDiv2VersusFloor | src/lib.rs:83-84 | the halving agrees with floor division except on negative odd dividends, where it is one greater |
| Centering.CenterCoord | src/lib.rs:83-84 | the computed coordinate centers the window on the monitor along that axis: margins differ by at most one, the near margin is the smaller when the window fits and the larger when it overhangs |
| Centering.CenteredOnUnique | src/lib.rs:83-84 | any position that is centered in that sense is the computed coordinate |
| Centering.MarginsWhenFitting | src/lib.rs:83-84 | when the window fits, the near margin is non-negative, the far margin exceeds it by at most one pixel, and they are equal exactly when the free space is even |
| Dominant.Score | src/lib.rs:102-111 | the key is the product of the two signed axis deltas of window and monitor, neither clamped at zero: it equals the intersection area when the rectangles meet on both axes, is zero or below when they are apart on exactly one axis, and is positive when they are apart on both although the intersection is empty |
| Dominant.ScoreIsOverlapWhenAxesMeet | src/lib.rs:102-111 | when window and monitor rectangles meet on both axes, the score equals their intersection area |
| Dominant.ScoreOfContainedWindow | src/lib.rs:102-111 | a window lying wholly on a monitor scores its own area there |
| Dominant.ScoreWhenApartOnYOnly | src/lib.rs:108-111 | a monitor that meets the window along x but is apart along y scores zero or below, with empty intersection |
| Dominant.ScoreWhenApartOnXOnly | src/lib.rs:108-111 | a monitor that meets the window along y but is apart along x scores zero or below, with empty intersection |
| Dominant.ScoreWhenApartOnBothAxes | src/lib.rs:108-111 | a monitor apart from the window on both axes scores above zero although the intersection is empty |
| Dominant.FindDominantMonitor | src/lib.rs:91-114 | no monitor is returned exactly when no monitor has a video mode (including an empty list); otherwise the returned index is in range and that monitor has a video mode |
| Dominant.FindDominantMonitorDominant | src/lib.rs:98-113 | the returned monitor is dominant: it has a video mode, scores at least as much as every monitor with a video mode, and scores strictly more than every later one |
| Dominant.DominantUnique | src/lib.rs:101-111 | at most one monitor is dominant |
| Dominant.FindDominantMonitorIsDominant | src/lib.rs:98-113 | the selection returns index `i` if and only if monitor `i` is dominant |
| Dominant.TieGoesToLast | src/lib.rs:101 | of two equally scoring monitors the second is chosen |
| Dominant.StrictWinnerInEitherOrder | src/lib.rs:101-111 | a monitor scoring strictly more than another is chosen in either enumeration order |
| Dominant.ModelessMonitorIgnored | src/lib.rs:100 | appending a monitor without a video mode does not change the selection |
| Dominant.ChosenHasLargestOverlapUnlessApartOnBoth | src/lib.rs:47-50 | unless some monitor with a video mode is apart from the window on both axes, the chosen monitor has the largest intersection with the window |
| Dominant.DisjointMonitorCanWin | src/lib.rs:98-113 | in a 2x2 grid of 1920x1080 monitors, an 856x482 window at (100, 100) lies wholly on the top-left monitor yet the bottom-right monitor is chosen, because the score is not clamped |
| WindowExt.TryCenterOnMonitor | src/lib.rs:75-88 | without a video mode it returns false and leaves the window unchanged; otherwise it returns true, keeps the size and centers the window on both axes |
| WindowExt.TryCenterOnMonitorPosition | src/lib.rs:80-85 | on success the position is the monitor origin plus the free space halved toward zero, on each axis |
| WindowExt.TryCenterOnMonitorIgnoresPosition | src/lib.rs:80-85 | when the monitor has a video mode, the outcome does not depend on the window's previous position |
| WindowExt.TryCenterOnMonitorIdempotent | src/lib.rs:80-87 | centering twice on the same monitor gives the same result as centering once |
| WindowExt.TryCenter | src/lib.rs:64-73 | it succeeds exactly when some monitor has a video mode; on failure the window is unchanged; on success the result is that of centering on the dominant monitor |
| WindowExt.CenterOnPrimaryExample | src/lib.rs:80-87 | an 856x482 window on a 1920x1080 monitor at the origin is placed at (532, 299) |
| WindowExt.SecondaryIsDominantExample | src/lib.rs:91-114 | a window overlapping only a 1280x720 monitor at (1920, 0), next to a 1920x1080 monitor at the origin, has the secondary monitor as its dominant monitor |
| WindowExt.CenterOnSecondaryExample | src/lib.rs:64-88 | a window overlapping only a 1280x720 monitor at (1920, 0) is centered on it at (2132, 119) |
| WindowExt.OversizedWindowExample | src/lib.rs:83-87 | a window larger than the monitor gets a negative position and success is still reported; an odd negative free space is halved toward zero |

## Left out

- Integer width: the source computes in 32-bit signed integers and converts the unsigned video-mode sizes with `as i32`. The model uses unbounded integers, so overflow of the score product or of a position, and the wrap of a mode size above 2^31 - 1, are not modelled.
- The GLFW calls themselves (`get_video_mode`, `get_pos`, `get_size`, `set_pos`, `with_connected_monitors`) are foreign. Their results are the fields of the window and monitor records, and `set_pos` is `Model.SetPos`.
- WindowExt.TryCenter: the source queries the chosen monitor's video mode a second time, inside `try_center_on_monitor`. The model reads one snapshot of each monitor, so a mode that disappears between the two queries is not modelled.
- Cloning the shared GLFW context handle in `try_center` is reference counting with no effect on the result.
- Thread affinity of GLFW calls is a host constraint; the model is sequential.
- Centering on the primary monitor (`with_primary_monitor`) happens in caller code, and the example program's window creation and event loop are GLFW plumbing with no logic of their own.
