/** Choosing the monitor a window is "mostly on".

    Monitors without a video mode are dropped; every other monitor is scored
    by the product of the extents, on each axis, of the overlap of its
    rectangle with the window's rectangle; the maximal score wins, and of
    several equal maxima the last monitor in enumeration order. The result is
    the monitor's position in the enumeration (`find_dominant_monitor`
    returns a reference into the slice). */
module Dominant {
  import opened Model

  function Min(a: int, b: int): int { if a <= b then a else b }
  function Max(a: int, b: int): int { if a >= b then a else b }

  /** The signed extent of the overlap of [a0, a1) and [b0, b1) on one axis:
      negative when the two intervals are apart. */
  function AxisDelta(a0: int, a1: int, b0: int, b1: int): int {
    Min(a1, b1) - Max(a0, b0)
  }

  /** The signed overlap of the window and a monitor at `monPos` showing
      `mode`, along x and along y. */
  function DeltaX(wnd: Window, monPos: Point, mode: VideoMode): int {
    AxisDelta(wnd.pos.x, wnd.pos.x + wnd.size.width, monPos.x, monPos.x + mode.width)
  }

  function DeltaY(wnd: Window, monPos: Point, mode: VideoMode): int {
    AxisDelta(wnd.pos.y, wnd.pos.y + wnd.size.height, monPos.y, monPos.y + mode.height)
  }

  /** The score of a monitor at `monPos` showing `mode` for window `wnd`, as
      the selection computes it: the product of the two axis deltas, with no
      clamping of either delta to zero. Compared with the area of the
      intersection: the two agree when the rectangles meet on both axes; when
      they are apart on exactly one axis the intersection is empty and the
      score is zero or below; when they are apart on both axes the
      intersection is empty but the score is positive. */
  function Score(wnd: Window, monPos: Point, mode: VideoMode): (s: int)
    ensures DeltaX(wnd, monPos, mode) >= 0 && DeltaY(wnd, monPos, mode) >= 0 ==>
      s == OverlapArea(wnd, monPos, mode)
    ensures (DeltaX(wnd, monPos, mode) < 0) != (DeltaY(wnd, monPos, mode) < 0) ==>
      s <= 0 && OverlapArea(wnd, monPos, mode) == 0
    ensures DeltaX(wnd, monPos, mode) < 0 && DeltaY(wnd, monPos, mode) < 0 ==>
      s > 0 && OverlapArea(wnd, monPos, mode) == 0
  {
    DeltaX(wnd, monPos, mode) * DeltaY(wnd, monPos, mode)
  }

  /** The score of a monitor that has a video mode. */
  function MonitorScore(wnd: Window, m: Monitor): int
    requires m.mode.Some?
  {
    Score(wnd, m.pos, m.mode.value)
  }

  /** The geometric area of the intersection of the window's and the
      monitor's rectangles: each axis extent clamped at zero. */
  function OverlapArea(wnd: Window, monPos: Point, mode: VideoMode): (a: int)
    ensures a >= 0
  {
    Max(0, DeltaX(wnd, monPos, mode)) * Max(0, DeltaY(wnd, monPos, mode))
  }

  /** When the window's and the monitor's rectangles meet on both axes, the
      score is the area of their intersection. */
  lemma ScoreIsOverlapWhenAxesMeet(wnd: Window, monPos: Point, mode: VideoMode)
    requires DeltaX(wnd, monPos, mode) >= 0
    requires DeltaY(wnd, monPos, mode) >= 0
    ensures Score(wnd, monPos, mode) == OverlapArea(wnd, monPos, mode)
  {
  }

  /** A window lying wholly on a monitor scores its own area there. */
  lemma ScoreOfContainedWindow(wnd: Window, monPos: Point, mode: VideoMode)
    requires wnd.size.width >= 0 && wnd.size.height >= 0
    requires monPos.x <= wnd.pos.x && wnd.pos.x + wnd.size.width <= monPos.x + mode.width
    requires monPos.y <= wnd.pos.y && wnd.pos.y + wnd.size.height <= monPos.y + mode.height
    ensures Score(wnd, monPos, mode) == wnd.size.width * wnd.size.height
    ensures Score(wnd, monPos, mode) == OverlapArea(wnd, monPos, mode)
  {
  }

  /** A monitor that meets the window along x but is apart from it along y
      scores zero or below, and the intersection is empty. */
  lemma ScoreWhenApartOnYOnly(wnd: Window, monPos: Point, mode: VideoMode)
    requires DeltaX(wnd, monPos, mode) >= 0
    requires DeltaY(wnd, monPos, mode) < 0
    ensures Score(wnd, monPos, mode) <= 0
    ensures OverlapArea(wnd, monPos, mode) == 0
  {
  }

  /** A monitor that meets the window along y but is apart from it along x
      scores zero or below, and the intersection is empty. */
  lemma ScoreWhenApartOnXOnly(wnd: Window, monPos: Point, mode: VideoMode)
    requires DeltaX(wnd, monPos, mode) < 0
    requires DeltaY(wnd, monPos, mode) >= 0
    ensures Score(wnd, monPos, mode) <= 0
    ensures OverlapArea(wnd, monPos, mode) == 0
  {
  }

  /** A monitor apart from the window on BOTH axes scores the product of two
      negative deltas, which is positive: the score is not the overlap area. */
  lemma ScoreWhenApartOnBothAxes(wnd: Window, monPos: Point, mode: VideoMode)
    requires DeltaX(wnd, monPos, mode) < 0
    requires DeltaY(wnd, monPos, mode) < 0
    ensures Score(wnd, monPos, mode) > 0
    ensures OverlapArea(wnd, monPos, mode) == 0
  {
  }

  /** The reference meaning of "monitor `i` is the one the selection picks":
      it has a video mode, no monitor with a video mode scores more, and every
      later monitor with a video mode scores strictly less. */
  ghost predicate IsDominant(wnd: Window, ms: seq<Monitor>, i: int) {
    && 0 <= i < |ms|
    && ms[i].mode.Some?
    && (forall j :: 0 <= j < |ms| && ms[j].mode.Some? ==> MonitorScore(wnd, ms[j]) <= MonitorScore(wnd, ms[i]))
    && (forall j :: i < j < |ms| && ms[j].mode.Some? ==> MonitorScore(wnd, ms[j]) < MonitorScore(wnd, ms[i]))
  }

  /** At most one monitor is dominant. */
  lemma DominantUnique(wnd: Window, ms: seq<Monitor>, i: int, j: int)
    requires IsDominant(wnd, ms, i) && IsDominant(wnd, ms, j)
    ensures i == j
  {
  }

  /** The selection. `find_dominant_monitor` filters out the monitors
      without a video mode, folds the rest with `max_by_key` on the score,
      and maps the result back to its monitor. `max_by_key` starts from the first element
      and replaces the running maximum by the next element whenever the
      maximum's key is less than OR EQUAL to the next key. This is that fold
      over a prefix of the enumeration: a last monitor without a video mode
      is skipped; otherwise it replaces the choice made on the earlier
      monitors unless that choice scores strictly more.

      No monitor is returned exactly when none has a video mode (in
      particular when there are none); otherwise the index of one that has.
      Which one is stated by FindDominantMonitorDominant. */
  function FindDominantMonitor(wnd: Window, ms: seq<Monitor>): (r: Option<nat>)
    ensures r.None? <==> forall i :: 0 <= i < |ms| ==> ms[i].mode.None?
    ensures r.Some? ==> r.value < |ms| && ms[r.value].mode.Some?
    decreases |ms|
  {
    if |ms| == 0 then None
    else
      var n := |ms| - 1;
      var prev := FindDominantMonitor(wnd, ms[..n]);
      assert forall i :: 0 <= i < n ==> ms[..n][i] == ms[i];
      match ms[n].mode
      case None => prev
      case Some(mode) =>
        if prev.None? || MonitorScore(wnd, ms[prev.value]) <= Score(wnd, ms[n].pos, mode) then Some(n)
        else prev
  }

  /** The monitor the selection returns is dominant. */
  lemma {:induction false} FindDominantMonitorDominant(wnd: Window, ms: seq<Monitor>)
    ensures var r := FindDominantMonitor(wnd, ms);
      r.Some? ==> IsDominant(wnd, ms, r.value)
    decreases |ms|
  {
    hide Score, OverlapArea, DeltaX, DeltaY;
    if |ms| > 0 {
      var n := |ms| - 1;
      var init := ms[..n];
      assert forall j :: 0 <= j < n ==> ms[j] == init[j];
      FindDominantMonitorDominant(wnd, init);
      var prev := FindDominantMonitor(wnd, init);
      var r := FindDominantMonitor(wnd, ms);
      if r == Some(n) {
        forall j | 0 <= j < n && ms[j].mode.Some?
          ensures MonitorScore(wnd, ms[j]) <= MonitorScore(wnd, ms[n])
        {
          assert init[j].mode.Some?;
          assert prev.Some?;
          var p := prev.value;
          assert IsDominant(wnd, init, p);
          assert MonitorScore(wnd, init[j]) <= MonitorScore(wnd, init[p]);
          assert ms[p] == init[p];
        }
        assert IsDominant(wnd, ms, n);
      } else if r.Some? {
        var i := r.value;
        assert prev == r;
        assert IsDominant(wnd, init, i);
        assert ms[i] == init[i];
        assert ms[n].mode.Some? ==> MonitorScore(wnd, ms[n]) < MonitorScore(wnd, ms[i]);
        forall j | 0 <= j < n && ms[j].mode.Some?
          ensures MonitorScore(wnd, ms[j]) <= MonitorScore(wnd, ms[i])
          ensures i < j ==> MonitorScore(wnd, ms[j]) < MonitorScore(wnd, ms[i])
        {
          assert init[j].mode.Some?;
        }
        assert IsDominant(wnd, ms, i);
      }
    }
  }

  /** The selection agrees with the reference definition, in both directions. */
  lemma FindDominantMonitorIsDominant(wnd: Window, ms: seq<Monitor>, i: nat)
    ensures FindDominantMonitor(wnd, ms) == Some(i) <==> IsDominant(wnd, ms, i)
  {
    FindDominantMonitorDominant(wnd, ms);
    if IsDominant(wnd, ms, i) {
      var r := FindDominantMonitor(wnd, ms);
      assert r.Some?;
      DominantUnique(wnd, ms, r.value, i);
    }
  }

  /** Of two monitors with equal scores the later one is chosen. */
  lemma TieGoesToLast(wnd: Window, a: Monitor, b: Monitor)
    requires a.mode.Some? && b.mode.Some?
    requires MonitorScore(wnd, a) == MonitorScore(wnd, b)
    ensures FindDominantMonitor(wnd, [a, b]) == Some(1)
  {
    assert IsDominant(wnd, [a, b], 1);
    FindDominantMonitorIsDominant(wnd, [a, b], 1);
  }

  /** A monitor that scores strictly more than another is chosen whichever
      order the two are enumerated in. */
  lemma StrictWinnerInEitherOrder(wnd: Window, a: Monitor, b: Monitor)
    requires a.mode.Some? && b.mode.Some?
    requires MonitorScore(wnd, a) > MonitorScore(wnd, b)
    ensures FindDominantMonitor(wnd, [a, b]) == Some(0)
    ensures FindDominantMonitor(wnd, [b, a]) == Some(1)
  {
    assert IsDominant(wnd, [a, b], 0);
    FindDominantMonitorIsDominant(wnd, [a, b], 0);
    assert IsDominant(wnd, [b, a], 1);
    FindDominantMonitorIsDominant(wnd, [b, a], 1);
  }

  /** A monitor without a video mode takes no part in the selection: adding
      one at the end of the enumeration changes nothing. */
  lemma ModelessMonitorIgnored(wnd: Window, ms: seq<Monitor>, m: Monitor)
    requires m.mode.None?
    ensures FindDominantMonitor(wnd, ms + [m]) == FindDominantMonitor(wnd, ms)
  {
    assert (ms + [m])[..|ms|] == ms;
  }

  /** What the selection promises in geometric terms holds unless some
      monitor with a video mode is apart from the window on both axes: the
      chosen monitor then has the largest intersection with the window. A
      monitor apart on one axis only scores zero or below and its
      intersection is empty, so it never displaces a monitor that holds part
      of the window. */
  lemma ChosenHasLargestOverlapUnlessApartOnBoth(wnd: Window, ms: seq<Monitor>)
    requires forall j :: 0 <= j < |ms| && ms[j].mode.Some? ==>
      DeltaX(wnd, ms[j].pos, ms[j].mode.value) >= 0 || DeltaY(wnd, ms[j].pos, ms[j].mode.value) >= 0
    ensures var r := FindDominantMonitor(wnd, ms);
      r.Some? ==> forall j :: 0 <= j < |ms| && ms[j].mode.Some? ==>
        OverlapArea(wnd, ms[j].pos, ms[j].mode.value) <= OverlapArea(wnd, ms[r.value].pos, ms[r.value].mode.value)
  {
    FindDominantMonitorDominant(wnd, ms);
  }

  /** Because the score is not clamped, in an ordinary 2x2 grid of 1920x1080
      monitors an 856x482 window at (100, 100), lying wholly on the top-left
      monitor, is assigned to the bottom-right monitor: it scores
      856 * 482 = 412592 on the top-left one and (-964) * (-498) = 480072 on
      the bottom-right one, which it does not touch. */
  lemma DisjointMonitorCanWin(wnd: Window, topLeft: Monitor, topRight: Monitor,
                              bottomLeft: Monitor, bottomRight: Monitor)
    requires wnd == Window(Point(100, 100), Size(856, 482))
    requires topLeft == Monitor(Point(0, 0), Some(VideoMode(1920, 1080)))
    requires topRight == Monitor(Point(1920, 0), Some(VideoMode(1920, 1080)))
    requires bottomLeft == Monitor(Point(0, 1080), Some(VideoMode(1920, 1080)))
    requires bottomRight == Monitor(Point(1920, 1080), Some(VideoMode(1920, 1080)))
    ensures OverlapArea(wnd, topLeft.pos, topLeft.mode.value) == 856 * 482
    ensures OverlapArea(wnd, bottomRight.pos, bottomRight.mode.value) == 0
    ensures FindDominantMonitor(wnd, [topLeft, topRight, bottomLeft, bottomRight]) == Some(3)
  {
    var ms := [topLeft, topRight, bottomLeft, bottomRight];
    assert DeltaX(wnd, topLeft.pos, topLeft.mode.value) == 856;
    assert DeltaY(wnd, topLeft.pos, topLeft.mode.value) == 482;
    assert MonitorScore(wnd, topLeft) == 412592;
    assert DeltaX(wnd, topRight.pos, topRight.mode.value) == -964;
    assert DeltaY(wnd, topRight.pos, topRight.mode.value) == 482;
    assert MonitorScore(wnd, topRight) < 0;
    assert DeltaX(wnd, bottomLeft.pos, bottomLeft.mode.value) == 856;
    assert DeltaY(wnd, bottomLeft.pos, bottomLeft.mode.value) == -498;
    assert MonitorScore(wnd, bottomLeft) < 0;
    assert DeltaX(wnd, bottomRight.pos, bottomRight.mode.value) == -964;
    assert DeltaY(wnd, bottomRight.pos, bottomRight.mode.value) == -498;
    assert MonitorScore(wnd, bottomRight) == 480072;
    assert IsDominant(wnd, ms, 3);
    FindDominantMonitorIsDominant(wnd, ms, 3);
  }
}
