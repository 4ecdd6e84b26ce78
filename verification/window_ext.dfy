/** The two public operations on a window: centering it on a given monitor,
    and centering it on the monitor it is mostly on. Each returns whether it
    centered the window, together with the window as it is afterwards. */
module WindowExt {
  import opened Model
  import opened Arith
  import opened Centering
  import opened Dominant

  /** Center `wnd` on `mon`. Without a video mode the monitor's extent is
      unknown: report failure and leave the window as it was. Otherwise move
      the window so that it is centered on the monitor on both axes, keeping
      its size. */
  function TryCenterOnMonitor(wnd: Window, mon: Monitor): (r: (bool, Window))
    ensures mon.mode.None? ==> r == (false, wnd)
    ensures mon.mode.Some? ==>
      && r.0
      && r.1.size == wnd.size
      && CenteredOn(mon.pos.x, mon.mode.value.width, r.1.pos.x, wnd.size.width)
      && CenteredOn(mon.pos.y, mon.mode.value.height, r.1.pos.y, wnd.size.height)
  {
    match mon.mode
    case None => (false, wnd)
    case Some(mode) =>
      var x := CenterCoord(mon.pos.x, mode.width, wnd.size.width);
      var y := CenterCoord(mon.pos.y, mode.height, wnd.size.height);
      (true, SetPos(wnd, x, y))
  }

  /** On success the new position is the monitor's origin plus half the free
      space on each axis, the halving truncated toward zero. */
  lemma TryCenterOnMonitorPosition(wnd: Window, mon: Monitor)
    requires mon.mode.Some?
    ensures TryCenterOnMonitor(wnd, mon).1.pos
         == Point(mon.pos.x + TruncDiv2(mon.mode.value.width - wnd.size.width),
                  mon.pos.y + TruncDiv2(mon.mode.value.height - wnd.size.height))
  {
    var r := TryCenterOnMonitor(wnd, mon);
    CenteredOnUnique(mon.pos.x, mon.mode.value.width, r.1.pos.x, wnd.size.width);
    CenteredOnUnique(mon.pos.y, mon.mode.value.height, r.1.pos.y, wnd.size.height);
  }

  /** Where the window ends up depends on its size and the monitor only, not
      on where it was. */
  lemma TryCenterOnMonitorIgnoresPosition(w1: Window, w2: Window, mon: Monitor)
    requires w1.size == w2.size
    requires mon.mode.Some?
    ensures TryCenterOnMonitor(w1, mon) == TryCenterOnMonitor(w2, mon)
  {
    var r1 := TryCenterOnMonitor(w1, mon);
    var r2 := TryCenterOnMonitor(w2, mon);
    CenteredOnUnique(mon.pos.x, mon.mode.value.width, r1.1.pos.x, w1.size.width);
    CenteredOnUnique(mon.pos.x, mon.mode.value.width, r2.1.pos.x, w2.size.width);
    CenteredOnUnique(mon.pos.y, mon.mode.value.height, r1.1.pos.y, w1.size.height);
    CenteredOnUnique(mon.pos.y, mon.mode.value.height, r2.1.pos.y, w2.size.height);
  }

  /** Centering an already centered window on the same monitor changes
      nothing. */
  lemma TryCenterOnMonitorIdempotent(wnd: Window, mon: Monitor)
    ensures var r := TryCenterOnMonitor(wnd, mon);
      TryCenterOnMonitor(r.1, mon) == r
  {
    if mon.mode.Some? {
      TryCenterOnMonitorIgnoresPosition(TryCenterOnMonitor(wnd, mon).1, wnd, mon);
    }
  }

  /** Center `wnd` on the monitor it is mostly on, among the connected
      monitors `ms`. Fails, leaving the window alone, exactly when no monitor
      has a video mode; otherwise the result is that of centering on the
      dominant monitor, which succeeds. */
  function TryCenter(wnd: Window, ms: seq<Monitor>): (r: (bool, Window))
    ensures r.0 <==> exists i :: 0 <= i < |ms| && ms[i].mode.Some?
    ensures !r.0 ==> r.1 == wnd
    ensures r.0 ==> exists i :: IsDominant(wnd, ms, i) && r == TryCenterOnMonitor(wnd, ms[i])
  {
    match FindDominantMonitor(wnd, ms)
    case None => (false, wnd)
    case Some(i) =>
      FindDominantMonitorDominant(wnd, ms);
      TryCenterOnMonitor(wnd, ms[i])
  }

  /** A monitor 1920x1080 at the origin centers an 856x482 window at
      (532, 299). */
  lemma CenterOnPrimaryExample()
    ensures TryCenterOnMonitor(Window(Point(10, 10), Size(856, 482)),
                               Monitor(Point(0, 0), Some(VideoMode(1920, 1080))))
         == (true, Window(Point(532, 299), Size(856, 482)))
  {
  }

  /** A window at (2000, 100) of size 856x482 overlaps only the secondary
      1280x720 monitor at (1920, 0), which is therefore its dominant
      monitor ... */
  lemma SecondaryIsDominantExample(wnd: Window, primary: Monitor, secondary: Monitor)
    requires wnd == Window(Point(2000, 100), Size(856, 482))
    requires primary == Monitor(Point(0, 0), Some(VideoMode(1920, 1080)))
    requires secondary == Monitor(Point(1920, 0), Some(VideoMode(1280, 720)))
    ensures FindDominantMonitor(wnd, [primary, secondary]) == Some(1)
  {
    assert MonitorScore(wnd, primary) == -80 * 482;
    assert MonitorScore(wnd, secondary) == 856 * 482;
    StrictWinnerInEitherOrder(wnd, secondary, primary);
  }

  /** ... and it is centered on that monitor, at (2132, 119). */
  lemma CenterOnSecondaryExample(wnd: Window, primary: Monitor, secondary: Monitor)
    requires wnd == Window(Point(2000, 100), Size(856, 482))
    requires primary == Monitor(Point(0, 0), Some(VideoMode(1920, 1080)))
    requires secondary == Monitor(Point(1920, 0), Some(VideoMode(1280, 720)))
    ensures TryCenter(wnd, [primary, secondary]) == (true, Window(Point(2132, 119), Size(856, 482)))
  {
    SecondaryIsDominantExample(wnd, primary, secondary);
    assert TryCenter(wnd, [primary, secondary]) == TryCenterOnMonitor(wnd, secondary);
    TryCenterOnMonitorPosition(wnd, secondary);
    assert TruncDiv2(1280 - 856) == 212 && TruncDiv2(720 - 482) == 119;
  }

  /** A window larger than the monitor overhangs it: the position goes
      negative and centering still reports success. An odd negative free
      space is halved toward zero. */
  lemma OversizedWindowExample()
    ensures TryCenterOnMonitor(Window(Point(0, 0), Size(2000, 2000)),
                               Monitor(Point(0, 0), Some(VideoMode(1920, 1080))))
         == (true, Window(Point(-40, -460), Size(2000, 2000)))
    ensures TryCenterOnMonitor(Window(Point(0, 0), Size(1921, 1083)),
                               Monitor(Point(0, 0), Some(VideoMode(1920, 1080))))
         == (true, Window(Point(0, -1), Size(1921, 1083)))
  {
  }
}
