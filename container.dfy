/**
 * The OSD popup window (Container): its idle-quit timer, its corner radius,
 * its content slot and its position.
 *
 * Toolkit events are method calls made one after another: Show and Hide are the
 * show and hide events, Tick is time passing on the event loop (delivering the
 * quit timer's timeout when it runs out), WmChanged is the compositor's
 * "composite support changed" notification. The settings store is read as two
 * inputs, and the application's quit() is recorded by counting its calls.
 */
module OsdContainer {
  import opened Wrappers
  import opened QtGeometry
  import Placement

  /** Interval of the idle-quit timer in milliseconds. */
  const QuitInterval: nat := 60 * 1000

  /** Corner radius used when the compositor supports translucency. */
  const RoundedRadius: nat := 10

  /** getWindowRadius: rounded corners only when compositing is available. */
  function WindowRadius(supportComposite: bool): (r: nat)
    ensures supportComposite ==> r == RoundedRadius
    ensures !supportComposite ==> r == 0
  {
    if supportComposite then RoundedRadius else 0
  }

  /** What onDelayQuit does when the timer has run out. */
  datatype QuitAction = Ignore | Restart | Quit

  /**
   * The decision of onDelayQuit. hasAutoExitKey is whether the settings' key list
   * contains "autoExit"; autoExitValue is the boolean read under "auto-exit".
   * The two names are read as written and kept as two independent inputs.
   */
  function DelayQuitAction(hasAutoExitKey: bool, autoExitValue: bool, visible: bool): (a: QuitAction)
    ensures a == Quit <==> hasAutoExitKey && autoExitValue && !visible
    ensures a == Restart <==> hasAutoExitKey && autoExitValue && visible
    ensures a == Ignore <==> !hasAutoExitKey || !autoExitValue
  {
    if hasAutoExitKey && autoExitValue then
      if visible then Restart else Quit
    else Ignore
  }

  /** The quit decision never quits a visible popup, whatever the settings say. */
  lemma NeverQuitsWhileVisible(hasAutoExitKey: bool, autoExitValue: bool)
    ensures DelayQuitAction(hasAutoExitKey, autoExitValue, true) != Quit
  {
  }

  class Container {
    /** The quit timer's configuration, fixed at construction. */
    const singleShot: bool
    const interval: nat

    /** Whether the window is shown. */
    var visible: bool
    /** Whether the quit timer is active, and its remaining time (-1 when inactive, as QTimer::remainingTime). */
    var timerRunning: bool
    var remaining: int
    /** How many times the application's quit() has been called. */
    var quitCalls: nat

    /** The cached compositor flag and the radii pushed into the blur effect and the window handle. */
    var supportComposite: bool
    var blurXRadius: int
    var blurYRadius: int
    var windowRadius: int

    /** The widgets added to the single horizontal layout, in order. */
    var contents: seq<nat>

    /** The window's top-left position. */
    var pos: Point

    /** The timer is a single-shot 60 s timer, its remaining time matches its state, and the radii match the cached flag. */
    ghost predicate Valid()
      reads this
    {
      && singleShot && interval == QuitInterval
      && (timerRunning ==> 0 < remaining <= interval)
      && (!timerRunning ==> remaining == -1)
      && blurXRadius == blurYRadius == windowRadius == WindowRadius(supportComposite)
    }

    /** Visibility and the idle-quit countdown exclude each other. */
    ghost predicate Exclusive()
      reads this
    {
      visible ==> !timerRunning
    }

    constructor (hasComposite: bool)
      ensures Valid() && Exclusive()
      ensures !visible && !timerRunning && quitCalls == 0
      ensures supportComposite == hasComposite && windowRadius == WindowRadius(hasComposite)
      ensures contents == [] && pos == Point(0, 0)
    {
      singleShot := true;
      interval := QuitInterval;
      visible := false;
      timerRunning := false;
      remaining := -1;
      quitCalls := 0;
      supportComposite := hasComposite;
      var radius := WindowRadius(hasComposite);
      windowRadius := radius;
      blurXRadius := radius;
      blurYRadius := radius;
      contents := [];
      pos := Point(0, 0);
    }

    /** QTimer::start: (re)starts the timer from its full interval. */
    method StartTimer()
      requires Valid()
      modifies this`timerRunning, this`remaining
      ensures Valid()
      ensures timerRunning && remaining == interval
    {
      timerRunning := true;
      remaining := interval;
    }

    /** QTimer::stop: the timer is inactive afterwards, whether or not it was running. */
    method StopTimer()
      requires Valid()
      modifies this`timerRunning, this`remaining
      ensures Valid()
      ensures !timerRunning && remaining == -1
    {
      timerRunning := false;
      remaining := -1;
    }

    /** setContent: the widget is appended to the layout. */
    method SetContent(widget: nat)
      modifies this`contents
      ensures contents == old(contents) + [widget]
    {
      contents := contents + [widget];
    }

    /** showEvent: the window becomes visible and any pending countdown is cancelled. */
    method Show()
      requires Valid()
      modifies this`visible, this`timerRunning, this`remaining
      ensures Valid() && Exclusive()
      ensures visible && !timerRunning
    {
      visible := true;
      StopTimer();
    }

    /**
     * hideEvent: the countdown restarts from the full interval, whatever it was
     * doing before; there is only ever one countdown. A hide event the toolkit
     * sends because the window was hidden makes it not visible; a spontaneous one
     * (the window system minimising or unmapping it) leaves it visible.
     */
    method Hide(spontaneous: bool)
      requires Valid()
      modifies this`visible, this`timerRunning, this`remaining
      ensures Valid()
      ensures visible == (spontaneous && old(visible))
      ensures timerRunning && remaining == QuitInterval
      ensures !spontaneous ==> Exclusive()
    {
      if !spontaneous {
        visible := false;
      }
      StartTimer();
    }

    /**
     * onDelayQuit: with auto-exit enabled, a visible window restarts the countdown
     * and a hidden one quits the application; otherwise nothing changes.
     */
    method OnDelayQuit(hasAutoExitKey: bool, autoExitValue: bool)
      requires Valid()
      modifies this`timerRunning, this`remaining, this`quitCalls
      ensures Valid()
      ensures quitCalls > old(quitCalls) ==> !visible
      ensures var a := DelayQuitAction(hasAutoExitKey, autoExitValue, visible);
        && (a == Quit ==> quitCalls == old(quitCalls) + 1 && timerRunning == old(timerRunning) && remaining == old(remaining))
        && (a == Restart ==> quitCalls == old(quitCalls) && timerRunning && remaining == QuitInterval)
        && (a == Ignore ==> quitCalls == old(quitCalls) && timerRunning == old(timerRunning) && remaining == old(remaining))
    {
      if hasAutoExitKey && autoExitValue {
        if visible {
          StartTimer();
          return;
        }
        quitCalls := quitCalls + 1;
      }
    }

    /**
     * dt milliseconds pass on the event loop. A running countdown that does not
     * run out only decreases. One that runs out stops, since the timer is
     * single-shot; its timeout is delivered once and onDelayQuit runs, which may
     * quit, restart the countdown from the full interval, or do nothing.
     * While the window is hidden, running out quits exactly when auto-exit is on.
     */
    method Tick(dt: nat, hasAutoExitKey: bool, autoExitValue: bool)
      requires Valid()
      modifies this`timerRunning, this`remaining, this`quitCalls
      ensures Valid()
      ensures old(Exclusive()) ==> Exclusive()
      ensures quitCalls > old(quitCalls) ==> !visible
      ensures !old(timerRunning) ==> !timerRunning && quitCalls == old(quitCalls)
      ensures old(timerRunning) && dt < old(remaining) ==>
        timerRunning && remaining == old(remaining) - dt && quitCalls == old(quitCalls)
      ensures old(timerRunning) && dt >= old(remaining) ==>
        var a := DelayQuitAction(hasAutoExitKey, autoExitValue, visible);
        && quitCalls == old(quitCalls) + (if a == Quit then 1 else 0)
        && timerRunning == (a == Restart)
        && (a == Restart ==> remaining == QuitInterval)
    {
      if timerRunning {
        if dt < remaining {
          remaining := remaining - dt;
        } else {
          StopTimer();
          OnDelayQuit(hasAutoExitKey, autoExitValue);
        }
      }
    }

    /** updateWindowRadius: pushes the radius for the cached flag into the window handle and the blur effect. */
    method UpdateWindowRadius()
      modifies this`windowRadius, this`blurXRadius, this`blurYRadius
      ensures windowRadius == blurXRadius == blurYRadius == WindowRadius(supportComposite)
    {
      var value := WindowRadius(supportComposite);
      windowRadius := value;
      blurXRadius := value;
      blurYRadius := value;
    }

    /** windowManagerChanged: re-reads the compositor flag, then reapplies the radius everywhere. */
    method WmChanged(hasComposite: bool)
      requires Valid()
      modifies this`supportComposite, this`windowRadius, this`blurXRadius, this`blurYRadius
      ensures Valid()
      ensures supportComposite == hasComposite
      ensures windowRadius == blurXRadius == blurYRadius == (if hasComposite then RoundedRadius else 0)
    {
      supportComposite := hasComposite;
      UpdateWindowRadius();
    }

    /**
     * moveToCenter: finds the display rectangle and moves the window so that its
     * bottom-centre sits on the display's horizontal centre, BottomMargin above its bottom.
     */
    method MoveToCenter(screens: seq<Rect>, dockRect: Rect, cursorScreen: Option<Rect>, width: nat, height: nat)
      modifies this`pos
      ensures pos == Placement.MoveTarget(screens, dockRect, cursorScreen, width, height)
    {
      var displayRect := Placement.FindDisplayRect(screens, dockRect);
      if !displayRect.IsValid() || displayRect.IsEmpty() {
        match cursorScreen {
          case Some(c) => displayRect := c;
          case None =>
        }
      }
      pos := Placement.MovedTopLeft(displayRect, width, height);
    }
  }

  /** A hidden popup with auto-exit on quits exactly once, when the full interval has passed. */
  method IdleQuitScenario(hasComposite: bool)
  {
    var c := new Container(hasComposite);
    c.Show();
    c.Hide(false);
    c.Tick(QuitInterval - 1, true, true);
    assert c.quitCalls == 0;
    c.Tick(1, true, true);
    assert c.quitCalls == 1;
    c.Tick(QuitInterval, true, true);
    assert c.quitCalls == 1;
  }

  /** A show event before the countdown runs out cancels it: no quit follows. */
  method ShowCancelsQuitScenario(hasComposite: bool)
  {
    var c := new Container(hasComposite);
    c.Hide(false);
    c.Tick(QuitInterval / 2, true, true);
    c.Show();
    c.Tick(QuitInterval, true, true);
    assert c.quitCalls == 0 && !c.timerRunning;
  }

  /**
   * A minimised window is still visible: each time the countdown runs out it is
   * restarted instead of quitting, and a later ordinary hide restarts the same
   * single countdown rather than adding a second one.
   */
  method MinimisedNeverQuitsScenario(hasComposite: bool)
  {
    var c := new Container(hasComposite);
    c.Show();
    c.Hide(true);
    c.Tick(QuitInterval, true, true);
    assert c.quitCalls == 0 && c.timerRunning && c.remaining == QuitInterval;
    c.Tick(QuitInterval, true, true);
    assert c.quitCalls == 0 && c.timerRunning;
    c.Tick(QuitInterval / 2, true, true);
    c.Hide(false);
    assert c.remaining == QuitInterval;
    c.Tick(QuitInterval, true, true);
    assert c.quitCalls == 1 && !c.timerRunning;
  }
}
