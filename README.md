# OSD popup container — a Dafny model

This project models the core of the on-screen-display popup of dde-session-ui, the
`Container` window in `dde-osd/container.cpp`. That window is a translucent popup. It
places itself above the dock. When auto-exit is enabled in the settings, it quits the
hosting application after an idle minute spent hidden. The model covers three parts:

- **Idle-quit lifecycle** (`OsdContainer.Container`). This is a class with fields for visibility,
  the single-shot quit timer (running flag and remaining milliseconds, `-1` when
  inactive, as `QTimer::remainingTime` reports it) and a count of `quit()` calls. The show
  and hide events (ordinary or spontaneous), the passing of time and the timer's timeout slot `onDelayQuit` are its methods.
  The `Valid()` invariant fixes the timer at single-shot and 60 000 ms. The `Exclusive()`
  invariant says a visible window has no running countdown. Show, ordinary hide events and the passing of
  time all preserve it.
- **Placement** (`Placement`, over `QtGeometry`). `moveToCenter` searches the screens in
  order, falls back to the cursor's screen, and computes the top-left point passed to `move()`.
  `QRect` is modelled as Qt stores it: inclusive corners (x1, y1)–(x2, y2), with
  `center()` rounding toward zero as C++ division does. `contains()` is inclusive and swaps
  the edges of a rectangle with negative width or height. The null rectangle is
  (0, 0, -1, -1). The search loop is the method `FindDisplayRect`, proved against the
  first-match function `FirstMatch`.
- **Corner radius** (`OsdContainer.WindowRadius`, `Container.WmChanged`). The radius is 10 with
  compositing and 0 without. A compositor change stores the new flag and pushes
  the same radius into the window handle and into both blur radii.

Inputs the code reads from other services are parameters:
- the screen geometries, in enumeration order;
- the dock's frontend rectangle;
- the geometry of the screen under the cursor (an `Option`);
- the popup's size;
- the compositor flag;
- the two settings reads.

`quit()` is modelled as a counter being incremented.

Behaviours of the code that the model makes explicit:
- A failed dock query gives the null rectangle, whose top-left corner is (0, 0). So a
  valid screen covering the origin is chosen, and the cursor's screen is not consulted
  (`Placement.NullDockPicksOriginScreen`).
- The cursor fallback also replaces a first match whose geometry is invalid
  (`Placement.InvalidMatchFallsBack`). When there is no screen under the cursor, that
  invalid match is kept, not the null rectangle.
- The window is constructed hidden with its countdown inactive. The countdown starts
  with the first hide event.
- A spontaneous hide event (the window system minimising or unmapping the window)
  leaves the window visible. The countdown still starts. When auto-exit is enabled in
  the settings, each time it runs out it is restarted rather than quitting; otherwise it
  stops and stays stopped (`Container.Tick`).
- A rearm from `onDelayQuit` restarts the same single timer. A later hide restarts it again
  from the full interval (`Container.Hide`), so no second countdown can exist.
- The settings key list is checked for `autoExit`, and the value is read under `auto-exit`.
  The model keeps these as two independent inputs.

## Model

| member | source | states |
|---|---|---|
| QtGeometry.HalfTowardZero | dde-osd/container.cpp:99 | the halving inside `center()` truncates toward zero: the remainder is 0 or has the sign of the operand |
| QtGeometry.Rect.CenterX | dde-osd/container.cpp:99 | the centre of a valid rectangle lies between its left and right edges, at most one unit off the exact middle |
| QtGeometry.FromTopLeftSize | dde-osd/container.cpp:85 | the rectangle built from a corner and a size has exactly that corner and that size |
| QtGeometry.RebuildIsIdentity | dde-osd/container.cpp:84-85 | rebuilding a screen geometry from its top-left corner and size gives the same rectangle |
| QtGeometry.ContainsValid | dde-osd/container.cpp:87 | on a valid rectangle, `contains` is inclusive on all four edges and nothing else |
| QtGeometry.ZeroSizeContainsNothing | dde-osd/container.cpp:87 | a zero-width or zero-height rectangle, such as the null rectangle, contains no point |
| QtGeometry.InvalidRectMayContain | dde-osd/container.cpp:87-93 | an invalid rectangle (negative width) can still contain a point, so a match can be invalid |
| Placement.FirstMatch | dde-osd/container.cpp:83-91 | the index returned is of a screen containing the point, and no earlier screen contains it; there is no index exactly when no screen contains it |
| Placement.MatchedRect | dde-osd/container.cpp:83-91 | `displayRect` after the loop is a screen containing the dock's corner with no earlier screen containing it, or the null rectangle when no screen contains it |
| Placement.FindDisplayRect | dde-osd/container.cpp:77-91 | the loop with `break` leaves `displayRect` equal to the first screen containing the dock's top-left corner, or the null rectangle |
| Placement.DisplayRect | dde-osd/container.cpp:93-97 | a valid match is kept; an invalid one is replaced by the cursor's screen when there is one; with no cursor screen the match stays |
| Placement.MovedTopLeft | dde-osd/container.cpp:99 | the moved popup's bottom edge is 180 above the display's bottom; for any positive width its left edge plus its own centre offset, (width - 1) / 2, is the display's centre |
| Placement.MoveTarget | dde-osd/container.cpp:75-99 | the position puts the popup's bottom edge 180 above the chosen display's bottom and, for any positive width, its left edge (width - 1) / 2 left of the display's centre, and the display is a matching screen, the cursor's screen or the null rectangle |
| Placement.ChosenIsFirstMatch | dde-osd/container.cpp:83-91 | when the first screen containing the dock's corner is valid, it is the display rectangle |
| Placement.LaterScreensIgnored | dde-osd/container.cpp:87-89 | screens after the first match do not affect the choice |
| Placement.NoMatchFallsBackToCursor | dde-osd/container.cpp:93-97 | with no screen containing the dock's corner, the display is the cursor's screen, or the null rectangle if there is none |
| Placement.InvalidMatchFallsBack | dde-osd/container.cpp:87-97 | an invalid first match is replaced by the cursor's screen |
| Placement.NullDockPicksOriginScreen | dde-osd/container.cpp:82-97 | a null dock rectangle selects the first valid screen covering the origin, whatever the cursor's screen |
| Placement.BottomCentreLands | dde-osd/container.cpp:99 | after the move, the popup's bottom edge is exactly 180 above the display's bottom. Its centre is the display's centre, except one unit right when the width is even and the moved edges sum below zero |
| Placement.TargetWithinDisplay | dde-osd/container.cpp:99 | on a valid display taller than 180, the target bottom-centre point lies inside the display |
| Placement.DisplayIsAScreen | dde-osd/container.cpp:83-97 | the display is a screen containing the dock's corner, the cursor's screen, or the null rectangle |
| OsdContainer.WindowRadius | dde-osd/container.cpp:134-137 | the radius is 10 when compositing is supported and 0 otherwise |
| OsdContainer.DelayQuitAction | dde-osd/container.cpp:141-147 | quit exactly when the key is listed, the value is true and the window is hidden; restart exactly when both settings hold and it is visible; otherwise nothing |
| OsdContainer.NeverQuitsWhileVisible | dde-osd/container.cpp:142-144 | a visible window is never quit, for any settings |
| OsdContainer.Container.constructor | dde-osd/container.cpp:26-68 | a new container is valid (single-shot 60 000 ms timer), hidden, not counting, has quit nothing, caches the compositor flag with matching radii, and has no content |
| OsdContainer.Container.StartTimer | dde-osd/container.cpp:113 | `start()` leaves the timer running with the full interval remaining |
| OsdContainer.Container.StopTimer | dde-osd/container.cpp:106 | `stop()` leaves the timer inactive whatever its previous state |
| OsdContainer.Container.SetContent | dde-osd/container.cpp:70-73 | the content widget is appended to the layout's widgets and nothing else changes |
| OsdContainer.Container.Show | dde-osd/container.cpp:102-107 | after a show event the window is visible and the countdown is stopped |
| OsdContainer.Container.Hide | dde-osd/container.cpp:109-114 | after a hide event the countdown runs from the full 60 000 ms; an ordinary hide leaves the window hidden, a spontaneous one leaves visibility as it was |
| OsdContainer.Container.OnDelayQuit | dde-osd/container.cpp:139-147 | quits only while hidden; rearms from the full interval when visible with auto-exit on; otherwise timer and quit count are unchanged |
| OsdContainer.Container.Tick | dde-osd/container.cpp:44-45 | a running single-shot countdown decreases by the elapsed time until it runs out; it then stops and onDelayQuit's decision applies: one quit when hidden with auto-exit on, a restart from the full interval when still visible, otherwise nothing. Exclusivity of visibility and countdown is kept, and no quit happens while visible |
| OsdContainer.Container.UpdateWindowRadius | dde-osd/container.cpp:123-132 | the window-handle radius and both blur radii all equal the radius for the cached flag |
| OsdContainer.Container.WmChanged | dde-osd/container.cpp:116-121 | the cached flag equals the compositor's current value, and all three radii are 10 with compositing, 0 without |
| OsdContainer.Container.MoveToCenter | dde-osd/container.cpp:75-100 | the window's position becomes the placement computed from the screens, the dock rectangle, the cursor's screen and the popup's size |

## Left out

- The D-Bus display and dock proxies, and the `monitors()` call, whose result the code never uses. The dock rectangle and screen geometries are inputs.
- The settings store. Its two reads are boolean inputs. How the settings binding maps key names is not part of this model.
- `qWarning` output, and the process exit that `quit()` triggers. Quit is a call counter.
- The window flags and the `WAYLAND_DISPLAY` branch of the constructor. They are toolkit configuration.
- Blur blend mode, mask colour, border and shadow colours. The floating-point border alpha is rendering.
- Signal/slot wiring and the event loop. Events are sequential method calls.
- `dde-notification-plugin/notifications/notificationswidget.h`. It only declares the notification indicator, and its implementation is not part of this model.
- Layout geometry of `setContent`. Re-adding a widget already in the layout is toolkit behaviour, and is modelled as a plain append.
- 32-bit integer overflow in the rectangle and position arithmetic. Coordinates are unbounded integers.
- BottomCentreLands: requires a popup width of at least 1. For a zero-width popup, Qt's rounding puts the centre one unit to the left on positive coordinates; that case is not stated.
- Tick: a timeout is delivered at most once per call. This follows Qt's late timer delivery, where a restart counts from the moment of delivery.
