/**
 * Where the OSD popup goes: Container::moveToCenter.
 *
 * The screens are the geometries of the application's screens in enumeration
 * order, the dock rectangle is the dock's frontend window rectangle, and the
 * cursor screen is the geometry of the screen under the mouse pointer, if any.
 * The popup's own size is that of its rect().
 */
module Placement {
  import opened Wrappers
  import opened QtGeometry

  /** Distance between the popup's bottom edge and the bottom edge of the chosen screen. */
  const BottomMargin: int := 180

  /** Index of the first screen, in enumeration order, that contains p. */
  function FirstMatch(screens: seq<Rect>, p: Point): (r: Option<nat>)
    ensures r.Some? ==> r.value < |screens| && screens[r.value].Contains(p)
    ensures r.Some? ==> forall j :: 0 <= j < r.value ==> !screens[j].Contains(p)
    ensures r.None? <==> forall j :: 0 <= j < |screens| ==> !screens[j].Contains(p)
  {
    if screens == [] then None
    else if screens[0].Contains(p) then Some(0)
    else match FirstMatch(screens[1..], p)
      case None => None
      case Some(i) => Some(i + 1)
  }

  /**
   * The display rectangle after the search loop: a screen that contains p and
   * follows only screens that do not, or the null rectangle when no screen contains p.
   */
  function MatchedRect(screens: seq<Rect>, p: Point): (d: Rect)
    ensures || (exists i :: 0 <= i < |screens| && d == screens[i] && screens[i].Contains(p)
                  && forall j :: 0 <= j < i ==> !screens[j].Contains(p))
            || (d == NullRect && forall j :: 0 <= j < |screens| ==> !screens[j].Contains(p))
  {
    match FirstMatch(screens, p)
    case Some(i) => screens[i]
    case None => NullRect
  }

  /**
   * The search loop of moveToCenter: walks the screens in order, rebuilding each
   * geometry from its top-left corner and size, and stops at the first one that
   * contains the dock's top-left corner.
   */
  method FindDisplayRect(screens: seq<Rect>, dockRect: Rect) returns (displayRect: Rect)
    ensures displayRect == MatchedRect(screens, dockRect.TopLeft())
  {
    var p := dockRect.TopLeft();
    displayRect := NullRect;
    var i := 0;
    while i < |screens|
      invariant 0 <= i <= |screens|
      invariant displayRect == NullRect
      invariant forall j :: 0 <= j < i ==> !screens[j].Contains(p)
    {
      var screenRect := screens[i];
      var rect := FromTopLeftSize(screenRect.TopLeft(), screenRect.GetSize());
      RebuildIsIdentity(screenRect);
      if rect.Contains(p) {
        displayRect := rect;
        break;
      }
      i := i + 1;
    }
  }

  /**
   * The rectangle moveToCenter places the popup on: the matched screen, unless it
   * is invalid or empty, in which case the cursor's screen if there is one; with
   * no cursor screen the matched rectangle (possibly the null rectangle) stays.
   */
  function DisplayRect(screens: seq<Rect>, dockRect: Rect, cursorScreen: Option<Rect>): (d: Rect)
    ensures MatchedRect(screens, dockRect.TopLeft()).IsValid() ==> d == MatchedRect(screens, dockRect.TopLeft())
    ensures !MatchedRect(screens, dockRect.TopLeft()).IsValid() && cursorScreen.Some? ==> d == cursorScreen.value
    ensures cursorScreen.None? ==> d == MatchedRect(screens, dockRect.TopLeft())
  {
    var matched := MatchedRect(screens, dockRect.TopLeft());
    if !matched.IsValid() || matched.IsEmpty() then
      match cursorScreen
      case Some(c) => c
      case None => matched
    else matched
  }

  /** The widget's own rect(): origin (0, 0) and the widget's size. */
  function WidgetRect(width: nat, height: nat): Rect
  {
    FromTopLeftSize(Point(0, 0), Size(width, height))
  }

  /**
   * The top-left position handed to move(): the display's bottom-centre target
   * minus the popup's own bottom-centre. The moved popup's bottom edge lies
   * BottomMargin above the display's bottom edge (its centre: BottomCentreLands).
   */
  function MovedTopLeft(display: Rect, width: nat, height: nat): (p: Point)
    ensures p.y + height - 1 == display.Bottom() - BottomMargin
    ensures width >= 1 ==> p.x + (width - 1) / 2 == display.CenterX()
  {
    var own := WidgetRect(width, height);
    Point(display.CenterX() - own.CenterX(), display.Bottom() - BottomMargin - own.Bottom())
  }

  /**
   * The position moveToCenter moves the popup to: its bottom edge lies BottomMargin
   * above the bottom of the chosen display, which is a screen containing the dock's
   * corner, the cursor's screen, or the null rectangle.
   */
  function MoveTarget(screens: seq<Rect>, dockRect: Rect, cursorScreen: Option<Rect>, width: nat, height: nat): (p: Point)
    ensures var d := DisplayRect(screens, dockRect, cursorScreen);
      && p.y + height - 1 == d.Bottom() - BottomMargin
      && (width >= 1 ==> p.x + (width - 1) / 2 == d.CenterX())
      && (|| (exists i :: 0 <= i < |screens| && d == screens[i] && screens[i].Contains(dockRect.TopLeft()))
          || (cursorScreen.Some? && d == cursorScreen.value)
          || d == NullRect)
  {
    DisplayIsAScreen(screens, dockRect, cursorScreen);
    MovedTopLeft(DisplayRect(screens, dockRect, cursorScreen), width, height)
  }

  /**
   * When some screen contains the dock's top-left corner and the first such screen
   * is valid, that screen is the display; the screens after it play no part.
   */
  lemma ChosenIsFirstMatch(screens: seq<Rect>, dockRect: Rect, cursorScreen: Option<Rect>, i: nat)
    requires i < |screens| && screens[i].Contains(dockRect.TopLeft()) && screens[i].IsValid()
    requires forall j :: 0 <= j < i ==> !screens[j].Contains(dockRect.TopLeft())
    ensures DisplayRect(screens, dockRect, cursorScreen) == screens[i]
  {
    assert FirstMatch(screens, dockRect.TopLeft()) == Some(i);
  }

  /** The search stops at the first match: replacing every screen after it changes nothing. */
  lemma LaterScreensIgnored(screens: seq<Rect>, later: seq<Rect>, dockRect: Rect, cursorScreen: Option<Rect>, i: nat)
    requires i < |screens| && screens[i].Contains(dockRect.TopLeft())
    requires forall j :: 0 <= j < i ==> !screens[j].Contains(dockRect.TopLeft())
    ensures DisplayRect(screens[..i + 1] + later, dockRect, cursorScreen) == DisplayRect(screens, dockRect, cursorScreen)
  {
    var p := dockRect.TopLeft();
    var s := screens[..i + 1] + later;
    assert s[i] == screens[i];
    assert forall j :: 0 <= j < i ==> s[j] == screens[j];
    assert FirstMatch(s, p) == Some(i);
    assert FirstMatch(screens, p) == Some(i);
  }

  /**
   * When no screen contains the dock's top-left corner, the display is the
   * cursor's screen, or the null rectangle when there is no screen under the cursor.
   */
  lemma NoMatchFallsBackToCursor(screens: seq<Rect>, dockRect: Rect, cursorScreen: Option<Rect>)
    requires forall j :: 0 <= j < |screens| ==> !screens[j].Contains(dockRect.TopLeft())
    ensures cursorScreen.Some? ==> DisplayRect(screens, dockRect, cursorScreen) == cursorScreen.value
    ensures cursorScreen.None? ==> DisplayRect(screens, dockRect, cursorScreen) == NullRect
  {
    assert FirstMatch(screens, dockRect.TopLeft()).None?;
  }

  /**
   * A first matching screen whose geometry is invalid (a negative size that
   * contains still accepts) is dropped in favour of the cursor's screen.
   */
  lemma InvalidMatchFallsBack(screens: seq<Rect>, dockRect: Rect, c: Rect, i: nat)
    requires i < |screens| && screens[i].Contains(dockRect.TopLeft()) && !screens[i].IsValid()
    requires forall j :: 0 <= j < i ==> !screens[j].Contains(dockRect.TopLeft())
    ensures DisplayRect(screens, dockRect, Some(c)) == c
  {
    assert FirstMatch(screens, dockRect.TopLeft()) == Some(i);
  }

  /**
   * A dock rectangle that is the null rectangle (what a failed dock query yields)
   * still has the top-left corner (0, 0): the first screen containing the origin
   * is chosen whatever the cursor's screen is, so an unavailable dock does not
   * lead to the cursor fallback when a valid screen covers the origin.
   */
  lemma NullDockPicksOriginScreen(screens: seq<Rect>, cursorScreen: Option<Rect>, i: nat)
    requires i < |screens| && screens[i].IsValid() && screens[i].Contains(Point(0, 0))
    requires forall j :: 0 <= j < i ==> !screens[j].Contains(Point(0, 0))
    ensures DisplayRect(screens, NullRect, cursorScreen) == screens[i]
  {
    ChosenIsFirstMatch(screens, NullRect, cursorScreen, i);
  }

  /**
   * The popup, moved to MovedTopLeft, has its bottom edge exactly BottomMargin
   * above the display's bottom edge, and its centre on the display's centre;
   * because center() rounds toward zero, a popup of even width whose moved left
   * and right edges sum to a negative number has its centre one unit to the right.
   */
  lemma BottomCentreLands(display: Rect, width: nat, height: nat)
    requires width >= 1
    ensures var moved := FromTopLeftSize(MovedTopLeft(display, width, height), Size(width, height));
      && moved.Bottom() == display.Bottom() - BottomMargin
      && moved.CenterX() == display.CenterX() + (if width % 2 == 0 && moved.x1 + moved.x2 < 0 then 1 else 0)
  {
    var k := width - 1;
    var x := MovedTopLeft(display, width, height).x;
    var moved := FromTopLeftSize(MovedTopLeft(display, width, height), Size(width, height));
    assert WidgetRect(width, height).CenterX() == k / 2;
    assert x == display.CenterX() - k / 2;
    assert moved.x1 + moved.x2 == 2 * x + k;
    if k % 2 == 0 {
      assert 2 * x + k == 2 * (x + k / 2);
    } else {
      assert 2 * x + k == 2 * (x + k / 2) + 1;
    }
  }

  /**
   * On a valid display at least BottomMargin + 1 units tall, the target point
   * (horizontal centre, BottomMargin above the bottom edge) lies inside the display.
   */
  lemma TargetWithinDisplay(d: Rect)
    requires d.IsValid() && d.Bottom() - BottomMargin >= d.Top()
    ensures d.Contains(Point(d.CenterX(), d.Bottom() - BottomMargin))
  {
  }

  /** The display moveToCenter chooses is the first matching screen, the cursor's screen, or the null rectangle. */
  lemma DisplayIsAScreen(screens: seq<Rect>, dockRect: Rect, cursorScreen: Option<Rect>)
    ensures var d := DisplayRect(screens, dockRect, cursorScreen);
      || (exists i :: 0 <= i < |screens| && d == screens[i] && screens[i].Contains(dockRect.TopLeft()))
      || (cursorScreen.Some? && d == cursorScreen.value)
      || d == NullRect
  {
    var p := dockRect.TopLeft();
    match FirstMatch(screens, p)
    case Some(i) =>
      assert screens[i].Contains(p);
    case None =>
  }
}
