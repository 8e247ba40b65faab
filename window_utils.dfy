/** Window geometry rules of the flicker library: the rectangles of the display,
    an app window, the status bar and the navigation bar for a requested rotation,
    computed from values read from the platform.

    The platform reads (window manager display size and rotation, dimension and
    integer resources) are the fields of a `Platform` value; Android's `Rect` and
    `Region` are both the integer rectangle `Rect`. */
module WindowUtils {

  /** android.view.Surface rotation constants. */
  const ROTATION_0: int := 0
  const ROTATION_90: int := 1
  const ROTATION_180: int := 2
  const ROTATION_270: int := 3

  /** Value of config_navBarInteractionMode that means gestural navigation. */
  const NAV_BAR_MODE_GESTURAL: int := 2

  /** An integer rectangle: `left` and `top` inclusive, `right` and `bottom` exclusive. */
  datatype Rect = Rect(left: int, top: int, right: int, bottom: int) {
    function Width(): int { right - left }
    function Height(): int { bottom - top }
    function Area(): int { Width() * Height() }

    /** Every edge of `r` lies on or inside this rectangle. */
    predicate Contains(r: Rect) {
      left <= r.left && top <= r.top && r.right <= right && r.bottom <= bottom
    }
  }

  /** Everything the rules read from the platform. */
  datatype Platform = Platform(
    realWidth: int,                  // display real size, x, in the current rotation
    realHeight: int,                 // display real size, y, in the current rotation
    rotation: int,                   // current display rotation
    statusBarHeightPortrait: int,    // dimen status_bar_height_portrait
    statusBarHeightLandscape: int,   // dimen status_bar_height_landscape
    navigationBarWidth: int,         // dimen navigation_bar_width
    navigationBarHeight: int,        // dimen navigation_bar_height
    navigationBarGestureHeight: int, // dimen navigation_bar_gesture_height
    navBarInteractionMode: int)      // integer config_navBarInteractionMode

  /** A rotation of 90 or 270 degrees: the display's sides are exchanged. */
  predicate IsRotated(rotation: int) {
    rotation == ROTATION_90 || rotation == ROTATION_270
  }

  /** A rotation of 0 or 180 degrees, as the status and navigation bar rules test it. */
  predicate IsUpright(rotation: int) {
    rotation == ROTATION_0 || rotation == ROTATION_180
  }

  function Min(a: int, b: int): int { if a <= b then a else b }
  function Max(a: int, b: int): int { if a <= b then b else a }

  // ---------------------------------------------------------------------------
  // Display and app bounds

  /** The display as it is now: origin at (0, 0), the real size as width and height. */
  function CurrentDisplayBounds(p: Platform): (r: Rect)
    ensures r.left == 0 && r.top == 0
    ensures r.Width() == p.realWidth && r.Height() == p.realHeight
  {
    Rect(0, 0, p.realWidth, p.realHeight)
  }

  /** The display bounds once the display is in `requestedRotation`: width and
      height are exchanged exactly when the requested rotation and the current one
      differ in being rotated by 90/270 degrees. */
  function DisplayBounds(p: Platform, requestedRotation: int): (r: Rect)
    ensures r.left == 0 && r.top == 0
    ensures IsRotated(p.rotation) != IsRotated(requestedRotation) ==>
              r.Width() == p.realHeight && r.Height() == p.realWidth
    ensures IsRotated(p.rotation) == IsRotated(requestedRotation) ==>
              r == CurrentDisplayBounds(p)
  {
    var displayBounds := CurrentDisplayBounds(p);
    var displayIsRotated := IsRotated(p.rotation);
    var requestedDisplayIsRotated := IsRotated(requestedRotation);
    if displayIsRotated != requestedDisplayIsRotated then
      Rect(0, 0, displayBounds.Height(), displayBounds.Width())
    else
      Rect(0, 0, displayBounds.Width(), displayBounds.Height())
  }

  /** The bounds of a full-screen app in `requestedRotation`: the same rectangle as
      the display bounds for that rotation, whatever the current rotation. */
  function AppPosition(p: Platform, requestedRotation: int): (r: Rect)
    ensures r == DisplayBounds(p, requestedRotation)
  {
    var displayBounds := CurrentDisplayBounds(p);
    var displayIsRotated := IsRotated(p.rotation);
    var requestedAppIsRotated := IsRotated(requestedRotation);
    if displayIsRotated != requestedAppIsRotated then
      Rect(0, 0, displayBounds.Height(), displayBounds.Width())
    else
      Rect(0, 0, displayBounds.Width(), displayBounds.Height())
  }

  /** The size of the panel at rotation 0: the current real size with the current
      rotation undone.  An independent description of the display used below. */
  function NaturalSize(p: Platform): (int, int) {
    if IsRotated(p.rotation) then (p.realHeight, p.realWidth) else (p.realWidth, p.realHeight)
  }

  /** A panel of natural size `size` turned to `rotation`, as a rectangle at the origin. */
  function Oriented(size: (int, int), rotation: int): Rect {
    if IsRotated(rotation) then Rect(0, 0, size.1, size.0) else Rect(0, 0, size.0, size.1)
  }

  /** The display bounds for a requested rotation are the natural panel turned to
      that rotation: the current rotation only matters through the panel's size. */
  lemma DisplayBoundsIsNaturalPanelOriented(p: Platform, requestedRotation: int)
    ensures DisplayBounds(p, requestedRotation) == Oriented(NaturalSize(p), requestedRotation)
  {
  }

  /** Two platform states showing the same panel (in any current rotations) give
      the same display bounds for every requested rotation. */
  lemma DisplayBoundsIndependentOfCurrentRotation(p: Platform, q: Platform, requestedRotation: int)
    requires NaturalSize(p) == NaturalSize(q)
    ensures DisplayBounds(p, requestedRotation) == DisplayBounds(q, requestedRotation)
  {
    DisplayBoundsIsNaturalPanelOriented(p, requestedRotation);
    DisplayBoundsIsNaturalPanelOriented(q, requestedRotation);
  }

  /** The platform after the display has turned to `rotation`: its real size becomes
      the display bounds computed for that rotation. */
  function TurnedTo(p: Platform, rotation: int): Platform {
    var b := DisplayBounds(p, rotation);
    p.(realWidth := b.Width(), realHeight := b.Height(), rotation := rotation)
  }

  /** Swapping is involutive: requesting the current rotation gives the current
      bounds, turning the display and asking for the original rotation gives the
      original bounds back, and the area is the same for every requested rotation. */
  lemma DisplayBoundsRoundTrip(p: Platform, rotation: int)
    ensures DisplayBounds(p, p.rotation) == CurrentDisplayBounds(p)
    ensures CurrentDisplayBounds(TurnedTo(p, rotation)) == DisplayBounds(p, rotation)
    ensures DisplayBounds(TurnedTo(p, rotation), p.rotation) == CurrentDisplayBounds(p)
    ensures DisplayBounds(p, rotation).Area() == CurrentDisplayBounds(p).Area()
  {
    var b := DisplayBounds(p, rotation);
    if IsRotated(p.rotation) != IsRotated(rotation) {
      assert b.Area() == p.realHeight * p.realWidth;
    }
  }

  // ---------------------------------------------------------------------------
  // Status bar

  /** The status bar: a rectangle at the origin whose width is the shorter display
      side for rotations 0/180 and the longer one for every other value, and whose
      height is the portrait or landscape status bar height respectively. */
  function StatusBarPosition(p: Platform, requestedRotation: int): (r: Rect)
    ensures r.left == 0 && r.top == 0
    ensures IsUpright(requestedRotation) ==>
              r.Width() <= p.realWidth && r.Width() <= p.realHeight &&
              (r.Width() == p.realWidth || r.Width() == p.realHeight) &&
              r.Height() == p.statusBarHeightPortrait
    ensures !IsUpright(requestedRotation) ==>
              r.Width() >= p.realWidth && r.Width() >= p.realHeight &&
              (r.Width() == p.realWidth || r.Width() == p.realHeight) &&
              r.Height() == p.statusBarHeightLandscape
  {
    var displayBounds := CurrentDisplayBounds(p);
    var width :=
      if IsUpright(requestedRotation) then Min(displayBounds.Width(), displayBounds.Height())
      else Max(displayBounds.Width(), displayBounds.Height());
    var height :=
      if IsUpright(requestedRotation) then p.statusBarHeightPortrait
      else p.statusBarHeightLandscape;
    Rect(0, 0, width, height)
  }

  /** The status bar does not depend on the current rotation: two platform states
      showing the same panel with the same resources give the same status bar. */
  lemma StatusBarIndependentOfCurrentRotation(p: Platform, q: Platform, requestedRotation: int)
    requires NaturalSize(p) == NaturalSize(q)
    requires p.statusBarHeightPortrait == q.statusBarHeightPortrait
    requires p.statusBarHeightLandscape == q.statusBarHeightLandscape
    ensures StatusBarPosition(p, requestedRotation) == StatusBarPosition(q, requestedRotation)
  {
  }

  /** On a panel that is portrait at rotation 0, the status bar for any of the four
      rotations spans the whole top edge of the display bounds for that rotation,
      and lies inside them when its height fits. */
  lemma StatusBarSpansDisplayTop(p: Platform, requestedRotation: int)
    requires ROTATION_0 <= requestedRotation <= ROTATION_270
    requires NaturalSize(p).0 <= NaturalSize(p).1
    ensures var s, d := StatusBarPosition(p, requestedRotation), DisplayBounds(p, requestedRotation);
      s.left == d.left && s.top == d.top && s.right == d.right &&
      (0 <= s.Height() <= d.Height() ==> d.Contains(s))
  {
  }

  /** On a panel that is landscape at rotation 0 the status bar does not span the
      display: with a 2000x1000 panel at rotation 0 and rotation 0 requested, the
      bar is 1000 wide while the display bounds are 2000 wide. */
  lemma StatusBarNarrowerOnLandscapePanel()
    ensures var p := Platform(2000, 1000, ROTATION_0, 50, 40, 48, 48, 16, 0);
      StatusBarPosition(p, ROTATION_0) == Rect(0, 0, 1000, 50) &&
      DisplayBounds(p, ROTATION_0) == Rect(0, 0, 2000, 1000) &&
      StatusBarPosition(p, ROTATION_0).right < DisplayBounds(p, ROTATION_0).right
  {
    var p := Platform(2000, 1000, ROTATION_0, 50, 40, 48, 48, 16, 0);
    assert CurrentDisplayBounds(p) == Rect(0, 0, 2000, 1000);
    assert Min(2000, 1000) == 1000;
  }

  // ---------------------------------------------------------------------------
  // Navigation bar

  /** Whether the platform uses gestural navigation. */
  predicate IsGesturalNavigationEnabled(p: Platform) {
    p.navBarInteractionMode == NAV_BAR_MODE_GESTURAL
  }

  /** The navigation bar's height: the navigation_bar_height resource, plus the
      gesture height exactly when the interaction mode is gestural. */
  function NavigationBarHeight(p: Platform): (h: int)
    ensures p.navBarInteractionMode == NAV_BAR_MODE_GESTURAL ==>
              h == p.navigationBarHeight + p.navigationBarGestureHeight
    ensures p.navBarInteractionMode != NAV_BAR_MODE_GESTURAL ==> h == p.navigationBarHeight
  {
    var navBarHeight := p.navigationBarHeight;
    if IsGesturalNavigationEnabled(p) then navBarHeight + p.navigationBarGestureHeight
    else navBarHeight
  }

  /** The display size the navigation bar rule uses: the current real size for
      rotations 0/180, the exchanged sides for every other value. */
  function NavBarDisplaySize(p: Platform, requestedRotation: int): (size: (int, int))
    ensures IsUpright(requestedRotation) ==> size == (p.realWidth, p.realHeight)
    ensures !IsUpright(requestedRotation) ==> size == (p.realHeight, p.realWidth)
  {
    if IsUpright(requestedRotation) then (p.realWidth, p.realHeight)
    else (p.realHeight, p.realWidth)
  }

  /** An edge of the display. */
  datatype Edge = Bottom | LeftEdge | RightEdge

  /** Where the navigation bar sits: at the bottom for rotations 0/180 and in
      gestural mode, on the left for rotation 90, on the right otherwise. */
  function NavBarEdge(p: Platform, requestedRotation: int): Edge {
    if IsUpright(requestedRotation) || IsGesturalNavigationEnabled(p) then Bottom
    else if requestedRotation == ROTATION_90 then LeftEdge
    else RightEdge
  }

  /** The strip of `thickness` along `edge` of `bounds`, a geometric reference
      definition: it shares that edge and the two adjacent ones with `bounds`. */
  function Strip(bounds: Rect, edge: Edge, thickness: int): (r: Rect)
    ensures edge == Bottom ==> r.left == bounds.left && r.right == bounds.right &&
                               r.bottom == bounds.bottom && r.Height() == thickness
    ensures edge != Bottom ==> r.top == bounds.top && r.bottom == bounds.bottom && r.Width() == thickness
    ensures edge == LeftEdge ==> r.left == bounds.left
    ensures edge == RightEdge ==> r.right == bounds.right
  {
    match edge
    case Bottom => Rect(bounds.left, bounds.bottom - thickness, bounds.right, bounds.bottom)
    case LeftEdge => Rect(bounds.left, bounds.top, bounds.left + thickness, bounds.bottom)
    case RightEdge => Rect(bounds.right - thickness, bounds.top, bounds.right, bounds.bottom)
  }

  /** A strip no thicker than the side it is measured across lies inside its bounds. */
  lemma StripInside(bounds: Rect, edge: Edge, thickness: int)
    requires 0 <= thickness
    requires edge == Bottom ==> thickness <= bounds.Height()
    requires edge != Bottom ==> thickness <= bounds.Width()
    requires bounds.left <= bounds.right && bounds.top <= bounds.bottom
    ensures bounds.Contains(Strip(bounds, edge, thickness))
  {
  }

  /** The navigation bar: the bottom strip of the navigation bar height, or a
      full-height side strip of the navigation bar width on the left (rotation 90)
      or on the right, of the display size `NavBarDisplaySize`. */
  function NavigationBarPosition(p: Platform, requestedRotation: int): (r: Rect)
    ensures var (dw, dh) := NavBarDisplaySize(p, requestedRotation);
      r == Strip(Rect(0, 0, dw, dh), NavBarEdge(p, requestedRotation),
                 if NavBarEdge(p, requestedRotation) == Bottom then NavigationBarHeight(p)
                 else p.navigationBarWidth)
  {
    var displayWidth := if IsUpright(requestedRotation) then p.realWidth else p.realHeight;
    var displayHeight := if IsUpright(requestedRotation) then p.realHeight else p.realWidth;
    var navBarWidth := p.navigationBarWidth;
    var navBarHeight := NavigationBarHeight(p);
    if IsUpright(requestedRotation) || IsGesturalNavigationEnabled(p) then
      Rect(0, displayHeight - navBarHeight, displayWidth, displayHeight)
    else if requestedRotation == ROTATION_90 then
      Rect(0, 0, navBarWidth, displayHeight)
    else
      Rect(displayWidth - navBarWidth, 0, displayWidth, displayHeight)
  }

  /** The navigation bar's placement, stated edge by edge. */
  lemma NavigationBarPlacement(p: Platform, requestedRotation: int)
    ensures var r, (dw, dh) := NavigationBarPosition(p, requestedRotation), NavBarDisplaySize(p, requestedRotation);
      (IsUpright(requestedRotation) || IsGesturalNavigationEnabled(p) ==>
         r == Rect(0, dh - NavigationBarHeight(p), dw, dh)) &&
      (!IsUpright(requestedRotation) && !IsGesturalNavigationEnabled(p) && requestedRotation == ROTATION_90 ==>
         r == Rect(0, 0, p.navigationBarWidth, dh)) &&
      (!IsUpright(requestedRotation) && !IsGesturalNavigationEnabled(p) && requestedRotation != ROTATION_90 ==>
         r == Rect(dw - p.navigationBarWidth, 0, dw, dh))
  {
  }

  /** While the display is at rotation 0 or 180, the navigation bar rule's display
      size is the display bounds for the requested rotation, so a bar whose
      thickness fits lies inside those bounds along the edge `NavBarEdge` names. */
  lemma NavigationBarInsideDisplayWhenUpright(p: Platform, requestedRotation: int)
    requires !IsRotated(p.rotation)
    requires ROTATION_0 <= requestedRotation <= ROTATION_270
    requires 0 <= p.realWidth && 0 <= p.realHeight
    requires var d := DisplayBounds(p, requestedRotation);
      0 <= NavigationBarHeight(p) <= d.Height() && 0 <= p.navigationBarWidth <= d.Width()
    ensures var d := DisplayBounds(p, requestedRotation);
      Rect(0, 0, NavBarDisplaySize(p, requestedRotation).0, NavBarDisplaySize(p, requestedRotation).1) == d &&
      d.Contains(NavigationBarPosition(p, requestedRotation))
  {
    var d := DisplayBounds(p, requestedRotation);
    var edge := NavBarEdge(p, requestedRotation);
    var thickness := if edge == Bottom then NavigationBarHeight(p) else p.navigationBarWidth;
    StripInside(d, edge, thickness);
  }

  /** The navigation bar rule does not consult the current rotation: with the
      display at rotation 90 (a 2000x1000 real size) and rotation 90 requested, the
      left bar is 2000 high while the display bounds for rotation 90 are 1000 high. */
  lemma NavigationBarIgnoresCurrentRotation()
    ensures var p := Platform(2000, 1000, ROTATION_90, 50, 40, 48, 48, 16, 0);
      NavigationBarPosition(p, ROTATION_90) == Rect(0, 0, 48, 2000) &&
      DisplayBounds(p, ROTATION_90) == Rect(0, 0, 2000, 1000) &&
      !DisplayBounds(p, ROTATION_90).Contains(NavigationBarPosition(p, ROTATION_90))
  {
  }
}
