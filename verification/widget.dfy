/** The decision logic of the floating widget that content pages show
    (content-scripts/floating-widget.js): which registry entry the page
    belongs to, which entries the menu offers, where the menu opens, how a
    drag is clamped to the viewport, and when the menu opens or closes. */
module Widget {
  import opened Common
  import opened JsString
  import opened Environment
  import opened Url

  // ---------------------------------------------------------------------
  // Current environment
  // ---------------------------------------------------------------------

  /** The test `matchCurrentEnvironment` applies to one entry: the entry
      needs a url; when both the page url and the lower-cased entry url
      parse, the origins are compared, or the entry url with a forced
      trailing `/` must be a case-insensitive prefix of the page url; when
      either parse throws, the entry url must be a plain case-insensitive
      prefix. */
  predicate WidgetMatches(currentUrl: string, e: Env, parse: Parser)
  {
    && e.url != ""
    && match (parse(currentUrl), parse(Lower(e.url)))
       case (Some(c), Some(u)) =>
         c.origin == u.origin || StartsWith(Lower(currentUrl), WithTrailingSlash(Lower(e.url)))
       case _ =>
         StartsWith(Lower(currentUrl), Lower(e.url))
  }

  function WidgetMatchesOf(currentUrl: string, parse: Parser): Env -> bool
  {
    (e: Env) => WidgetMatches(currentUrl, e, parse)
  }

  /** `matchCurrentEnvironment`: the first matching entry in list order. */
  function MatchCurrent(currentUrl: string, envs: seq<Env>, parse: Parser): (r: Option<Env>)
    ensures r.None? <==> forall i :: 0 <= i < |envs| ==> !WidgetMatches(currentUrl, envs[i], parse)
    ensures r.Some? ==>
              exists k :: 0 <= k < |envs| && envs[k] == r.value
                && WidgetMatches(currentUrl, envs[k], parse)
                && forall i :: 0 <= i < k ==> !WidgetMatches(currentUrl, envs[i], parse)
  {
    Find(envs, WidgetMatchesOf(currentUrl, parse))
  }

  /** The test of `detectEnvironment`, written against the already
      lower-cased page url. */
  predicate DetectMatches(cur: string, e: Env, parse: Parser)
  {
    && e.url != ""
    && match (parse(cur), parse(Lower(e.url)))
       case (Some(c), Some(u)) =>
         c.origin == u.origin || StartsWith(cur, WithTrailingSlash(Lower(e.url)))
       case _ =>
         StartsWith(cur, Lower(e.url))
  }

  function DetectMatchesOf(cur: string, parse: Parser): Env -> bool
  {
    (e: Env) => DetectMatches(cur, e, parse)
  }

  /** `detectEnvironment`: the same scan, but the page url is lower-cased
      before it is parsed. */
  function DetectEnvironment(href: string, envs: seq<Env>, parse: Parser): Option<Env>
  {
    Find(envs, DetectMatchesOf(Lower(href), parse))
  }

  /** The two scans are one scan: detecting from `href` is matching from
      its lower-cased form, so it finds nothing exactly when no entry
      matches the lower-cased url. */
  lemma DetectIsMatchOfLowered(href: string, envs: seq<Env>, parse: Parser)
    ensures DetectEnvironment(href, envs, parse) == MatchCurrent(Lower(href), envs, parse)
    ensures DetectEnvironment(href, envs, parse).None? <==>
              forall i :: 0 <= i < |envs| ==> !WidgetMatches(Lower(href), envs[i], parse)
  {
    LowerIdempotent(href);
    FindCongruent(envs, DetectMatchesOf(Lower(href), parse), WidgetMatchesOf(Lower(href), parse));
  }

  /** When the entry url does not parse, matching is a plain
      case-insensitive prefix test, without the trailing-slash adjustment. */
  lemma FallbackIsPlainPrefix(currentUrl: string, e: Env, parse: Parser)
    requires e.url != "" && parse(Lower(e.url)).None?
    ensures WidgetMatches(currentUrl, e, parse) <==> StartsWith(Lower(currentUrl), Lower(e.url))
  {
  }

  /** With both urls parsable, an entry on the page's origin always
      matches, whatever the path. */
  lemma SameOriginMatches(currentUrl: string, e: Env, parse: Parser)
    requires e.url != "" && parse(currentUrl).Some? && parse(Lower(e.url)).Some?
    requires parse(currentUrl).value.origin == parse(Lower(e.url)).value.origin
    ensures WidgetMatches(currentUrl, e, parse)
  {
  }

  // ---------------------------------------------------------------------
  // Menu candidates
  // ---------------------------------------------------------------------

  /** The exclusion of the current entry: different origins, or, when a
      url does not parse, different url strings. */
  predicate OtherOrigin(cur: Env, e: Env, parse: Parser)
  {
    match (parse(cur.url), parse(e.url))
    case (Some(a), Some(b)) => a.origin != b.origin
    case _ => e.url != cur.url
  }

  /** Everything an entry must satisfy to be listed in the menu. */
  predicate IsCandidate(current: Option<Env>, e: Env, parse: Parser)
  {
    && e.url != ""
    && (current.Some? ==> OtherOrigin(current.value, e, parse))
    && (current.Some? && GroupTruthy(current.value.group) ==> e.group == current.value.group)
  }

  function HasUrl(e: Env): bool
  {
    e.url != ""
  }

  function OtherOriginThan(cur: Env, parse: Parser): Env -> bool
  {
    (e: Env) => OtherOrigin(cur, e, parse)
  }

  function InGroup(g: GroupField): Env -> bool
  {
    (e: Env) => e.group == g
  }

  function CandidateOf(current: Option<Env>, parse: Parser): Env -> bool
  {
    (e: Env) => IsCandidate(current, e, parse)
  }

  /** The three successive filters of `updateMenu`: entries with a url;
      then, with a current entry, those on another origin; then, when the
      current entry has a group, those in exactly that group. The three
      filters are one filter by `IsCandidate`. */
  function MenuCandidates(envs: seq<Env>, current: Option<Env>, parse: Parser): (r: seq<Env>)
    ensures r == Filter(envs, CandidateOf(current, parse))
  {
    var withUrl := Filter(envs, HasUrl);
    if current.Some? then
      var p2 := OtherOriginThan(current.value, parse);
      var others := Filter(withUrl, p2);
      FilterFilter(envs, HasUrl, p2);
      if GroupTruthy(current.value.group) then
        var p3 := InGroup(current.value.group);
        FilterFilter(withUrl, p2, p3);
        FilterFilter(envs, And(HasUrl, p2), p3);
        FilterCongruent(envs, And(And(HasUrl, p2), p3), CandidateOf(current, parse));
        Filter(others, p3)
      else
        FilterCongruent(envs, And(HasUrl, p2), CandidateOf(current, parse));
        others
    else
      FilterCongruent(envs, HasUrl, CandidateOf(current, parse));
      withUrl
  }

  /** The menu lists, in registry order, exactly the entries that have a
      url, are not on the current entry's origin (or, when a url does not
      parse, do not have the current entry's url), and share the current
      entry's group when it has one. */
  lemma MenuCandidatesContents(envs: seq<Env>, current: Option<Env>, parse: Parser, e: Env)
    ensures IsSublist(MenuCandidates(envs, current, parse), envs)
    ensures forall i :: 0 <= i < |MenuCandidates(envs, current, parse)| ==>
              IsCandidate(current, MenuCandidates(envs, current, parse)[i], parse)
    ensures e in MenuCandidates(envs, current, parse) <==> e in envs && IsCandidate(current, e, parse)
  {
    FilterSublist(envs, CandidateOf(current, parse));
    FilterMembership(envs, CandidateOf(current, parse), e);
  }

  // ---------------------------------------------------------------------
  // Dragging
  // ---------------------------------------------------------------------

  /** `Math.max(0, Math.min(v, hi))`. */
  function Clamp(v: int, hi: int): (r: int)
    ensures 0 <= r
    ensures hi >= 0 ==> r <= hi
    ensures 0 <= v <= hi ==> r == v
    ensures v < 0 || hi < 0 ==> r == 0
    ensures 0 <= hi < v ==> r == hi
  {
    if v < 0 || hi < 0 then 0
    else if v > hi then hi
    else v
  }

  /** A clamped position stays put when clamped again. */
  lemma ClampIdempotent(v: int, hi: int)
    ensures Clamp(Clamp(v, hi), hi) == Clamp(v, hi)
  {
  }

  /** The widget state the event handlers share. */
  datatype WidgetState = WidgetState(
    hasMenu: bool,
    menuVisible: bool,
    dragging: bool,
    initialX: int,
    initialY: int,
    left: int,
    top: int)

  /** The viewport and widget sizes a drag reads. */
  datatype Viewport = Viewport(innerWidth: int, innerHeight: int, widgetWidth: int, widgetHeight: int)

  /** `drag`: while dragging, the widget's top-left corner follows the
      pointer, kept inside the viewport; otherwise nothing changes. */
  function Drag(s: WidgetState, clientX: int, clientY: int, v: Viewport): (r: WidgetState)
    ensures !s.dragging ==> r == s
    ensures s.dragging && v.innerWidth >= v.widgetWidth ==> 0 <= r.left <= v.innerWidth - v.widgetWidth
    ensures s.dragging && v.innerHeight >= v.widgetHeight ==> 0 <= r.top <= v.innerHeight - v.widgetHeight
    ensures s.dragging && 0 <= clientX - s.initialX <= v.innerWidth - v.widgetWidth ==> r.left == clientX - s.initialX
    ensures s.dragging && 0 <= clientY - s.initialY <= v.innerHeight - v.widgetHeight ==> r.top == clientY - s.initialY
    ensures s.dragging && clientX - s.initialX < 0 ==> r.left == 0
    ensures s.dragging && clientY - s.initialY < 0 ==> r.top == 0
    ensures s.dragging && v.innerWidth < v.widgetWidth ==> r.left == 0
    ensures s.dragging && v.innerHeight < v.widgetHeight ==> r.top == 0
    ensures s.dragging && 0 <= v.innerWidth - v.widgetWidth < clientX - s.initialX ==>
              r.left == v.innerWidth - v.widgetWidth
    ensures s.dragging && 0 <= v.innerHeight - v.widgetHeight < clientY - s.initialY ==>
              r.top == v.innerHeight - v.widgetHeight
    ensures r.(left := s.left, top := s.top) == s
  {
    if !s.dragging then s
    else s.(left := Clamp(clientX - s.initialX, v.innerWidth - v.widgetWidth),
            top := Clamp(clientY - s.initialY, v.innerHeight - v.widgetHeight))
  }

  // ---------------------------------------------------------------------
  // Opening and closing the menu
  // ---------------------------------------------------------------------

  /** `toggleMenu(force)`: ignored without a menu or during a drag; `None`
      (the default `null`) flips visibility, `Some(b)` sets it. */
  function ToggleMenu(s: WidgetState, force: Option<bool>): (r: WidgetState)
    ensures !s.hasMenu || s.dragging ==> r == s
    ensures s.hasMenu && !s.dragging && force.None? ==> r.menuVisible == !s.menuVisible
    ensures s.hasMenu && !s.dragging && force.Some? ==> r.menuVisible == force.value
    ensures r.(menuVisible := s.menuVisible) == s
  {
    if !s.hasMenu || s.dragging then s
    else s.(menuVisible := if force.None? then !s.menuVisible else force.value)
  }

  /** `closeMenu`. */
  function CloseMenu(s: WidgetState): (r: WidgetState)
    ensures s.hasMenu && !s.dragging ==> !r.menuVisible
    ensures r.(menuVisible := s.menuVisible) == s
  {
    ToggleMenu(s, Some(false))
  }

  /** Toggling twice restores the state. */
  lemma ToggleTwice(s: WidgetState)
    ensures ToggleMenu(ToggleMenu(s, None), None) == s
  {
  }

  /** Closing is idempotent. */
  lemma CloseIdempotent(s: WidgetState)
    ensures CloseMenu(CloseMenu(s)) == CloseMenu(s)
  {
  }

  /** `startDragging` as written: the drag flag is raised before
      `closeMenu` runs, so `toggleMenu` returns early. */
  function StartDragging(s: WidgetState, clientX: int, clientY: int, rectLeft: int, rectTop: int)
    : (r: WidgetState)
    ensures r.dragging && r.initialX == clientX - rectLeft && r.initialY == clientY - rectTop
    ensures r.menuVisible == s.menuVisible
  {
    var s1 := s.(dragging := true, initialX := clientX - rectLeft, initialY := clientY - rectTop);
    CloseMenu(s1)
  }

  /** The menu stays open across the start of a drag, although the source
      calls `closeMenu` there to close it. */
  lemma StartDraggingLeavesMenuOpen()
    ensures var s := WidgetState(true, true, false, 0, 0, 40, 40);
            StartDragging(s, 50, 50, 40, 40).menuVisible
  {
  }

  /** `startDragging` with `closeMenu` moved before the drag flag is
      raised. Every click on the widget button begins with this
      `mousedown`, so this order closes the menu just before the click
      toggles it (`ReorderedClickNeverCloses`). */
  function StartDraggingReordered(s: WidgetState, clientX: int, clientY: int, rectLeft: int, rectTop: int)
    : (r: WidgetState)
    ensures r.dragging && r.initialX == clientX - rectLeft && r.initialY == clientY - rectTop
    ensures s.hasMenu && !s.dragging ==> !r.menuVisible
    ensures !s.hasMenu || s.dragging ==> r.menuVisible == s.menuVisible
  {
    var s1 := CloseMenu(s);
    s1.(dragging := true, initialX := clientX - rectLeft, initialY := clientY - rectTop)
  }

  /** `stopDragging`: lowers the drag flag; without a drag it returns at
      once. The position it saves is storage and is not modelled. */
  function StopDragging(s: WidgetState): (r: WidgetState)
    ensures !r.dragging
    ensures r.(dragging := s.dragging) == s
  {
    if !s.dragging then s else s.(dragging := false)
  }

  /** The button's `click` listener: `toggleMenu()` with no argument. */
  function ButtonClick(s: WidgetState): (r: WidgetState)
    ensures !s.dragging && s.hasMenu ==> r.menuVisible == !s.menuVisible
    ensures r.(menuVisible := s.menuVisible) == s
  {
    ToggleMenu(s, None)
  }

  /** A click on the button as the browser delivers it: `mousedown`
      (which starts a drag), `mouseup`, then `click`. */
  function PressAndClick(start: WidgetState -> WidgetState, s: WidgetState): WidgetState
  {
    ButtonClick(StopDragging(start(s)))
  }

  function StartAt(clientX: int, clientY: int, rectLeft: int, rectTop: int): WidgetState -> WidgetState
  {
    (s: WidgetState) => StartDragging(s, clientX, clientY, rectLeft, rectTop)
  }

  function StartReorderedAt(clientX: int, clientY: int, rectLeft: int, rectTop: int): WidgetState -> WidgetState
  {
    (s: WidgetState) => StartDraggingReordered(s, clientX, clientY, rectLeft, rectTop)
  }

  /** As written, a click on the button toggles the menu: the drag its
      `mousedown` starts ends before the `click` arrives. */
  lemma ClickToggles(s: WidgetState, clientX: int, clientY: int, rectLeft: int, rectTop: int)
    requires s.hasMenu && !s.dragging
    ensures PressAndClick(StartAt(clientX, clientY, rectLeft, rectTop), s).menuVisible == !s.menuVisible
  {
    var s1 := StartDragging(s, clientX, clientY, rectLeft, rectTop);
    assert s1.menuVisible == s.menuVisible && s1.hasMenu;
    assert !StopDragging(s1).dragging && StopDragging(s1).menuVisible == s.menuVisible;
  }

  /** With `closeMenu` merely moved first, every click on the button
      leaves the menu open: the button could no longer close it. */
  lemma ReorderedClickNeverCloses(s: WidgetState, clientX: int, clientY: int, rectLeft: int, rectTop: int)
    requires s.hasMenu && !s.dragging
    ensures PressAndClick(StartReorderedAt(clientX, clientY, rectLeft, rectTop), s).menuVisible
  {
    var s1 := StartDraggingReordered(s, clientX, clientY, rectLeft, rectTop);
    assert !s1.menuVisible && s1.hasMenu;
    assert !StopDragging(s1).dragging && !StopDragging(s1).menuVisible;
  }

  /** The corrected `drag`: the widget follows the pointer as before, and
      the menu, which `startDragging` meant to close, is closed once the
      pointer actually moves during a drag. A click without movement is
      left to the button, which still toggles (`ClickToggles`). */
  function DragFixed(s: WidgetState, clientX: int, clientY: int, v: Viewport): (r: WidgetState)
    ensures !s.dragging ==> r == s
    ensures s.dragging && s.hasMenu ==> !r.menuVisible
    ensures !s.hasMenu ==> r == Drag(s, clientX, clientY, v)
    ensures r.left == Drag(s, clientX, clientY, v).left && r.top == Drag(s, clientX, clientY, v).top
    ensures r.(menuVisible := s.menuVisible) == Drag(s, clientX, clientY, v)
  {
    var d := Drag(s, clientX, clientY, v);
    if s.dragging && s.hasMenu then d.(menuVisible := false) else d
  }

  /** With the correction, an open menu is closed by a drag that moves:
      `mousedown`, then one `mousemove`. */
  lemma DragClosesMenu(s: WidgetState, clientX: int, clientY: int, rectLeft: int, rectTop: int,
                       moveX: int, moveY: int, v: Viewport)
    requires s.hasMenu
    ensures !DragFixed(StartDragging(s, clientX, clientY, rectLeft, rectTop), moveX, moveY, v).menuVisible
  {
  }

  // ---------------------------------------------------------------------
  // Menu placement
  // ---------------------------------------------------------------------

  /** A CSS length the placement writes: `auto` or a pixel value. */
  datatype Css = Auto | Px(px: int)

  datatype MenuStyle = MenuStyle(top: Css, bottom: Css, left: Css, right: Css)

  /** What `updateMenuPosition` reads. */
  datatype Geometry = Geometry(
    widgetTop: int, widgetLeft: int, widgetHeight: int,
    menuHeight: int, menuWidth: int, viewportWidth: int)

  const Margin := 10

  /** `updateMenuPosition`, statement by statement: above and left-aligned
      by default, below when the menu would cross the top margin,
      right-aligned when it would cross the right margin, then the
      left-edge adjustment. */
  function MenuPosition(g: Geometry): (r: MenuStyle)
    ensures (r.top == Px(g.widgetHeight) && r.bottom == Auto) <==> g.widgetTop - g.menuHeight < Margin
    ensures (r.top == Auto && r.bottom == Px(g.widgetHeight)) <==> g.widgetTop - g.menuHeight >= Margin
    ensures (r.left == Auto && r.right == Px(0)) <==> g.widgetLeft + g.menuWidth > g.viewportWidth - Margin
    ensures (r.left == Px(0) && r.right == Auto) <==> g.widgetLeft + g.menuWidth <= g.viewportWidth - Margin
  {
    var s0 := MenuStyle(Auto, Px(g.widgetHeight), Px(0), Auto);
    var s1 := if g.widgetTop - g.menuHeight < Margin then s0.(top := Px(g.widgetHeight), bottom := Auto) else s0;
    var s2 := if g.widgetLeft + g.menuWidth > g.viewportWidth - Margin then s1.(left := Auto, right := Px(0)) else s1;
    if g.widgetLeft < Margin && s2.left != Auto then
      if g.widgetLeft + g.menuWidth > g.viewportWidth - Margin then s2.(left := Auto, right := Px(0))
      else s2.(left := Px(0), right := Auto)
    else s2
  }

  /** The placement without the left-edge block. */
  function MenuPositionWithoutLeftBlock(g: Geometry): (r: MenuStyle)
    ensures r.left == Auto <==> r.right == Px(0)
  {
    var s0 := MenuStyle(Auto, Px(g.widgetHeight), Px(0), Auto);
    var s1 := if g.widgetTop - g.menuHeight < Margin then s0.(top := Px(g.widgetHeight), bottom := Auto) else s0;
    if g.widgetLeft + g.menuWidth > g.viewportWidth - Margin then s1.(left := Auto, right := Px(0)) else s1
  }

  /** The left-edge block never changes the outcome. */
  lemma LeftEdgeBlockIsNoOp(g: Geometry)
    ensures MenuPosition(g) == MenuPositionWithoutLeftBlock(g)
  {
  }
}
