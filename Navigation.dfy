/**
 * The navigation behaviour of script.js: the mobile menu's open flag, the
 * language buttons' single selection, the page-based active link and the
 * scroll-based active section link.  Per-element `active` classes are
 * boolean flags, one per element, in an array indexed like the elements.
 */
module Navigation {
  import opened Options

  // ---------------------------------------------------------------------
  // Mobile menu (script.js:8-47)
  // ---------------------------------------------------------------------

  /** Where a click lands, as far as the three click listeners can tell. */
  datatype ClickTarget =
    | ToggleButton   // the hamburger button (inside mobileMenuToggle)
    | MenuLink       // a `.nav-link` inside the menu
    | MenuInterior   // any other point inside navMenu
    | Elsewhere      // outside both navMenu and the toggle button

  /** The `active` classes of navMenu and of the toggle button, and the drawn icon. */
  class MobileMenu {
    var menuActive: bool
    var toggleActive: bool
    /** The three hamburger bars are styled as a cross (the "open" icon). */
    var iconCrossed: bool

    /** The two classes and the icon always agree. */
    ghost predicate Valid()
      reads this
    {
      menuActive == toggleActive && toggleActive == iconCrossed
    }

    /** The page loads with the menu closed and the plain hamburger icon. */
    constructor ()
      ensures Valid() && !menuActive
    {
      menuActive, toggleActive, iconCrossed := false, false, false;
    }

    /** Click on the toggle: flip both classes, then draw the icon for the menu's state. */
    method Toggle()
      modifies this
      ensures menuActive == !old(menuActive) && toggleActive == !old(toggleActive)
      ensures iconCrossed == menuActive
      ensures old(Valid()) ==> Valid()
    {
      menuActive := !menuActive;
      toggleActive := !toggleActive;
      iconCrossed := menuActive;
    }

    /** Click on a link, or a document click outside: remove both classes, plain icon. */
    method Close()
      modifies this
      ensures Valid() && !menuActive
    {
      menuActive, toggleActive, iconCrossed := false, false, false;
    }

    /**
     * One click, as the element listener and then the bubbling document
     * listener see it.  The document listener closes the menu only when the
     * target is outside both navMenu and the toggle button.
     */
    method Click(target: ClickTarget)
      requires Valid()
      modifies this
      ensures Valid()
      ensures menuActive == match target
        case ToggleButton => !old(menuActive)
        case MenuLink => false
        case MenuInterior => old(menuActive)
        case Elsewhere => false
    {
      match target {
        case ToggleButton => Toggle();
        case MenuLink => Close();
        case MenuInterior =>
        case Elsewhere => Close();
      }
    }
  }

  // ---------------------------------------------------------------------
  // Language buttons (script.js:95-101)
  // ---------------------------------------------------------------------

  /** A click on button `clicked`: clear every `active` class, then set the clicked one. */
  method SelectLanguage(active: array<bool>, clicked: nat)
    requires clicked < active.Length
    modifies active
    ensures forall i :: 0 <= i < active.Length ==> active[i] == (i == clicked)
  {
    for i := 0 to active.Length
      invariant forall k :: 0 <= k < i ==> !active[k]
    {
      active[i] := false;
    }
    active[clicked] := true;
  }

  // ---------------------------------------------------------------------
  // Current-page link (script.js:235-251)
  // ---------------------------------------------------------------------

  /** `path.split('/').pop()`: the text after the last `/`, or all of it. */
  function LastSegment(path: string): (seg: string)
    ensures '/' !in seg && |seg| <= |path|
  {
    if |path| == 0 then ""
    else if path[|path| - 1] == '/' then ""
    else LastSegment(path[..|path| - 1]) + [path[|path| - 1]]
  }

  /** The last segment is the suffix after the last `/` of the path (or the whole path). */
  lemma {:induction false} LastSegmentIsSuffix(path: string)
    ensures LastSegment(path) == path[|path| - |LastSegment(path)|..]
    ensures |LastSegment(path)| < |path| ==> path[|path| - |LastSegment(path)| - 1] == '/'
    decreases |path|
  {
    if |path| > 0 && path[|path| - 1] != '/' {
      var init := path[..|path| - 1];
      LastSegmentIsSuffix(init);
      var seg := LastSegment(init);
      assert init[|init| - |seg|..] + [path[|path| - 1]] == path[|path| - |seg| - 1..];
      if |seg| < |init| {
        assert init[|init| - |seg| - 1] == path[|path| - |seg| - 2];
      }
    }
  }

  /** `LastSegment(…) || 'index.html'`: an empty last segment names the home page. */
  function PageName(path: string): (p: string)
    ensures p != "" && '/' !in p
  {
    var seg := LastSegment(path);
    if seg == "" then "index.html" else seg
  }

  /** The highlighting condition as written, with its three alternatives. */
  predicate LinkIsActive(href: string, path: string)
  {
    var linkPage := PageName(href);
    var currentPageName := var c := PageName(path); if c == "" then "index.html" else c;
    linkPage == currentPageName
      || (currentPageName == "" && linkPage == "index.html")
      || (currentPageName == "index.html" && linkPage == "index.html")
  }

  /** The last two alternatives add nothing: a link is active iff it names the current page. */
  lemma LinkActiveIffSamePage(href: string, path: string)
    ensures LinkIsActive(href, path) <==> PageName(href) == PageName(path)
  {
  }

  /** A file name under any directory is its own last segment. */
  lemma {:induction false} LastSegmentOfPath(dir: string, name: string)
    requires '/' !in name
    ensures LastSegment(dir + "/" + name) == name
    decreases |name|
  {
    if name != [] {
      var init := name[..|name| - 1];
      assert (dir + "/" + name)[..|dir + "/" + name| - 1] == dir + "/" + init;
      LastSegmentOfPath(dir, init);
      assert init + [name[|name| - 1]] == name;
    } else {
      assert (dir + "/" + name)[|dir + "/" + name| - 1] == '/';
    }
  }

  /** The `navLinksArray.forEach` pass that sets or clears each link's class. */
  method HighlightCurrentPage(links: seq<string>, path: string, active: array<bool>)
    requires active.Length == |links|
    modifies active
    ensures forall i :: 0 <= i < |links| ==> active[i] == (PageName(links[i]) == PageName(path))
  {
    for i := 0 to |links|
      invariant forall k :: 0 <= k < i ==> active[k] == (PageName(links[k]) == PageName(path))
    {
      LinkActiveIffSamePage(links[i], path);
      active[i] := LinkIsActive(links[i], path);
    }
  }

  // ---------------------------------------------------------------------
  // Scroll-based section link (script.js:254-279)
  // ---------------------------------------------------------------------

  /** A `.section[id]` element: its id and its top offset, in whole pixels. */
  datatype Section = Section(id: string, top: int)

  /** The scroll offset has reached the section, 100 pixels early. */
  predicate Reached(s: Section, offset: int)
  {
    offset >= s.top - 100
  }

  /** The position of the last section, in document order, that has been reached. */
  function LastReached(sections: seq<Section>, offset: int): (r: Option<nat>)
    ensures r.Some? ==> r.value < |sections| && Reached(sections[r.value], offset)
    ensures r.Some? ==> forall j :: r.value < j < |sections| ==> !Reached(sections[j], offset)
    ensures r.None? ==> forall j :: 0 <= j < |sections| ==> !Reached(sections[j], offset)
  {
    if |sections| == 0 then None
    else if Reached(sections[|sections| - 1], offset) then Some(|sections| - 1)
    else LastReached(sections[..|sections| - 1], offset)
  }

  /** The id the scroll handler settles on, `""` when no section has been reached. */
  function SelectedId(sections: seq<Section>, offset: int): string
  {
    match LastReached(sections, offset)
    case Some(k) => sections[k].id
    case None => ""
  }

  /** The loop over the sections that keeps overwriting `current`. */
  method CurrentSection(sections: seq<Section>, offset: int) returns (current: string)
    ensures current == SelectedId(sections, offset)
  {
    current := "";
    for i := 0 to |sections|
      invariant current == SelectedId(sections[..i], offset)
    {
      assert sections[..i + 1][..i] == sections[..i];
      if offset >= sections[i].top - 100 {
        current := sections[i].id;
      }
    }
    assert sections[..|sections|] == sections;
  }

  /** `href.startsWith('#')`. */
  predicate IsAnchor(href: string)
  {
    |href| > 0 && href[0] == '#'
  }

  /**
   * With a non-empty `current`, every `#` link loses its class and the one
   * naming `#current` gets it back; other links are left alone.  An empty
   * `current` changes nothing.
   */
  method HighlightSection(links: seq<string>, current: string, active: array<bool>)
    requires active.Length == |links|
    modifies active
    ensures current == "" ==> forall i :: 0 <= i < |links| ==> active[i] == old(active[i])
    ensures current != "" ==> forall i :: 0 <= i < |links| ==>
      active[i] == (if IsAnchor(links[i]) then links[i] == "#" + current else old(active[i]))
  {
    if current != "" {
      for i := 0 to |links|
        invariant forall k :: 0 <= k < i ==>
          active[k] == (if IsAnchor(links[k]) then links[k] == "#" + current else old(active[k]))
        invariant forall k :: i <= k < |links| ==> active[k] == old(active[k])
      {
        var href := links[i];
        if |href| > 0 && href[0] == '#' {
          active[i] := false;
          if href == "#" + current {
            active[i] := true;
          }
        }
      }
    }
  }

  /** The whole scroll listener. */
  method OnScroll(sections: seq<Section>, links: seq<string>, offset: int, active: array<bool>)
    requires active.Length == |links|
    modifies active
    ensures SelectedId(sections, offset) == "" ==> forall i :: 0 <= i < |links| ==> active[i] == old(active[i])
    ensures var current := SelectedId(sections, offset);
      current != "" ==> forall i :: 0 <= i < |links| ==>
        active[i] == (if IsAnchor(links[i]) then links[i] == "#" + current else old(active[i]))
  {
    var current := CurrentSection(sections, offset);
    HighlightSection(links, current, active);
  }

  /** Sections are tracked in document order: a reached later section wins over earlier ones. */
  lemma LaterReachedSectionWins(sections: seq<Section>, offset: int, j: nat)
    requires j < |sections| && Reached(sections[j], offset)
    ensures LastReached(sections, offset).Some? && j <= LastReached(sections, offset).value
  {
  }
}
