/** The navigation sidebar of components/layout/Sidebar.tsx: five fixed
    entries, the rule that decides which of them is highlighted for the
    current route, the mobile overlay and the close-on-click rule. */
module Sidebar {
  import opened Text

  datatype NavItem = NavItem(name: string, href: string)

  /** The navigation entries, in the order they are listed. */
  const Navigation: seq<NavItem> := [
    NavItem("Dashboard", "/"),
    NavItem("Knowledge Base", "/knowledge-base"),
    NavItem("Tool Park", "/video-training"),
    NavItem("Company Structure", "/company-hierarchy"),
    NavItem("User Management", "/user-management")
  ]

  /** `isActive`: the root entry is active only on the root route; any other
      entry is active on every route that starts with its href. */
  predicate IsActive(pathname: string, href: string)
  {
    if href == "/" then pathname == "/" else StartsWith(pathname, href)
  }

  /** The root entry is active exactly on `"/"`. */
  lemma RootActiveOnlyAtRoot(pathname: string)
    ensures IsActive(pathname, "/") <==> pathname == "/"
  {
  }

  /** A non-root entry is active on its own route, on every route below it,
      and on any longer route that merely shares its spelling, such as
      `/knowledge-base-archive`. */
  lemma ActiveBelowAndBeside(href: string, rest: string)
    requires href != "/"
    ensures IsActive(href + rest, href)
  {
    assert (href + rest)[..|href|] == href;
  }

  /** A non-root entry is not active on a route shorter than its href, in
      particular not on `"/"`. */
  lemma NotActiveOnShorterRoute(pathname: string, href: string)
    requires href != "/" && |pathname| < |href|
    ensures !IsActive(pathname, href)
  {
  }

  /** The hrefs of the five entries are pairwise distinct, and no non-root
      href begins with another. */
  lemma HrefsApart(i: nat, j: nat)
    requires i < |Navigation| && j < |Navigation| && i != j
    ensures Navigation[i].href != Navigation[j].href
    ensures i != 0 && j != 0 ==> !StartsWith(Navigation[j].href, Navigation[i].href)
  {
    var a, b := Navigation[i].href, Navigation[j].href;
    assert Navigation[1].href[1] == 'k';
    assert Navigation[2].href[1] == 'v';
    assert Navigation[3].href[1] == 'c';
    assert Navigation[4].href[1] == 'u';
    if i != 0 && j != 0 && |a| <= |b| {
      assert b[..|a|][1] == b[1];
    }
  }

  /** Every route highlights at most one entry. */
  lemma AtMostOneActive(pathname: string, i: nat, j: nat)
    requires i < |Navigation| && j < |Navigation|
    requires IsActive(pathname, Navigation[i].href) && IsActive(pathname, Navigation[j].href)
    ensures i == j
  {
    if i != j {
      HrefsApart(i, j);
      HrefsApart(j, i);
      var a, b := Navigation[i].href, Navigation[j].href;
      if i != 0 && j != 0 && |a| <= |b| {
        PrefixesNest(pathname, a, b);
      } else if i != 0 && j != 0 {
        PrefixesNest(pathname, b, a);
      }
    }
  }

  /** On each entry's own route, that entry and no other is highlighted. */
  lemma OwnRouteHighlightsOnlyItself(i: nat, j: nat)
    requires i < |Navigation| && j < |Navigation|
    ensures IsActive(Navigation[i].href, Navigation[j].href) <==> i == j
  {
    var h := Navigation[i].href;
    if h == "/" {
      assert IsActive(h, Navigation[0].href);
    } else {
      assert h[..|h|] == h;
    }
    assert IsActive(h, Navigation[i].href);
    if IsActive(h, Navigation[j].href) {
      AtMostOneActive(h, i, j);
    }
  }

  /** What the sidebar draws for a route: whether the mobile overlay is
      present, and which entries are highlighted. */
  datatype View = View(overlay: bool, highlighted: seq<bool>)

  function Render(pathname: string, isOpen: bool): (v: View)
    ensures v.overlay <==> isOpen
    ensures |v.highlighted| == |Navigation|
    ensures forall i :: 0 <= i < |Navigation| ==> (v.highlighted[i] <==> IsActive(pathname, Navigation[i].href))
  {
    View(isOpen, seq(|Navigation|, i requires 0 <= i < |Navigation| => IsActive(pathname, Navigation[i].href)))
  }

  /** The window width from which on the desktop layout applies. */
  const DesktopWidth := 1024

  /** A click on the sidebar: on entry `item` in a window `innerWidth`
      pixels wide, or on the mobile overlay. */
  datatype Click = EntryClick(item: nat, innerWidth: int) | OverlayClick

  /** Whether a click calls `onClose`: the overlay always does, an entry
      only in a window narrower than the desktop layout. */
  predicate CallsOnClose(c: Click)
  {
    match c
    case OverlayClick => true
    case EntryClick(_, innerWidth) => innerWidth < DesktopWidth
  }

  /** The route and the `isOpen` flag the sidebar is drawn with. */
  datatype Screen = Screen(pathname: string, isOpen: bool)

  /** The screen after a click. An entry's link navigates to its href; the
      sidebar closes exactly when the click calls `onClose`, the parent
      being taken to close the sidebar when asked. */
  function AfterClick(s: Screen, c: Click): Screen
    requires c.EntryClick? ==> c.item < |Navigation|
  {
    var pathname := if c.EntryClick? then Navigation[c.item].href else s.pathname;
    Screen(pathname, s.isOpen && !CallsOnClose(c))
  }

  /** After a click on entry `i`, exactly that entry is highlighted; the
      overlay is gone in a narrow window and stays as it was in a wide
      one. */
  lemma EntryClickShowsEntry(s: Screen, i: nat, innerWidth: int)
    requires i < |Navigation|
    ensures var t := AfterClick(s, EntryClick(i, innerWidth));
      var v := Render(t.pathname, t.isOpen);
      && (forall j :: 0 <= j < |Navigation| ==> (v.highlighted[j] <==> j == i))
      && (innerWidth < DesktopWidth ==> !v.overlay)
      && (innerWidth >= DesktopWidth ==> (v.overlay <==> s.isOpen))
  {
    forall j | 0 <= j < |Navigation|
      ensures IsActive(Navigation[i].href, Navigation[j].href) <==> j == i
    {
      OwnRouteHighlightsOnlyItself(i, j);
    }
  }

  /** A click on the overlay removes it and leaves the route, and so the
      highlighted entry, as it was. */
  lemma OverlayClickCloses(s: Screen)
    ensures var t := AfterClick(s, OverlayClick);
      && !Render(t.pathname, t.isOpen).overlay
      && Render(t.pathname, t.isOpen).highlighted == Render(s.pathname, s.isOpen).highlighted
  {
  }

  /** A drawn sidebar never highlights two entries. */
  lemma RenderHighlightsAtMostOne(pathname: string, isOpen: bool, i: nat, j: nat)
    requires i < |Navigation| && j < |Navigation|
    requires Render(pathname, isOpen).highlighted[i] && Render(pathname, isOpen).highlighted[j]
    ensures i == j
  {
    AtMostOneActive(pathname, i, j);
  }
}
