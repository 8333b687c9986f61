/**
 * The site navbar (src/components/Navbar.tsx): the desktop `NavLink` click
 * dispatch, the links' `resolvedHref`, and the navbar's state —
 * `scrolled`, `mobileOpen` and `activeSection` — with the handlers and
 * effects that update it. Scroll positions and intersection ratios are the
 * browser's numbers, given here as `real`s.
 */
module Navbar {
  import opened Wrappers
  import opened JsString
  import opened Navigation
  import MobileMenu

  /** `NAV_LINKS`: (href, label). */
  const NavLinks: seq<(string, string)> := [
    ("#pocetak", "Početak"),
    ("#akvaponija", "Akvaponija"),
    ("#uzgoj-biljaka-i-riba", "Uzgoj biljaka i riba"),
    ("#proizvodi", "Proizvodi"),
    ("#portfolio", "Portfolio"),
    ("#blog", "Blog"),
    ("#o-nama", "O nama"),
    ("#kontakt", "Kontakt")
  ]

  const InitialSection := "#pocetak"
  const BlogSection := "#blog"

  /** `NavLink.handleClick` on the href the link was given, with the router's pathname. */
  function NavLinkClick(href: string, pathname: string): Click {
    if href == "" then Click(false, [])
    else if StartsWith(href, "#") then Click(true, [ScrollTo(href), Select])
    else
      var path := PathOf(href);
      var hash := HashOf(href);
      if hash != "" then
        Click(true, if path == pathname || path == "" then [ScrollTo("#" + hash), Select]
                    else [Select, Push(path + "#" + hash)])
      else
        Click(true, (if path != pathname then [Push(path)] else []) + [Select])
  }

  /** An empty href does nothing: no scroll, no push, no `onSelect`, and the browser keeps the click. */
  lemma EmptyHrefInert(pathname: string)
    ensures NavLinkClick("", pathname) == Click(false, [])
  {
  }

  /** Every non-empty href calls `onSelect` exactly once and scrolls or pushes at most once. */
  lemma SelectsOnce(href: string, pathname: string)
    requires href != ""
    ensures var c := NavLinkClick(href, pathname);
      && c.prevented
      && Count(c.effects, Select) == 1
      && |Navigations(c.effects)| <= 1
      && |c.effects| == |Navigations(c.effects)| + 1
  {
    var c := NavLinkClick(href, pathname);
    assert c.prevented && SelectShape(c.effects);
    SelectShapeFacts(c.effects);
  }

  /** A lone select, or one select and one scroll or push in either order. */
  predicate SelectShape(effects: seq<Effect>) {
    || effects == [Select]
    || (|effects| == 2 && effects[0] == Select && IsNavigation(effects[1]))
    || (|effects| == 2 && IsNavigation(effects[0]) && effects[1] == Select)
  }

  lemma SelectShapeFacts(effects: seq<Effect>)
    requires SelectShape(effects)
    ensures Count(effects, Select) == 1
    ensures |Navigations(effects)| <= 1
    ensures |effects| == |Navigations(effects)| + 1
  {
    if |effects| == 2 {
      assert effects == [effects[0], effects[1]];
      assert effects[1..] == [effects[1]];
      assert Navigations(effects[1..][1..]) == [];
    } else {
      assert effects[1..] == [];
    }
  }

  /** "#x" scrolls to "#x" and selects, with no navigation. */
  lemma SectionLink(href: string, pathname: string)
    requires StartsWith(href, "#")
    ensures NavLinkClick(href, pathname).effects == [ScrollTo(href), Select]
  {
  }

  /** "path#hash" scrolls to "#hash" on the same page, and otherwise selects and then pushes "path#hash". */
  lemma PathWithHash(path: string, hash: string, pathname: string)
    requires path != "" && hash != "" && '#' !in path && '#' !in hash
    ensures NavLinkClick(path + "#" + hash, pathname).effects ==
              if path == pathname then [ScrollTo("#" + hash), Select] else [Select, Push(path + "#" + hash)]
  {
    PathHashOfJoined(path, hash);
    assert (path + "#" + hash)[0] == path[0];
  }

  /** A plain path (or one with an empty hash) is pushed only when it differs from the pathname. */
  lemma PlainPath(path: string, pathname: string)
    requires path != "" && '#' !in path
    ensures NavLinkClick(path, pathname).effects ==
              if path != pathname then [Push(path), Select] else [Select]
    ensures NavLinkClick(path + "#", pathname).effects == NavLinkClick(path, pathname).effects
  {
    SplitWithoutSeparator(path, '#');
    assert path[0] in path;
    PathHashOfJoined(path, "");
    assert (path + "#")[0] == path[0];
    assert path + "#" + "" == path + "#";
  }

  /** A section anchor "#x" whose name is non-empty and holds no further "#". */
  predicate SectionAnchor(href: string) {
    |href| >= 2 && href[0] == '#' && '#' !in href[1..]
  }

  lemma NavLinksAreSectionAnchors()
    ensures forall k :: 0 <= k < |NavLinks| ==> SectionAnchor(NavLinks[k].0)
  {
    FirstSectionAnchors();
    LongSectionAnchor();
    LastSectionAnchors();
  }

  /** No two entries of `NAV_LINKS` share an href. */
  lemma NavLinkHrefsDistinct()
    ensures forall j, k :: 0 <= j < k < |NavLinks| ==> NavLinks[j].0 != NavLinks[k].0
  {
    assert "#pocetak"[1] != "#kontakt"[1];
    assert "#proizvodi"[2] != "#portfolio"[2];
  }

  /** Since the hrefs are distinct, at most one link of `NAV_LINKS` is marked active at a time. */
  lemma AtMostOneActive(nav: Nav)
    ensures forall j, k ::
              0 <= j < |NavLinks| && 0 <= k < |NavLinks| && nav.IsActive(NavLinks[j].0) && nav.IsActive(NavLinks[k].0)
              ==> j == k
  {
    NavLinkHrefsDistinct();
  }

  lemma FirstSectionAnchors()
    ensures SectionAnchor("#pocetak") && SectionAnchor("#akvaponija") && SectionAnchor("#proizvodi")
  {
  }

  lemma LongSectionAnchor()
    ensures SectionAnchor("#uzgoj-biljaka-i-riba")
  {
  }

  lemma LastSectionAnchors()
    ensures SectionAnchor("#portfolio") && SectionAnchor("#blog")
    ensures SectionAnchor("#o-nama") && SectionAnchor("#kontakt")
  {
  }

  /**
   * The desktop link is handed `resolvedHref` and the mobile menu the raw
   * href, yet for a section anchor or an href not starting with "#" both
   * scroll or navigate to the same place.
   */
  lemma {:induction false} DesktopAndMobileAgree(href: string, pathname: string)
    requires SectionAnchor(href) || !StartsWith(href, "#")
    ensures Navigations(NavLinkClick(ResolvedHref(href, pathname == "/"), pathname).effects)
            == Navigations(MobileMenu.MenuClick(href, pathname).effects)
  {
    if StartsWith(href, "#") {
      MobileMenu.SectionLink(href, pathname);
      if pathname == "/" {
        SectionLink(href, pathname);
        NavigationAmongMarkers(ScrollTo(href));
      } else {
        OffHomeSectionPushes(href, pathname);
        NavigationAmongMarkers(Push("/" + href));
      }
    } else {
      AgreeOnPlainHref(href, pathname);
    }
  }

  /** `Select` and `Close` are not navigations, so only `nav` survives beside them. */
  lemma NavigationAmongMarkers(nav: Effect)
    requires IsNavigation(nav)
    ensures Navigations([nav, Select]) == [nav]
    ensures Navigations([Select, nav]) == [nav]
    ensures Navigations([nav, Close]) == [nav]
  {
    assert [nav, Select][1..] == [Select];
    assert [Select, nav][1..] == [nav];
    assert [nav, Close][1..] == [Close];
    assert Navigations([Select]) == [] && Navigations([Close]) == [];
    assert Navigations([nav]) == [nav] + Navigations([]);
  }

  lemma AgreeOnPlainHref(href: string, pathname: string)
    requires !StartsWith(href, "#")
    ensures Navigations(NavLinkClick(href, pathname).effects)
            == Navigations(MobileMenu.MenuClick(href, pathname).effects)
  {
  }

  /** Off the home page the desktop link for "#x" is given "/#x" and pushes exactly that. */
  lemma {:induction false} OffHomeSectionPushes(href: string, pathname: string)
    requires SectionAnchor(href) && pathname != "/"
    ensures NavLinkClick(ResolvedHref(href, false), pathname).effects == [Select, Push("/" + href)]
  {
    var name := href[1..];
    assert href == "#" + name;
    assert ResolvedHref(href, false) == "/" + "#" + name;
    PathHashOfJoined("/", name);
    assert ("/" + "#" + name)[0] == '/';
  }

  /** One `IntersectionObserver` entry: the section's id, whether it intersects, its ratio. */
  datatype Entry = Entry(id: string, isIntersecting: bool, ratio: real)

  /**
   * The entry `visible[0]` picks after filtering to intersecting entries and
   * sorting them by decreasing ratio with JavaScript's stable sort: the
   * first intersecting entry of greatest ratio.
   */
  function MostVisible(entries: seq<Entry>): (r: Option<nat>)
    ensures r.None? <==> forall i :: 0 <= i < |entries| ==> !entries[i].isIntersecting
    ensures r.Some? ==> r.value < |entries| && entries[r.value].isIntersecting
    ensures r.Some? ==> forall j :: 0 <= j < |entries| && entries[j].isIntersecting ==> entries[j].ratio <= entries[r.value].ratio
    ensures r.Some? ==> forall j :: 0 <= j < r.value && entries[j].isIntersecting ==> entries[j].ratio < entries[r.value].ratio
  {
    if entries == [] then None
    else
      var n := |entries| - 1;
      var init := entries[..n];
      var best := MostVisible(init);
      assert forall j :: 0 <= j < n ==> init[j] == entries[j];
      if entries[n].isIntersecting && (best.None? || entries[n].ratio > entries[best.value].ratio) then Some(n)
      else best
  }

  /** The entry is determined by those properties: no other index has them all. */
  lemma MostVisibleUnique(entries: seq<Entry>, i: nat)
    requires i < |entries| && entries[i].isIntersecting
    requires forall j :: 0 <= j < |entries| && entries[j].isIntersecting ==> entries[j].ratio <= entries[i].ratio
    requires forall j :: 0 <= j < i && entries[j].isIntersecting ==> entries[j].ratio < entries[i].ratio
    ensures MostVisible(entries) == Some(i)
  {
    var r := MostVisible(entries);
    // Both are the greatest ratio, so neither can come strictly first.
    assert r.Some? && entries[r.value].ratio == entries[i].ratio;
  }

  /** The pathname effect: on a page under "/blog" or "/studies" the blog link is active. */
  predicate ForcesBlogSection(pathname: string) {
    pathname != "/" && (StartsWith(pathname, "/blog") || StartsWith(pathname, "/studies"))
  }

  /** The `!isHome` guard adds nothing: "/" starts with neither prefix. */
  lemma ForcesBlogSectionIff(pathname: string)
    ensures ForcesBlogSection(pathname) <==> StartsWith(pathname, "/blog") || StartsWith(pathname, "/studies")
  {
  }

  class Nav {
    var scrolled: bool
    var mobileOpen: bool
    var activeSection: string
    /** `usePathname()`. */
    var pathname: string

    /** The state before any effect has run. */
    constructor (pathname: string)
      ensures !scrolled && !mobileOpen && activeSection == InitialSection && this.pathname == pathname
    {
      scrolled := false;
      mobileOpen := false;
      activeSection := InitialSection;
      this.pathname := pathname;
    }

    predicate IsHome()
      reads this
    {
      pathname == "/"
    }

    /** A link is marked active exactly when `activeSection` is its raw href. */
    predicate IsActive(linkHref: string)
      reads this
    {
      activeSection == linkHref
    }

    /** The logo's href: "#pocetak" at home, "/#pocetak" elsewhere. */
    function LogoHref(): (r: string)
      reads this
      ensures r == ResolvedHref(InitialSection, IsHome())
    {
      if IsHome() then "#pocetak" else "/#pocetak"
    }

    /** The consultation button's href: "#kontakt" at home, "/#kontakt" elsewhere. */
    function ConsultationHref(): (r: string)
      reads this
      ensures r == ResolvedHref("#kontakt", IsHome())
    {
      if IsHome() then "#kontakt" else "/#kontakt"
    }

    /** `handleScroll`, run on mount and on every scroll event. */
    method OnScroll(scrollY: real)
      modifies this
      ensures scrolled <==> scrollY > 12.0
      ensures mobileOpen == old(mobileOpen) && activeSection == old(activeSection) && pathname == old(pathname)
    {
      scrolled := scrollY > 12.0;
    }

    /** The observer callback: the most visible intersecting section becomes active; none leaves it unchanged. */
    method OnIntersect(entries: seq<Entry>)
      modifies this
      ensures activeSection == match MostVisible(entries)
                                case Some(i) => "#" + entries[i].id
                                case None => old(activeSection)
      ensures scrolled == old(scrolled) && mobileOpen == old(mobileOpen) && pathname == old(pathname)
    {
      var best := MostVisible(entries);
      if best.Some? {
        activeSection := "#" + entries[best.value].id;
      }
    }

    /** A new pathname, and the effect that depends on it. */
    method OnPathname(p: string)
      modifies this
      ensures pathname == p
      ensures activeSection == if ForcesBlogSection(p) then BlogSection else old(activeSection)
      ensures scrolled == old(scrolled) && mobileOpen == old(mobileOpen)
    {
      pathname := p;
      if ForcesBlogSection(p) {
        activeSection := BlogSection;
      }
    }

    /** A click on the desktop link for `linkHref`, rendered with its `resolvedHref`; `onSelect` makes the raw href the active section. */
    method ClickLink(linkHref: string) returns (click: Click)
      modifies this
      ensures click == NavLinkClick(ResolvedHref(linkHref, old(pathname) == "/"), old(pathname))
      ensures activeSection == if Select in click.effects then linkHref else old(activeSection)
      ensures scrolled == old(scrolled) && mobileOpen == old(mobileOpen) && pathname == old(pathname)
    {
      click := NavLinkClick(ResolvedHref(linkHref, IsHome()), pathname);
      if Select in click.effects {
        activeSection := linkHref;
      }
    }

    /** `setMobileOpen`: the menu button opens it, the menu's `onToggle` sets it. */
    method SetMobileOpen(state: bool)
      modifies this
      ensures mobileOpen == state
      ensures scrolled == old(scrolled) && activeSection == old(activeSection) && pathname == old(pathname)
    {
      mobileOpen := state;
    }

    /** A click on the mobile menu's link for `linkHref`, which closes the menu through `onToggle(false)`. */
    method ClickMobileLink(linkHref: string) returns (click: Click)
      modifies this
      ensures click == MobileMenu.MenuClick(linkHref, old(pathname))
      ensures mobileOpen == if Close in click.effects then false else old(mobileOpen)
      ensures mobileOpen == (old(mobileOpen) && linkHref == "")
      ensures scrolled == old(scrolled) && activeSection == old(activeSection) && pathname == old(pathname)
    {
      // The navbar passes its own pathname as `currentPathname`.
      click := MobileMenu.MenuClick(linkHref, MobileMenu.EffectivePathname(Some(pathname), pathname));
      if linkHref != "" {
        MobileMenu.ClosesOnceLast(linkHref, pathname);
      }
      if Close in click.effects {
        mobileOpen := false;
      }
    }
  }
}
