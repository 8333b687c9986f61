/**
 * The mobile menu (src/components/MobileMenu.tsx). It holds no state of its
 * own: whether it is open belongs to the navbar, which it tells through
 * `onToggle`. What is modelled is the pathname it works with and the effects
 * of a link click.
 */
module MobileMenu {
  import opened Wrappers
  import opened JsString
  import opened Navigation

  /** `currentPathname ?? usePathname()`: the pathname the navbar passes in, else the router's. */
  function EffectivePathname(currentPathname: Option<string>, routerPathname: string): string {
    currentPathname.GetOr(routerPathname)
  }

  predicate IsHome(currentPathname: Option<string>, routerPathname: string) {
    EffectivePathname(currentPathname, routerPathname) == "/"
  }

  /** The menu is on the home page when the given pathname is "/", or none is given and the router's is. */
  lemma IsHomeIff(currentPathname: Option<string>, routerPathname: string)
    ensures IsHome(currentPathname, routerPathname) <==>
              (currentPathname.Some? && currentPathname.value == "/")
              || (currentPathname.None? && routerPathname == "/")
  {
  }

  /**
   * `handleClick(href)` on the effective pathname. It receives the raw
   * `link.href`, not the `resolvedHref` the link renders, and it closes the
   * menu after any scroll or push.
   */
  function MenuClick(href: string, pathname: string): Click {
    if href == "" then Click(false, [])
    else if StartsWith(href, "#") then
      Click(true, (if pathname == "/" then [ScrollTo(href)] else [Push("/" + href)]) + [Close])
    else
      var path := PathOf(href);
      var hash := HashOf(href);
      if hash != "" then
        Click(true, (if path == pathname || path == "" then [ScrollTo("#" + hash)] else [Push(path + "#" + hash)]) + [Close])
      else
        Click(true, (if path != pathname then [Push(path)] else []) + [Close])
  }

  /** An empty href does nothing: no effect, no `preventDefault`, the menu stays open. */
  lemma EmptyHrefStaysOpen(pathname: string)
    ensures MenuClick("", pathname) == Click(false, [])
    ensures Close !in MenuClick("", pathname).effects
  {
  }

  /** A non-empty href closes the menu exactly once, as the last effect, after at most one scroll or push. */
  lemma ClosesOnceLast(href: string, pathname: string)
    requires href != ""
    ensures var c := MenuClick(href, pathname);
      && c.prevented
      && 1 <= |c.effects| <= 2
      && c.effects[|c.effects| - 1] == Close
      && Count(c.effects, Close) == 1
      && forall k :: 0 <= k < |c.effects| - 1 ==> IsNavigation(c.effects[k])
  {
  }

  /** "#x" scrolls on the home page and otherwise navigates to "/#x", the href the link renders. */
  lemma SectionLink(href: string, pathname: string)
    requires StartsWith(href, "#")
    ensures MenuClick(href, pathname).effects ==
              if pathname == "/" then [ScrollTo(href), Close] else [Push(ResolvedHref(href, false)), Close]
  {
  }

  /** "path#hash" scrolls to "#hash" when already on `path`, and otherwise navigates to "path#hash". */
  lemma PathWithHash(path: string, hash: string, pathname: string)
    requires path != "" && hash != "" && '#' !in path && '#' !in hash
    ensures MenuClick(path + "#" + hash, pathname).effects ==
              if path == pathname then [ScrollTo("#" + hash), Close] else [Push(path + "#" + hash), Close]
  {
    PathHashOfJoined(path, hash);
    assert (path + "#" + hash)[0] == path[0];
  }

  /** A plain path navigates only when it is not the current page; the menu closes either way. */
  lemma PlainPath(path: string, pathname: string)
    requires path != "" && '#' !in path
    ensures MenuClick(path, pathname).effects ==
              if path != pathname then [Push(path), Close] else [Close]
  {
    SplitWithoutSeparator(path, '#');
    assert path[0] in path;
  }
}
