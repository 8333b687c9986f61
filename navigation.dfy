/**
 * What the navbar and the mobile menu share: the effects a link click can
 * have, the `href.split("#")` destructuring, and `resolvedHref`
 * (src/components/Navbar.tsx, src/components/MobileMenu.tsx).
 */
module Navigation {
  import opened JsString

  /** One observable effect of a click, in the order it happens. */
  datatype Effect =
    | ScrollTo(hash: string)   // `scrollToHash(hash)`
    | Push(url: string)        // `router.push(url)`
    | Select                   // the navbar's `onSelect()`
    | Close                    // the mobile menu's `onToggle(false)`

  /** A handled click: whether `event.preventDefault()` ran, and the effects. */
  datatype Click = Click(prevented: bool, effects: seq<Effect>)

  /** `const [path, hash] = href.split("#")`: the first piece. */
  function PathOf(href: string): string {
    Split(href, '#')[0]
  }

  /** The second piece; `undefined` when there is no "#", which is as falsy as "". */
  function HashOf(href: string): string {
    var parts := Split(href, '#');
    if |parts| > 1 then parts[1] else ""
  }

  /** The path and the hash contain no "#", and when the hash is empty the path is the whole href. */
  lemma PathHashShape(href: string)
    ensures '#' !in PathOf(href) && '#' !in HashOf(href)
    ensures HashOf(href) == "" && '#' !in href ==> PathOf(href) == href
  {
    if '#' !in href {
      SplitWithoutSeparator(href, '#');
    }
  }

  /** "path#hash" with neither part holding a "#" splits back into exactly its parts. */
  lemma {:induction false} PathHashOfJoined(path: string, hash: string)
    requires '#' !in path && '#' !in hash
    ensures PathOf(path + "#" + hash) == path
    ensures HashOf(path + "#" + hash) == hash
  {
    SplitPieceThenSeparator(path, '#', hash);
    SplitWithoutSeparator(hash, '#');
    assert path + "#" + hash == path + ['#'] + hash;
  }

  /** Only the part after the second "#" is lost: "a#b#c" has path "a" and hash "b". */
  lemma {:induction false} SecondHashDropsTail(path: string, hash: string, rest: string)
    requires '#' !in path && '#' !in hash
    ensures PathOf(path + "#" + hash + "#" + rest) == path
    ensures HashOf(path + "#" + hash + "#" + rest) == hash
  {
    SplitPieceThenSeparator(path, '#', hash + "#" + rest);
    SplitPieceThenSeparator(hash, '#', rest);
    assert path + "#" + hash + "#" + rest == path + ['#'] + (hash + ['#'] + rest);
  }

  /** `resolvedHref`: off the home page an in-page "#x" link points at "/#x". */
  function ResolvedHref(href: string, isHome: bool): (r: string)
    ensures !isHome && StartsWith(href, "#") ==> r == "/" + href
    ensures isHome || !StartsWith(href, "#") ==> r == href
  {
    if !isHome && StartsWith(href, "#") then "/" + href else href
  }

  /** Whether a click hands off to `scrollToHash` or `router.push`. */
  predicate IsNavigation(e: Effect) {
    e.ScrollTo? || e.Push?
  }

  /** The scrolls and pushes of an effect list, in order. */
  function Navigations(effects: seq<Effect>): (r: seq<Effect>)
    ensures forall k :: 0 <= k < |r| ==> IsNavigation(r[k])
    ensures |r| <= |effects|
  {
    if effects == [] then []
    else (if IsNavigation(effects[0]) then [effects[0]] else []) + Navigations(effects[1..])
  }

  /** How often an effect occurs in a list. */
  function Count(effects: seq<Effect>, e: Effect): nat {
    multiset(effects)[e]
  }
}
