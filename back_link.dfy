/**
 * The back link (src/components/BackLink.tsx): it goes back in history when
 * the page was reached from a matching page, and otherwise navigates to its
 * fallback.
 */
module BackLink {
  import opened Wrappers
  import opened JsString

  const DefaultMatchPaths: seq<string> := ["/blog"]
  const DefaultLabel := "← Nazad"

  /** `matchPaths.some((path) => referrer.includes(path))`. */
  function AnyIncluded(referrer: string, paths: seq<string>): bool {
    paths != [] && (Includes(referrer, paths[0]) || AnyIncluded(referrer, paths[1..]))
  }

  /** The effect's test: a non-empty referrer that contains one of the paths. */
  predicate ReferrerMatches(referrer: string, paths: seq<string>) {
    referrer != "" && AnyIncluded(referrer, paths)
  }

  lemma {:induction false} AnyIncludedIff(referrer: string, paths: seq<string>)
    ensures AnyIncluded(referrer, paths) <==>
              exists i, k :: 0 <= i < |paths| && OccursAt(referrer, paths[i], k)
  {
    if paths != [] {
      IncludesIff(referrer, paths[0]);
      AnyIncludedIff(referrer, paths[1..]);
      if exists i, k :: 0 <= i < |paths| && OccursAt(referrer, paths[i], k) {
        var i, k :| 0 <= i < |paths| && OccursAt(referrer, paths[i], k);
        if i > 0 {
          assert OccursAt(referrer, paths[1..][i - 1], k);
        }
      }
      if exists i, k :: 0 <= i < |paths[1..]| && OccursAt(referrer, paths[1..][i], k) {
        var i, k :| 0 <= i < |paths[1..]| && OccursAt(referrer, paths[1..][i], k);
        assert OccursAt(referrer, paths[i + 1], k);
      }
    }
  }

  /** The referrer matches exactly when it is non-empty and some path occurs in it somewhere. */
  lemma ReferrerMatchesIff(referrer: string, paths: seq<string>)
    ensures ReferrerMatches(referrer, paths) <==>
              referrer != "" && exists i, k :: 0 <= i < |paths| && OccursAt(referrer, paths[i], k)
  {
    AnyIncludedIff(referrer, paths);
  }

  /** With the default paths, the referrer must contain "/blog". */
  lemma DefaultRule(referrer: string)
    ensures ReferrerMatches(referrer, DefaultMatchPaths) <==> referrer != "" && Includes(referrer, "/blog")
  {
    var paths := DefaultMatchPaths;
    assert paths[0] == "/blog" && paths[1..] == [];
    assert AnyIncluded(referrer, paths) == (Includes(referrer, "/blog") || AnyIncluded(referrer, []));
  }

  /** An empty entry in the paths matches every non-empty referrer — and with no paths nothing matches. */
  lemma EmptyAndNoPaths(referrer: string, paths: seq<string>)
    ensures "" in paths ==> (ReferrerMatches(referrer, paths) <==> referrer != "")
    ensures ReferrerMatches(referrer, []) == false
  {
    AnyIncludedIff(referrer, paths);
    if "" in paths && referrer != "" {
      var i :| 0 <= i < |paths| && paths[i] == "";
      assert OccursAt(referrer, paths[i], 0);
    }
  }

  /** What a click does. */
  datatype Action = Back | PushTo(href: string)

  class Link {
    const fallbackHref: string
    const matchPaths: seq<string>
    var canGoBack: bool

    constructor (fallbackHref: string, matchPaths: Option<seq<string>>)
      ensures this.fallbackHref == fallbackHref && this.matchPaths == matchPaths.GetOr(DefaultMatchPaths)
      ensures !canGoBack
    {
      this.fallbackHref := fallbackHref;
      this.matchPaths := matchPaths.GetOr(DefaultMatchPaths);
      canGoBack := false;
    }

    /** The effect, with `document.referrer`; `None` when there is no document. It never clears `canGoBack`. */
    method RunEffect(referrer: Option<string>)
      modifies this
      ensures canGoBack == (old(canGoBack) || (referrer.Some? && ReferrerMatches(referrer.value, matchPaths)))
    {
      if referrer.Some? && referrer.value != "" && AnyIncluded(referrer.value, matchPaths) {
        canGoBack := true;
      }
    }

    /** `handleClick`: exactly one of back and push. */
    method Click() returns (action: Action)
      ensures action == if canGoBack then Back else PushTo(fallbackHref)
    {
      if canGoBack {
        action := Back;
      } else {
        action := PushTo(fallbackHref);
      }
    }
  }
}
