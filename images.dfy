/** Public URLs of files in the site's Supabase storage bucket (src/lib/images.ts). */
module Images {

  const SupabasePublicHost := "https://vmzkfwmyypbgjyjkvoim.supabase.co"
  const PublicObjectPrefix := SupabasePublicHost + "/storage/v1/object/public/"

  /** `path.replace(/^\/+/, "")`: the path without its leading run of slashes. */
  function StripLeadingSlashes(path: string): (r: string)
    ensures |r| <= |path| && r == path[|path| - |r|..]
    ensures forall i :: 0 <= i < |path| - |r| ==> path[i] == '/'
    ensures r == [] || r[0] != '/'
  {
    if path != [] && path[0] == '/' then StripLeadingSlashes(path[1..]) else path
  }

  /** `supabasePublicUrl(path)`. */
  function SupabasePublicUrl(path: string): string {
    PublicObjectPrefix + StripLeadingSlashes(path)
  }

  /** The URL is the public-object prefix followed by the path with its leading slashes removed, which never starts with '/'. */
  lemma UrlShape(path: string)
    ensures StartsWithPrefix(SupabasePublicUrl(path))
    ensures var rest := SupabasePublicUrl(path)[|PublicObjectPrefix|..];
      (rest == [] || rest[0] != '/')
      && exists k :: 0 <= k <= |path| && rest == path[k..] && forall i :: 0 <= i < k ==> path[i] == '/'
  {
    var r := StripLeadingSlashes(path);
    assert SupabasePublicUrl(path)[|PublicObjectPrefix|..] == r;
    assert r == path[|path| - |r|..];
  }

  predicate StartsWithPrefix(url: string) {
    |PublicObjectPrefix| <= |url| && url[..|PublicObjectPrefix|] == PublicObjectPrefix
  }

  /** Leading slashes are irrelevant: "/a", "///a" and "a" give the same URL. */
  lemma {:induction false} LeadingSlashIrrelevant(path: string)
    ensures SupabasePublicUrl("/" + path) == SupabasePublicUrl(path)
  {
    assert ("/" + path)[1..] == path;
  }

  /** A path that does not start with '/' is appended unchanged, interior slashes included. */
  lemma UnslashedPathAppended(path: string)
    requires path == [] || path[0] != '/'
    ensures SupabasePublicUrl(path) == PublicObjectPrefix + path
  {
  }
}
