/** The canonical link of a page (src/components/CanonicalURL.tsx). */
module CanonicalUrl {
  import opened Wrappers

  const DefaultBaseUrl := "https://vodenabasta.rs"

  /** `process.env.NEXT_PUBLIC_SITE_URL ?? "https://vodenabasta.rs"`: only an unset variable falls back. */
  function BaseUrl(env: Option<string>): (b: string)
    ensures env.None? ==> b == DefaultBaseUrl
    ensures env.Some? ==> b == env.value
  {
    env.GetOr(DefaultBaseUrl)
  }

  /** `canonicalHref`: the home page "/" maps to the base URL, any other path is appended to it. */
  function CanonicalHref(baseUrl: string, pathname: string): (href: string) {
    baseUrl + (if pathname == "/" then "" else pathname)
  }

  lemma CanonicalHrefShape(baseUrl: string, pathname: string)
    ensures pathname == "/" ==> CanonicalHref(baseUrl, pathname) == baseUrl
    ensures pathname != "/" ==> CanonicalHref(baseUrl, pathname) == baseUrl + pathname
    ensures CanonicalHref(baseUrl, pathname)[..|baseUrl|] == baseUrl
  {
  }

  /** "/" and "" give the same href; any two other distinct paths give distinct hrefs. */
  lemma {:induction false} CanonicalHrefInjective(baseUrl: string, p: string, q: string)
    ensures CanonicalHref(baseUrl, "/") == CanonicalHref(baseUrl, "")
    ensures CanonicalHref(baseUrl, p) == CanonicalHref(baseUrl, q) <==>
      (p == q || ({p, q} == {"/", ""}))
  {
    var n := if p == "/" then "" else p;
    var m := if q == "/" then "" else q;
    if baseUrl + n == baseUrl + m {
      assert n == (baseUrl + n)[|baseUrl|..];
      assert m == (baseUrl + m)[|baseUrl|..];
    }
  }
}
