/** The sitemap of src/app/sitemap.ts. */
module Sitemap {
  import opened Wrappers

  const DefaultSiteUrl: string := "https://tonalfocus-new.vercel.app"
  const Routes: seq<string> := ["/", "/portfolio", "/about", "/contact"]

  /** `s.replace(/\/$/, '')`: a single trailing '/' is removed. */
  function StripTrailingSlash(s: string): (r: string)
    ensures s != [] && s[|s| - 1] == '/' ==> r + "/" == s
    ensures s == [] || s[|s| - 1] != '/' ==> r == s
    ensures |s| - 1 <= |r| <= |s|
  {
    if s != [] && s[|s| - 1] == '/' then s[..|s| - 1] else s
  }

  /** `NEXT_PUBLIC_SITE_URL ?? default`: only an unset variable falls back. */
  function SiteUrl(env: Option<string>): (u: string)
    ensures env.None? ==> u == DefaultSiteUrl
    ensures env.Some? ==> u == env.value
  {
    env.GetOr(DefaultSiteUrl)
  }

  function BaseUrl(env: Option<string>): string {
    StripTrailingSlash(SiteUrl(env))
  }

  /** The `path === '/' ? '/' : path` conditional. */
  function RoutePath(path: string): (p: string)
    ensures p == path
  {
    if path == "/" then "/" else path
  }

  datatype Entry = Entry(url: string)

  /** The sitemap entries; `lastModified` is the clock and is left out. */
  function Entries(env: Option<string>): (es: seq<Entry>)
    ensures |es| == |Routes| == 4
    ensures forall k :: 0 <= k < |es| ==> es[k].url == BaseUrl(env) + Routes[k]
  {
    seq(|Routes|, k requires 0 <= k < |Routes| => Entry(BaseUrl(env) + RoutePath(Routes[k])))
  }

  /** Only one '/' is removed: a base ending in "//" keeps one of them. */
  lemma OnlyOneSlashRemoved()
    ensures StripTrailingSlash("https://a.example//") == "https://a.example/"
    ensures Entries(Some("https://a.example//"))[1].url == "https://a.example//portfolio"
  {
    assert StripTrailingSlash("https://a.example//") == "https://a.example/";
  }

  lemma DefaultEntries()
    ensures Entries(None)[0].url == "https://tonalfocus-new.vercel.app/"
    ensures Entries(None)[3].url == "https://tonalfocus-new.vercel.app/contact"
  {
  }
}
