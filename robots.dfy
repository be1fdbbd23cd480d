/** The robots policy of src/app/robots.ts. */
module Robots {
  import opened Wrappers
  import Sitemap

  datatype Rule = Rule(userAgent: string, allow: string, disallow: seq<string>)
  datatype Policy = Policy(rules: seq<Rule>, sitemap: string)

  /** `robots()`, given NEXT_PUBLIC_SITE_URL. */
  function RobotsPolicy(env: Option<string>): (p: Policy)
    ensures p.rules == [Rule("*", "/", ["/api/", "/admin"])]
    ensures p.sitemap == Sitemap.StripTrailingSlash(Sitemap.SiteUrl(env)) + "/sitemap.xml"
  {
    var base := Sitemap.SiteUrl(env);
    Policy([Rule("*", "/", ["/api/", "/admin"])], Sitemap.StripTrailingSlash(base) + "/sitemap.xml")
  }

  /** The robots sitemap URL is the sitemap's root entry followed by "sitemap.xml". */
  lemma SitemapUrlExtendsRootEntry(env: Option<string>)
    ensures RobotsPolicy(env).sitemap == Sitemap.Entries(env)[0].url + "sitemap.xml"
  {
    var base := Sitemap.BaseUrl(env);
    assert Sitemap.Entries(env)[0].url == base + "/";
    AppendSitemapName(base);
  }

  lemma AppendSitemapName(base: string)
    ensures base + "/" + "sitemap.xml" == base + "/sitemap.xml"
  {
    assert "/" + "sitemap.xml" == "/sitemap.xml";
  }

  /** Nothing under /api/ or /admin is open to crawlers, whatever the base. */
  lemma AdminAndApiDisallowed(env: Option<string>)
    ensures var r := RobotsPolicy(env).rules;
            |r| == 1 && "/admin" in r[0].disallow && "/api/" in r[0].disallow && r[0].userAgent == "*"
  {
  }
}
