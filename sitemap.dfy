/**
 * The sitemap (src/app/sitemap.ts): one entry per public route, its URL the site's base
 * URL followed by the route, the base URL falling back to the local development server
 * when `NEXT_PUBLIC_SITE_URL` is unset or empty.
 */
module Sitemap {
  import opened Wrappers
  import opened Text

  const DevServerUrl := "http://localhost:3000"

  const Routes: seq<string> := ["/", "/about", "/services", "/blog", "/contact"]

  /** `process.env.NEXT_PUBLIC_SITE_URL || 'http://localhost:3000'`: the empty string is falsy. */
  function BaseUrl(siteUrl: Option<string>): (base: string)
    ensures siteUrl.None? || siteUrl.value == [] ==> base == DevServerUrl
    ensures siteUrl.Some? && siteUrl.value != [] ==> base == siteUrl.value
  {
    if siteUrl.Some? && siteUrl.value != "" then siteUrl.value else DevServerUrl
  }

  /** A sitemap entry; its `lastModified` date is not part of this model. */
  datatype Entry = Entry(url: string)

  /** `routes.map(route => ({ url: `${baseUrl}${route}` }))` */
  function EntriesFor(base: string, routes: seq<string>): (entries: seq<Entry>)
    ensures |entries| == |routes|
    ensures forall i :: 0 <= i < |routes| ==> entries[i].url == base + routes[i]
  {
    if routes == [] then [] else [Entry(base + routes[0])] + EntriesFor(base, routes[1..])
  }

  function SitemapEntries(siteUrl: Option<string>): seq<Entry> {
    EntriesFor(BaseUrl(siteUrl), Routes)
  }

  /** Five entries, in route order, each under the base URL. */
  lemma SitemapShape(siteUrl: Option<string>)
    ensures |SitemapEntries(siteUrl)| == 5
    ensures forall i :: 0 <= i < 5 ==>
      SitemapEntries(siteUrl)[i].url == BaseUrl(siteUrl) + Routes[i]
      && StartsWith(SitemapEntries(siteUrl)[i].url, BaseUrl(siteUrl))
  {
    var base := BaseUrl(siteUrl);
    forall i | 0 <= i < 5
      ensures StartsWith(SitemapEntries(siteUrl)[i].url, base)
    {
      assert (base + Routes[i])[..|base|] == base;
    }
  }

  /** Distinct routes give distinct URLs under the same base. */
  lemma DistinctRoutesDistinctUrls(base: string, routes: seq<string>, i: nat, j: nat)
    requires i < |routes| && j < |routes| && routes[i] != routes[j]
    ensures EntriesFor(base, routes)[i].url != EntriesFor(base, routes)[j].url
  {
    var e := EntriesFor(base, routes);
    assert e[i].url[|base|..] == routes[i];
    assert e[j].url[|base|..] == routes[j];
  }

  /** No page is listed twice. */
  lemma UrlsDistinct(siteUrl: Option<string>, i: nat, j: nat)
    requires i < j < |Routes|
    ensures SitemapEntries(siteUrl)[i].url != SitemapEntries(siteUrl)[j].url
  {
    DistinctRoutesDistinctUrls(BaseUrl(siteUrl), Routes, i, j);
  }
}
