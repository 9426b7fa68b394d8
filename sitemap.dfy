/**
 * app/sitemap.ts: the sitemap entries, two static pages followed by one
 * page per listed document, or only the home page when building the list
 * throws. Timestamps (`new Date()`) are left out.
 */
module Sitemap {
  import opened Js
  import Api

  const DefaultSiteUrl: string := "https://yumiwiki.com"
  /** The limit the sitemap asks the document list for. */
  const DocumentLimit: int := 1000

  datatype ChangeFrequency = Daily | Weekly

  datatype Entry = Entry(url: string, changeFrequency: ChangeFrequency, priority: real)

  /** `NEXT_PUBLIC_SITE_URL || 'https://yumiwiki.com'`. */
  function BaseUrl(siteEnv: Option<string>): string
  {
    EnvOr(siteEnv, DefaultSiteUrl)
  }

  function HomeEntry(base: string): Entry
  {
    Entry(base, Daily, 1.0)
  }

  function DocsIndexEntry(base: string): Entry
  {
    Entry(base + "/docs", Daily, 0.9)
  }

  function DocumentEntry(base: string, encodedTitle: string): Entry
  {
    Entry(base + "/docs/" + encodedTitle, Weekly, 0.8)
  }

  /** Every title can be passed to `encodeURIComponent` without a URIError. */
  predicate AllEncodable(documents: seq<Api.DocumentListItem>, encode: Api.UriEncoder)
  {
    forall i :: 0 <= i < |documents| ==> encode(documents[i].title).Some?
  }

  /** `documents.map(...)`: `None` when some title makes the encoder throw. */
  function DocumentEntries(base: string, documents: seq<Api.DocumentListItem>,
                           encode: Api.UriEncoder): (r: Option<seq<Entry>>)
    ensures r.Some? <==> AllEncodable(documents, encode)
    ensures r.Some? ==> |r.value| == |documents|
    ensures r.Some? ==> forall i :: 0 <= i < |documents| ==>
      r.value[i] == DocumentEntry(base, encode(documents[i].title).value)
  {
    if documents == [] then Some([])
    else
      match encode(documents[0].title)
      case None => None
      case Some(encoded) =>
        var rest := DocumentEntries(base, documents[1..], encode);
        if rest.None? then None
        else Some([DocumentEntry(base, encoded)] + rest.value)
  }

  /** `sitemap()`, given the awaited document list. */
  function Sitemap(siteEnv: Option<string>, documents: seq<Api.DocumentListItem>,
                   encode: Api.UriEncoder): (r: seq<Entry>)
    ensures AllEncodable(documents, encode) ==>
      && |r| == 2 + |documents|
      && r[0] == HomeEntry(BaseUrl(siteEnv))
      && r[1] == DocsIndexEntry(BaseUrl(siteEnv))
      && forall i :: 0 <= i < |documents| ==>
           r[i + 2] == DocumentEntry(BaseUrl(siteEnv), encode(documents[i].title).value)
    ensures !AllEncodable(documents, encode) ==> r == [HomeEntry(BaseUrl(siteEnv))]
  {
    var base := BaseUrl(siteEnv);
    match DocumentEntries(base, documents, encode)
    case None => [HomeEntry(base)]
    case Some(docUrls) => [HomeEntry(base), DocsIndexEntry(base)] + docUrls
  }

  /** Static pages change daily, document pages weekly. */
  lemma ChangeFrequencies(siteEnv: Option<string>, documents: seq<Api.DocumentListItem>,
                          encode: Api.UriEncoder)
    ensures var r := Sitemap(siteEnv, documents, encode);
      forall i :: 0 <= i < |r| ==> (r[i].changeFrequency == Daily <==> i < 2)
  {
  }

  /** The sitemap as built: from at most 1000 listed documents, so at most 1002 entries. */
  lemma SitemapSize(siteEnv: Option<string>, apiEnv: Option<string>, rt: Api.Runtime,
                    parse: Api.JsonParser, send: Api.Transport, encode: Api.UriEncoder)
    ensures |Sitemap(siteEnv, Api.FetchDocumentList(apiEnv, DocumentLimit, rt, parse, send), encode)| <= 1002
  {
  }
}
