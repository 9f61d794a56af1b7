/** `init()`: the collection URL and the token URL, built from the two
    templates `{api_url}/{org}/{app}/{collection}` and
    `{api_url}/{org}/{app}/token`. The collection name (host name and
    timestamp) is an opaque input. */
module Config {

  datatype Urls = Urls(url: string, tokenUrl: string)

  /** `{api_url}/{org}/{app}/`, the part the two templates share. */
  function AppPrefix(baseUrl: string, org: string, app: string): string {
    baseUrl + "/" + org + "/" + app + "/"
  }

  function Init(baseUrl: string, org: string, app: string, collection: string): (u: Urls)
    ensures u.url == AppPrefix(baseUrl, org, app) + collection
    ensures u.tokenUrl == AppPrefix(baseUrl, org, app) + "token"
  {
    Urls(baseUrl + "/" + org + "/" + app + "/" + collection,
         baseUrl + "/" + org + "/" + app + "/token")
  }

  /** The collection URL and the token URL coincide only for a collection
      named `token`. */
  lemma UrlsDistinct(baseUrl: string, org: string, app: string, collection: string)
    ensures Init(baseUrl, org, app, collection).url == Init(baseUrl, org, app, collection).tokenUrl
            <==> collection == "token"
  {
    var p := AppPrefix(baseUrl, org, app);
    var u := Init(baseUrl, org, app, collection);
    if u.url == u.tokenUrl {
      assert collection == u.url[|p|..];
      assert "token" == u.tokenUrl[|p|..];
    }
  }

  /** Runs against the same app with different collection names (the name
      embeds host and timestamp) write to different collection URLs. */
  lemma CollectionUrlInjective(baseUrl: string, org: string, app: string, c1: string, c2: string)
    ensures Init(baseUrl, org, app, c1).url == Init(baseUrl, org, app, c2).url <==> c1 == c2
  {
    var p := AppPrefix(baseUrl, org, app);
    if Init(baseUrl, org, app, c1).url == Init(baseUrl, org, app, c2).url {
      assert c1 == Init(baseUrl, org, app, c1).url[|p|..];
      assert c2 == Init(baseUrl, org, app, c2).url[|p|..];
    }
  }

  /** The shape of the collection name `{hostname}-index-test-{timestamp}`:
      host and timestamp around the 12-character infix `-index-test-`. */
  function CollectionName(host: string, stamp: string): (c: string)
    ensures |c| == |host| + |stamp| + 12
  {
    host + "-index-test-" + stamp
  }

  /** A collection name of that shape is never `token`, so the collection
      URL is never the token URL. */
  lemma CollectionNeverToken(baseUrl: string, org: string, app: string, host: string, stamp: string)
    ensures Init(baseUrl, org, app, CollectionName(host, stamp)).url !=
            Init(baseUrl, org, app, CollectionName(host, stamp)).tokenUrl
  {
    UrlsDistinct(baseUrl, org, app, CollectionName(host, stamp));
  }
}
