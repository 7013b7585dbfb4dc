/**
 * The decisions of the relay's `/stream` handler around the playlist rewrite
 * (server.js:470-602): the domain check on the request headers, the order in
 * which the handler answers 403, 400, the upstream status, the rewritten
 * playlist or 500; and the content type the `/segment` handler chooses for a
 * media segment (server.js:629-633).
 */
module StreamAccess {
  import opened Wrappers
  import opened JsStrings
  import opened PlaylistRewriter

  const ProductionDomain := "sphub.tech"
  const Localhost := "localhost"
  const Loopback := "127.0.0.1"

  /**
   * The request headers the check reads. A missing header is the empty
   * string, as in `req.headers.referer || ''`.
   */
  datatype Headers = Headers(referer: string, host: string, origin: string)

  /** `host.split(':')[0]`: the Host header without its port. */
  function CurrentHost(host: string): (name: string)
    ensures StartsWith(host, name) && ':' !in name
    ensures |name| < |host| ==> host[|name|] == ':'
  {
    Split(host, ':')[0]
  }

  /** The relay runs on a development server when the Host name is `localhost` or `127.0.0.1`. */
  predicate IsDevelopmentServer(host: string) {
    CurrentHost(host) == Localhost || CurrentHost(host) == Loopback
  }

  /**
   * The request comes from the production site: a non-empty Referer or
   * Origin contains `sphub.tech`.
   */
  predicate IsFromSphubTech(h: Headers) {
    (h.referer != "" && Includes(h.referer, ProductionDomain))
    || (h.origin != "" && Includes(h.origin, ProductionDomain))
  }

  /**
   * `isAllowed`, as written. On a development server: no Origin, a local
   * Origin, or a request from the production site. Elsewhere the first
   * disjunct, a non-empty Host, already decides.
   */
  predicate IsAllowed(h: Headers) {
    if IsDevelopmentServer(h.host) then
      h.origin == "" || Includes(h.origin, Localhost) || Includes(h.origin, Loopback) || IsFromSphubTech(h)
    else
      h.host != "" || CurrentHost(h.host) == ProductionDomain || IsFromSphubTech(h)
  }

  /**
   * Outside a development server the check lets through every request with a
   * Host header; without one, only a request from the production site. (A
   * development server always has a Host header, since its name is not empty.)
   */
  lemma ProductionCheck(h: Headers)
    requires !IsDevelopmentServer(h.host)
    ensures IsAllowed(h) <==> h.host != "" || IsFromSphubTech(h)
  {
    if h.host == "" {
      assert CurrentHost(h.host) == "";
    }
  }

  /**
   * On a development server, a request with a foreign Origin that neither
   * Referer nor Origin ties to the production site is refused.
   */
  lemma ForeignOriginRefusedOnDevelopmentServer(h: Headers)
    requires IsDevelopmentServer(h.host)
    requires h.origin != "" && !Includes(h.origin, Localhost) && !Includes(h.origin, Loopback)
    requires !IsFromSphubTech(h)
    ensures !IsAllowed(h)
  {
  }

  /** A request from the production site is let through on every server. */
  lemma ProductionSiteAllowed(h: Headers)
    requires IsFromSphubTech(h)
    ensures IsAllowed(h)
  {
  }

  /**
   * The upstream playlist fetch: a response with its status and body text,
   * or a failure (the request or the body read throws).
   */
  datatype Fetch = Fetched(status: int, body: string) | FetchFailed

  /** The answers of the `/stream` handler. */
  datatype StreamResponse =
    | Forbidden                   // 403, access denied
    | MissingUrl                  // 400, no `url` query parameter
    | UpstreamStatus(code: int)   // the upstream's non-200 status, relayed
    | Playlist(body: string)      // 200, `application/vnd.apple.mpegurl`
    | ProxyError                  // 500, something in the `try` block threw

  /** The HTTP status of an answer. */
  function Status(r: StreamResponse): int {
    match r
    case Forbidden => 403
    case MissingUrl => 400
    case UpstreamStatus(code) => code
    case Playlist(_) => 200
    case ProxyError => 500
  }

  /**
   * The `/stream` handler: the domain check first, then the `url` parameter
   * (missing or empty is a 400), then the upstream fetch of that URL (given
   * here as its result), then the playlist rewrite.
   */
  function HandleStream(h: Headers, url: Option<string>, upstream: Fetch): (r: StreamResponse)
    ensures !IsAllowed(h) ==> r == Forbidden
    ensures IsAllowed(h) && (url == None || url == Some("")) ==> r == MissingUrl
    ensures r.Playlist? <==>
              IsAllowed(h) && url.Some? && url.value != "" && upstream.Fetched? && upstream.status == 200 &&
              RewrittenPlaylist(url.value, upstream.body).Some?
    ensures r.Playlist? ==> r.body == RewrittenPlaylist(url.value, upstream.body).value
  {
    if !IsAllowed(h) then Forbidden
    else if url == None || url == Some("") then MissingUrl
    else
      match upstream
      case FetchFailed => ProxyError
      case Fetched(status, body) =>
        if status != 200 then UpstreamStatus(status)
        else
          match RewrittenPlaylist(url.value, body)
          case None => ProxyError
          case Some(playlist) => Playlist(playlist)
  }

  /**
   * A refused request gets 403 before anything else is looked at: whatever
   * the `url` parameter and whatever the upstream would answer.
   */
  lemma ForbiddenBeforeBadRequest(h: Headers, url: Option<string>, upstream: Fetch, url': Option<string>, upstream': Fetch)
    requires !IsAllowed(h)
    ensures HandleStream(h, url, upstream) == HandleStream(h, url', upstream') == Forbidden
    ensures Status(HandleStream(h, url, upstream)) == 403
  {
  }

  /**
   * An allowed request answers 400 exactly when the `url` parameter is
   * missing or empty, whatever the upstream.
   */
  lemma BadRequestExactlyWithoutUrl(h: Headers, url: Option<string>, upstream: Fetch)
    requires IsAllowed(h)
    ensures HandleStream(h, url, upstream) == MissingUrl <==> url == None || url == Some("")
  {
  }

  /**
   * For an allowed request with a URL, an upstream failure or a playlist
   * whose references cannot be resolved gives 500, and a non-200 upstream
   * status is passed on.
   */
  lemma UpstreamOutcomes(h: Headers, url: string, upstream: Fetch)
    requires IsAllowed(h) && url != ""
    ensures upstream.FetchFailed? ==> HandleStream(h, Some(url), upstream) == ProxyError
    ensures upstream.Fetched? && upstream.status != 200 ==>
              Status(HandleStream(h, Some(url), upstream)) == upstream.status
    ensures upstream.Fetched? && upstream.status == 200 ==>
              (Status(HandleStream(h, Some(url), upstream)) == 500 <==>
               RewrittenPlaylist(url, upstream.body).None?)
  {
  }

  const Mp4Type := "video/mp4"
  const TransportStreamType := "video/MP2T"

  /**
   * The `/segment` content type: fragmented MP4 when the lower-cased URL
   * contains `.m4s` or `.mp4`, MPEG transport stream otherwise.
   */
  function SegmentContentType(url: string): (t: string)
    ensures t == Mp4Type || t == TransportStreamType
  {
    var lower := AsciiLower(url);
    if Includes(lower, ".m4s") || Includes(lower, ".mp4") then Mp4Type else TransportStreamType
  }

  /** Lower-casing a slice is the slice of the lower-cased string. */
  lemma AsciiLowerSlice(url: string, i: nat)
    requires i + 4 <= |url|
    ensures AsciiLower(url)[i..i + 4] == AsciiLower(url[i..i + 4])
  {
  }

  /** The four characters of `url` at index `i` are `.m4s` or `.mp4` in some letter case. */
  predicate Mp4MarkAt(url: string, i: int) {
    0 <= i <= |url| - 4 && (AsciiLower(url[i..i + 4]) == ".m4s" || AsciiLower(url[i..i + 4]) == ".mp4")
  }

  /**
   * The content-type test is a case-insensitive search: MP4 exactly when
   * some four characters of the URL are `.m4s` or `.mp4` in any letter case.
   */
  lemma SegmentContentTypeIgnoresCase(url: string)
    ensures SegmentContentType(url) == Mp4Type <==> exists i :: Mp4MarkAt(url, i)
  {
    var lower := AsciiLower(url);
    assert TransportStreamType[6] != Mp4Type[6];
    if Includes(lower, ".m4s") {
      var i :| 0 <= i <= |lower| - 4 && OccursAt(lower, ".m4s", i);
      AsciiLowerSlice(url, i);
      assert Mp4MarkAt(url, i);
    } else if Includes(lower, ".mp4") {
      var i :| 0 <= i <= |lower| - 4 && OccursAt(lower, ".mp4", i);
      AsciiLowerSlice(url, i);
      assert Mp4MarkAt(url, i);
    }
    forall i | Mp4MarkAt(url, i) ensures SegmentContentType(url) == Mp4Type {
      AsciiLowerSlice(url, i);
      assert |lower| == |url|;
      if AsciiLower(url[i..i + 4]) == ".m4s" {
        assert OccursAt(lower, ".m4s", i);
      } else {
        assert OccursAt(lower, ".mp4", i);
      }
    }
  }
}
