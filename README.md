# HLS relay: playlist rewriter and `/stream` decisions

This project models the core of an HLS relay server written for Node.js and
Express. The relay fetches an HLS playlist (RFC 8216) from upstream and
rewrites it so that every media reference points back at the relay:

- an `#EXT-X-KEY` line has the value of its first `URI="..."` attribute
  (section 4.3.2.4 of RFC 8216) replaced by `/key?url=<encoded URL>`;
- a nested variant playlist line ending in `.m3u8` becomes
  `/stream?url=<encoded URL>`;
- every other non-comment, non-empty line is a media segment URI (section
  4.3.2 of RFC 8216) and becomes `/segment?url=<encoded URL>`;
- every other line passes through after trimming.

References that start with the literal `https` are used as they are. All other
references are resolved against the playlist's base URL, which is the fetch URL
up to and including its last `/`. The resolved URL is percent-encoded with
ECMAScript `encodeURIComponent` (ECMA-262, section 19.2.6.5).

The project also models:

- the domain check of the `/stream` handler;
- the order in which that handler answers 403, 400, the upstream status, the
  rewritten playlist or 500;
- the content type the `/segment` handler chooses for a segment.

The files are:

- `wrappers.dfy`: the `Option` type. `None` stands for a JavaScript call that
  throws.
- `js_strings.dfy`: the JavaScript string built-ins the handler uses:
  - `startsWith`, `endsWith` and `includes`;
  - `lastIndexOf`, and a first-index search (`IndexOf`) that `split` is
    built on;
  - `split` and `join` with a one-character separator;
  - `trim`, with the ECMAScript white-space and line-terminator set;
  - `toLowerCase`.
- `uri_component.dfy`: `encodeURIComponent`, which writes the full UTF-8 bytes
  as `%XY` with upper-case hex. Its partner is `decodeURIComponent`, and the
  two make a round trip.
- `url_resolution.dfy`: `new URL(reference, base).href`, as reference
  resolution after RFC 3986, section 5.2. It covers:
  - parsing (Appendix B);
  - the transform (section 5.2.2);
  - merge (section 5.2.3);
  - remove_dot_segments (section 5.2.4);
  - recomposition (section 5.3).

  In the model, the constructor throws when the base is not a valid absolute
  URL, or when the target URL has a special scheme (`http`, `https`, `ws`,
  `wss`, `ftp`) but no host. A path reference therefore throws exactly when
  the base is not valid, and a reference with an empty host such as `http://`
  throws against every base, as in the WHATWG URL Standard. The WHATWG parser
  accepts more special-scheme forms than this; "Left out" lists them.
- `playlist_rewriter.dfy`: the rewriter. It contains:
  - the base URL;
  - line classification;
  - the leftmost match of `/URI="([^"]+)"/`;
  - the per-line rewrite;
  - the imperative rewrite loop (`RewritePlaylist`), proved against the
    functional specification `RewrittenPlaylist`.
- `stream_access.dfy`: the access predicate, the `/stream` response decision
  and the segment content type.

The access predicate is modelled as the code is written. Outside a development
server, `isAllowed = host || ...` is already true whenever the Host header is
non-empty (`StreamAccess.ProductionCheck`). So on a production host the check
only refuses requests that have no Host header and do not come from
`sphub.tech`.

`toLowerCase` is modelled on ASCII letters only. This is exact for the content
type test:

- Full Unicode lower-casing maps non-ASCII characters to ASCII characters in
  only two cases:
  - U+0130 becomes `i` followed by U+0307;
  - U+212A becomes `k`.
- Neither `i` nor `k` occurs in `.m4s` or `.mp4`.
- ASCII characters lower-case the same way in both.

## Model

| member | source | states |
|---|---|---|
| JsStrings.IndexOf | server.js:484 | the helper behind `split(':')`: the first index of the character, or -1 exactly when it does not occur |
| JsStrings.LastIndexOf | server.js:555 | the last index of the character, or -1 exactly when it does not occur |
| JsStrings.StartsWith | server.js:565 | `startsWith`: the prefix is the first characters of the string; Classify states the line kinds with it |
| JsStrings.EndsWith | server.js:579 | `endsWith`: the suffix is the last characters of the string; Classify uses it |
| JsStrings.Includes | server.js:494 | `includes`: the needle occurs at some index; SegmentContentTypeIgnoresCase uses it |
| JsStrings.Join | server.js:597 | `join`: JoinSplit and SplitJoin make it the inverse of `split` |
| JsStrings.Split | server.js:558 | at least one piece, and no piece contains the separator |
| JsStrings.JoinSplit | server.js:558 | joining the pieces of a split with the separator gives the text back |
| JsStrings.SplitJoin | server.js:597 | splitting a join of separator-free lines gives exactly those lines back |
| JsStrings.IndexOfAfterPiece | server.js:558 | in a join, the first separator comes right after the first piece |
| JsStrings.SplitCons | server.js:558 | splitting a piece, a separator and more text splits off exactly that piece |
| JsStrings.JoinCons | server.js:597 | proof step for SplitJoin and JoinSplit: joining puts exactly one separator between a first piece and the rest |
| JsStrings.TrimStart | server.js:562 | drops exactly the leading white space |
| JsStrings.TrimEnd | server.js:562 | drops exactly the trailing white space |
| JsStrings.Trim | server.js:562 | the result is the input minus a white-space prefix and a white-space suffix, and neither of its ends is white space |
| JsStrings.AsciiLower | server.js:629 | same length, each character lower-cased in place |
| UriComponent.HexDigit | server.js:574 | a hex digit is an unreserved character |
| UriComponent.PercentBytes | server.js:574 | three characters per byte, only `%` and unreserved characters |
| UriComponent.EncodeChar | server.js:574 | one character's encoding uses only `%` and unreserved characters |
| UriComponent.EncodeURIComponent | server.js:574 | the encoding uses only unreserved characters and `%`: no quote, `$`, line feed, `&`, `#` or `/` |
| UriComponent.Utf8 | server.js:574 | a character encodes to one to four UTF-8 bytes |
| UriComponent.DecodeEscape | server.js:607 | a decoded escape sequence uses at least three characters and no more than the input |
| UriComponent.DecodeURIComponent | server.js:607 | `decodeURIComponent`; DecodeEncode proves it inverts EncodeURIComponent |
| UriComponent.HexRoundTrip | server.js:574 | an upper-case hex digit reads back as its value |
| UriComponent.PercentByteRoundTrip | server.js:574 | `%XY` written for a byte reads back as that byte |
| UriComponent.PercentBytesAt | server.js:574 | the k-th escape of a byte sequence reads back as its k-th byte |
| UriComponent.PercentByteAtShift | server.js:574 | an escape reads the same behind any prefix |
| UriComponent.EscapesReadBack | server.js:574 | each escape of an encoded character reads back as its UTF-8 byte |
| UriComponent.DecodeTwoBytes | server.js:574 | two escapes of a two-byte UTF-8 form decode to the character |
| UriComponent.DecodeThreeBytes | server.js:574 | three escapes of a three-byte UTF-8 form decode to the character |
| UriComponent.DecodeFourBytes | server.js:574 | four escapes of a four-byte UTF-8 form decode to the character |
| UriComponent.DecodeEncodedChar | server.js:574 | decoding the escapes of one encoded character gives it back, whatever follows |
| UriComponent.DecodeEncode | server.js:581 | `decodeURIComponent(encodeURIComponent(s)) == s` for every string |
| UrlResolution.SplitAtFirst | server.js:572 | the string is the part before the first delimiter, then the delimiter and the rest; the part before has no delimiter |
| UrlResolution.SplitScheme | server.js:572 | a split-off scheme is well formed; without one the whole input is the rest; the scheme part and the rest recompose to the input |
| UrlResolution.SchemeBeforeFirstColon | server.js:572 | a scheme is split off exactly when the text before the first `:` is a well-formed scheme, and it is that text |
| UrlResolution.SplitAuthority | server.js:572 | the authority has no `/`, the path is empty or starts with `/`, and together they are the input |
| UrlResolution.SplitAround | server.js:572 | proof step for SplitAtFirst: a string is its part before an index, the character there, and the rest |
| UrlResolution.ParseHierarchy | server.js:572 | the scheme is the one SplitScheme finds; an authority is present exactly when `//` follows the scheme; the authority has no `/` and the path is then empty or starts with `/`; the parts recompose to the input |
| UrlResolution.AuthorityJoin | server.js:572 | proof step for ParseHierarchy: the authority and path after `//` recompose to the text after the scheme |
| UrlResolution.Parse | server.js:572 | the components recompose to the reference; the scheme, authority and path hold no `?` or `#` and split as ParseHierarchy splits them; the query holds no `#`; so the fragment follows the first `#` and the query the first `?` before it |
| UrlResolution.SegmentEnd | server.js:572 | the first path segment ends at the next `/` after its first character, or at the end |
| UrlResolution.DropLastSegment | server.js:572 | the output is cut just before its last `/`, or emptied when it has no `/` |
| UrlResolution.Resolve | server.js:572 | `new URL` succeeds exactly when the pair is resolvable: a valid base, and a target that has a host where its special scheme needs one; an invalid base always throws |
| UrlResolution.PathReferenceResolvable | server.js:572 | a reference without scheme and authority resolves exactly when the base is valid |
| UrlResolution.TransformSchemeAuthority | server.js:572 | the transform gives the target the scheme and authority of section 5.2.2: the reference's, the base's scheme with the reference's authority, or the base's |
| UrlResolution.ResolvableTarget | server.js:572 | a pair is resolvable exactly when the base is valid and the target URL has a host where its special scheme needs one |
| UrlResolution.HostlessReferenceRejected | server.js:572 | a reference with a special scheme and an empty authority (`http://`) throws against every base, as in WHATWG; the model also rejects one with no `//` at all, which WHATWG reads leniently (see "Left out") |
| UrlResolution.IsValidBase | server.js:572 | the base has a scheme, and a special scheme comes with a non-empty authority; characterized by PathReferenceResolvable and Resolve |
| UrlResolution.Resolvable | server.js:572 | the model's condition for `new URL` not to throw: a valid base and a target with a host where its special scheme needs one; it agrees with WHATWG for path references against a base that has a host and for `scheme://` references with an empty host, and is stricter than WHATWG on the lenient special-scheme forms listed under "Left out"; Resolve's contract, PathReferenceResolvable and HostlessReferenceRejected characterize it |
| UrlResolution.Transform | server.js:572 | the target components of section 5.2.2; TransformAbsolute and TransformRelativePath state its two main cases |
| UrlResolution.Merge | server.js:586 | the merge of section 5.2.3; MergeAfterSlash states it for a base path ending in `/` |
| UrlResolution.RemoveDots | server.js:572 | the loop of section 5.2.4; DotRulesSeeDotSegment, PlainSegmentStep and RemoveDotsKeepsPlainPath characterize it |
| UrlResolution.RemoveDotSegments | server.js:572 | remove_dot_segments; RemoveDotsKeepsPlainPath shows that it keeps a path without dot segments |
| UrlResolution.DotRulesSeeDotSegment | server.js:572 | the dot-removal rules fire only on a `.` or `..` segment |
| UrlResolution.PlainSegmentStep | server.js:572 | a path starting with a plain segment moves that segment to the output |
| UrlResolution.RemoveDotsKeepsPlainPath | server.js:572 | remove_dot_segments leaves a path without dot segments unchanged |
| UrlResolution.ResolveAbsoluteReference | server.js:580 | an absolute reference with a host where its scheme needs one and without dot segments resolves to itself |
| UrlResolution.TransformAbsolute | server.js:580 | the target of a reference with a scheme and no dot segments is the reference itself |
| UrlResolution.ResolveRelativePath | server.js:586 | a plain relative path against a directory base resolves to the base followed by the path |
| UrlResolution.TransformRelativePath | server.js:586 | such a path keeps the base's scheme and authority and is appended to its path |
| UrlResolution.RecomposeAppendPath | server.js:586 | proof step for ResolveRelativePath: appending to the path appends to the recomposed URL |
| UrlResolution.MergeAfterSlash | server.js:586 | merging with a base path ending in `/` appends the path |
| UrlResolution.ParsePlainPath | server.js:586 | a string without `:`, `?`, `#` or a leading `/` parses as a bare path |
| PlaylistRewriter.BaseUrl | server.js:555 | the base is a prefix of the stream URL, is empty or ends in `/`, and no `/` follows it in the stream URL |
| PlaylistRewriter.ResolveReference | server.js:570-572 | an `https` reference is kept verbatim; any other reference throws exactly when it is not resolvable against the base |
| PlaylistRewriter.Classify | server.js:565-592 | key line exactly when it starts with `#EXT-X-KEY`; playlist line exactly when non-empty, not a comment and ending in `.m3u8`; segment line exactly when non-empty, not a comment and not ending in `.m3u8`; otherwise pass-through |
| PlaylistRewriter.NonQuoteRun | server.js:566 | the run of non-quote characters is maximal: it ends at a quote or at the end of the line |
| PlaylistRewriter.NonQuoteRunIsExact | server.js:566 | the maximal run is the only run that a quote closes |
| PlaylistRewriter.KeyUriMatchUnique | server.js:566 | at one index, the key pattern matches with only one capture length |
| PlaylistRewriter.MatchKeyUriAt | server.js:566-567 | reports the key-pattern match at an index, or that there is none there |
| PlaylistRewriter.FindKeyUri | server.js:566-567 | `line.match` finds the leftmost match, or there is no match anywhere |
| PlaylistRewriter.ReplaceKeyUri | server.js:574 | the replacement adds no line feed |
| PlaylistRewriter.RelayPath | server.js:574 | a relay path adds no line feed |
| PlaylistRewriter.RewriteReferenceLine | server.js:579-587 | a reference line fails exactly when its resolution throws, and adds no line feed |
| PlaylistRewriter.RewriteKeyLine | server.js:565-576 | without a match the key line is unchanged; with one, it fails exactly when the key URI's resolution throws |
| PlaylistRewriter.RewriteLine | server.js:562-592 | a line fails exactly when its reference's resolution throws; empty lines, comments and key lines without a match pass through unchanged; no line feed is added |
| PlaylistRewriter.LineReference | server.js:565-592 | the reference a line carries: the first key URI value, the whole playlist or segment line, or none; RewriteLine's contract and LineFailure use it |
| PlaylistRewriter.RewriteRawLine | server.js:562-592 | trimming then rewriting one line of the split text; RewriteLinesPointwise states it per line |
| PlaylistRewriter.RewriteLines | server.js:558-593 | the rewrite of all lines; RewriteLinesPointwise and RewriteLinesFailure characterize it |
| PlaylistRewriter.RewrittenPlaylist | server.js:555-597 | the rewritten playlist text; RewritePlaylist is proved equal to it and RewritePreservesLines gives its lines |
| PlaylistRewriter.MapEach | server.js:561-593 | a loop that pushes one result per element gives as many results as elements |
| PlaylistRewriter.MapEachPointwise | server.js:561-593 | the loop succeeds exactly when every step does, and result k is step k's result |
| PlaylistRewriter.RewriteLinesPointwise | server.js:558-593 | one output line per input line; output line k is the rewrite of trimmed input line k; the loop fails exactly when some line fails |
| PlaylistRewriter.RewriteLinesExtend | server.js:576 | pushing the next rewritten line extends the rewritten prefix |
| PlaylistRewriter.RewriteLinesAbort | server.js:572 | one line whose resolution throws aborts the whole rewrite |
| PlaylistRewriter.RewritePlaylist | server.js:555-597 | the imperative loop (base computed once, `push` per line, early exit on a throw, final join) computes exactly the specified rewritten playlist |
| PlaylistRewriter.RewritePreservesLines | server.js:558-597 | splitting the output on line feeds gives exactly one line per input line, in order, each the rewrite of the trimmed input line |
| PlaylistRewriter.LineFailure | server.js:570-586 | a line fails exactly when it carries a non-`https` reference that is not resolvable against the base |
| PlaylistRewriter.RewriteLinesFailure | server.js:599-601 | the rewrite throws, giving a 500, exactly when some line carries a non-`https` reference that is not resolvable against the base |
| PlaylistRewriter.PathReferencesFailure | server.js:570-601 | when every reference needing resolution is a path reference, the rewrite throws exactly when the base is invalid and some line needs resolution |
| PlaylistRewriter.EmptyBaseInvalid | server.js:555 | the empty base, which a URL without `/` yields, is not a valid base |
| PlaylistRewriter.NoSlashNoBase | server.js:555 | a stream URL without `/` has an empty base, against which every non-`https` reference throws |
| PlaylistRewriter.RelativeReferenceAppends | server.js:555-586 | a plain relative reference against a directory base URL resolves to the base followed by the reference |
| PlaylistRewriter.RelayPathDecodes | server.js:581 | a relay path starts with its route; its query value has no quote or `$` and decodes back to the resolved URL |
| PlaylistRewriter.ReferenceLineRewrite | server.js:579-587 | a `.m3u8` line becomes exactly `/stream?url=` followed by the encoded resolved URL, and any other segment line `/segment?url=` followed by it; the value decodes back |
| PlaylistRewriter.FindKeyUriLeftmost | server.js:567 | a match with no match before it is the one `line.match` reports |
| PlaylistRewriter.ReplaceKeyUriRematches | server.js:574 | replacing the first match keeps the text before and after it, and the new value is the first match of the result |
| PlaylistRewriter.EarlierMatchSurvives | server.js:574 | a match before the replaced one in the new line was already a match in the old line |
| PlaylistRewriter.ReplacedValueMatches | server.js:574 | the new value sits where the old one was, as a match of the key pattern, with the text around it kept |
| PlaylistRewriter.RewriteKeyLineReplaces | server.js:565-576 | a key line whose URI value resolves becomes the line with its first match replaced by the `/key?url=` relay path |
| PlaylistRewriter.RelayPathQuoteFree | server.js:574 | the `/key?url=` relay path is non-empty and has no quote, so it can stand inside `URI="..."` |
| PlaylistRewriter.KeyLineRewrite | server.js:565-576 | only the first `URI="..."` changes: the text around it is kept, the line stays a key line, and its first URI value is the `/key?url=` relay path of the resolved key URL |
| PlaylistRewriter.KeyLineStaysKeyLine | server.js:565 | the `URI="` match lies after the `#EXT-X-KEY` tag, so the rewritten line still starts with it |
| StreamAccess.CurrentHost | server.js:484 | the Host name is the prefix of the Host header before its first `:` |
| StreamAccess.IsDevelopmentServer | server.js:487-489 | the Host name is `localhost` or `127.0.0.1`; ProductionCheck and ForeignOriginRefusedOnDevelopmentServer use it |
| StreamAccess.IsFromSphubTech | server.js:493-495 | a non-empty Referer or Origin contains `sphub.tech`; ProductionSiteAllowed uses it |
| StreamAccess.IsAllowed | server.js:499-509 | the access predicate as written; ProductionCheck, ForeignOriginRefusedOnDevelopmentServer and ProductionSiteAllowed characterize it |
| StreamAccess.ProductionCheck | server.js:506-509 | outside development, a request is allowed exactly when the Host header is non-empty or the request comes from `sphub.tech` |
| StreamAccess.ForeignOriginRefusedOnDevelopmentServer | server.js:499-505 | on a development server, a foreign Origin that is not from `sphub.tech` is refused |
| StreamAccess.ProductionSiteAllowed | server.js:493-509 | a Referer or Origin containing `sphub.tech` is always allowed |
| StreamAccess.HandleStream | server.js:522-601 | a refused request gets 403; an allowed one without `url` gets 400; it gives a playlist exactly when the upstream answers 200 and the rewrite succeeds, and then the body is the rewritten playlist |
| StreamAccess.ForbiddenBeforeBadRequest | server.js:522-534 | a refused request gets 403 whatever the `url` parameter and the upstream |
| StreamAccess.BadRequestExactlyWithoutUrl | server.js:530-534 | an allowed request gets 400 exactly when `url` is missing or empty |
| StreamAccess.UpstreamOutcomes | server.js:547-601 | a failed fetch gives 500; a non-200 upstream status is relayed; after a 200, the answer is 500 exactly when the rewrite throws |
| StreamAccess.SegmentContentType | server.js:629-633 | the content type is `video/mp4` or `video/MP2T` |
| StreamAccess.AsciiLowerSlice | server.js:629 | lower-casing commutes with taking four characters |
| StreamAccess.SegmentContentTypeIgnoresCase | server.js:629-633 | `video/mp4` exactly when four characters of the URL are `.m4s` or `.mp4` in some letter case |

## Left out

- The Express, CORS and trust-proxy set-up, `app.listen`, and the undici
  upstream requests. These are framework and network plumbing. The result of
  the playlist fetch is a parameter of `StreamAccess.HandleStream`.
- The segment body streamed with `pipe`, the `/segment` and `/key` handlers
  apart from the content-type choice, and the `/api-proxy` forwarder. They only
  move bytes.
- The HTML pages `/`, `/embed` and `/player`. They are template strings and
  client-side script.
- Logging, and all code that is commented out.
- The HTTP headers of the answers (`Content-Type` of the playlist) and the
  text of the error bodies. An answer is modelled by its kind and status.
- `req.query.url` given as an array (a repeated query parameter). The model
  takes it as an optional string.
- UrlResolution.Resolve: RFC 3986 resolution stands in for the WHATWG URL
  parser. It does not model these WHATWG steps:
  - host lower-casing and IDNA;
  - default-port removal;
  - percent-encoding of spaces and other characters;
  - treating `\` as `/` in special schemes;
  - the special-scheme rule that reads a same-scheme reference as relative
    (`http:a.ts` against an `http` base, and `https:` against an `https`
    base, resolve there and throw here);
  - scheme lower-casing: `HTTP://cdn/a.ts` keeps its upper-case scheme here,
    where WHATWG writes `http://cdn/a.ts`;
  - removal of tab and newline characters inside the input (the handler's
    lines are already trimmed, but inner tabs are kept here);
  - normalization of the base's own path before a query-only or
    fragment-only reference takes it over (section 5.2.2 of RFC 3986 keeps
    the base path unchanged);
  - rejecting invalid hosts and ports, in a base or in a reference (for
    example `http://h:99999/a.ts` or `http://a b/x.ts` resolve here; only a
    missing or empty host is rejected);
  - the lenient forms of a special-scheme URL, in a base or in a reference:
    a missing `//` (`http:cdn.example.com/x.ts` against an `https` base, or
    the base `http:cdn.example.com/v/`), extra slashes (`///x.ts` against an
    `https` base, which WHATWG resolves to `https://x.ts/`, or the base
    `https:///cdn/v/`) are accepted by WHATWG; here such a base is invalid
    and such a reference throws;
  - stripping leading and trailing C0 control characters and spaces from
    the input: a base with a leading space has no scheme here and is
    invalid, while a reference with one (a key value `URI=" http://cdn/x.ts"`,
    whose capture is not trimmed, or a segment line starting with U+0001,
    which `trim` keeps) is read here as a relative path and resolves to a
    different URL (the base followed by the reference), where WHATWG gives
    `http://cdn/x.ts`;
  - `%2e` forms of dot segments: WHATWG treats `%2e`, `.%2e`, `%2e.` and
    `%2e%2e` (in any letter case) as `.` and `..`, while here they are plain
    segments, so `%2e%2e/x.ts` is appended to the base path;
  - opaque paths: WHATWG keeps the path of a non-special scheme with no `/`
    after the `:` as it is, while here remove_dot_segments still applies, so
    `foo:a/../b` becomes `foo:/b` instead of staying `foo:a/../b`;
  - rejecting a relative reference against a base with an opaque path
    (a non-special scheme with no authority, such as `mailto:x/`);
  - the empty path of a special URL becoming `/`.
- UrlResolution.HostlessReferenceRejected: states the model's rejection of a
  special-scheme reference without `//`; WHATWG instead skips the missing
  slashes and reads a host from what follows (`http:cdn/x.ts` becomes
  `http://cdn/x.ts`), or reads it as relative against a base of the same
  scheme. Only its empty-authority case (`http://`) agrees with WHATWG.
- UrlResolution.Resolvable: stricter than the WHATWG constructor on the lenient
  special-scheme forms listed above, so for such a reference the model
  answers 500 where the handler rewrites the line.
- UriComponent.EncodeURIComponent: a Dafny character is a Unicode scalar
  value, so the URIError that JavaScript throws on a lone surrogate cannot
  arise. The body text of a response never holds one.
- JsStrings.AsciiLower: lower-cases ASCII letters only. This is exact for the
  `.m4s`/`.mp4` test, for the reason given above.
