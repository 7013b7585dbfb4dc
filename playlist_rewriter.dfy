/**
 * The HLS playlist rewriter of the relay's `/stream` handler (server.js:554-597).
 *
 * The playlist text is split on line feeds; every line is trimmed and
 * classified, in this order, as an `#EXT-X-KEY` directive, a nested `.m3u8`
 * playlist reference, a media segment reference, or anything else. References
 * are resolved against the playlist's own base URL and replaced by relay paths
 * (`/key?url=`, `/stream?url=`, `/segment?url=`) that carry the resolved URL
 * through `encodeURIComponent`; everything else passes through trimmed. The
 * lines are joined back with line feeds. A reference that cannot be resolved
 * makes the URL constructor throw, and the whole rewrite fails.
 */
module PlaylistRewriter {
  import opened Wrappers
  import opened JsStrings
  import opened UriComponent
  import opened UrlResolution

  const KeyTag := "#EXT-X-KEY"
  const PlaylistSuffix := ".m3u8"
  /** A reference starting with this is used as it is, without resolution. */
  const SecurePrefix := "https"
  const KeyRoute := "/key?url="
  const StreamRoute := "/stream?url="
  const SegmentRoute := "/segment?url="
  /** The fixed start `URI="` of the key-attribute pattern `/URI="([^"]+)"/`. */
  const UriAttributeOpen := "URI=\""

  /**
   * The base URL: the stream URL up to and including its last `/`, or the
   * empty string when it has none.
   */
  function BaseUrl(streamUrl: string): (base: string)
    ensures StartsWith(streamUrl, base)
    ensures base == "" || base[|base| - 1] == '/'
    ensures '/' !in streamUrl[|base|..]
  {
    streamUrl[..LastIndexOf(streamUrl, '/') + 1]
  }

  /**
   * `reference.startsWith('https') ? reference : new URL(reference, base).href`:
   * `None` when the URL constructor throws.
   */
  function ResolveReference(reference: string, base: string): (r: Option<string>)
    ensures StartsWith(reference, SecurePrefix) ==> r == Some(reference)
    ensures r.None? <==> !StartsWith(reference, SecurePrefix) && !Resolvable(reference, base)
  {
    if StartsWith(reference, SecurePrefix) then Some(reference) else Resolve(reference, base)
  }

  /** The kinds of playlist line, in the order the handler tests them. */
  datatype LineKind = KeyLine | PlaylistLine | SegmentLine | OtherLine

  /**
   * Classifies a trimmed line. Each kind is described on its own, without
   * reference to the order of the tests.
   */
  function Classify(line: string): (k: LineKind)
    ensures k == KeyLine <==> StartsWith(line, KeyTag)
    ensures k == PlaylistLine <==> line != "" && line[0] != '#' && EndsWith(line, PlaylistSuffix)
    ensures k == SegmentLine <==> line != "" && line[0] != '#' && !EndsWith(line, PlaylistSuffix)
    ensures k == OtherLine <==> line == "" || (line[0] == '#' && !StartsWith(line, KeyTag))
  {
    if StartsWith(line, KeyTag) then KeyLine
    else if !StartsWith(line, "#") && EndsWith(line, PlaylistSuffix) then PlaylistLine
    else if !StartsWith(line, "#") && |line| > 0 then SegmentLine
    else OtherLine
  }

  /** The number of consecutive non-quote characters of `line` from index `i`. */
  function NonQuoteRun(line: string, i: nat): (n: nat)
    requires i <= |line|
    ensures i + n <= |line|
    ensures forall j :: i <= j < i + n ==> line[j] != '"'
    ensures i + n < |line| ==> line[i + n] == '"'
    decreases |line| - i
  {
    if i < |line| && line[i] != '"' then 1 + NonQuoteRun(line, i + 1) else 0
  }

  /**
   * `/URI="([^"]+)"/` matches `line` at index `start`, capturing `len`
   * characters: `URI="`, at least one non-quote character, then a quote.
   */
  ghost predicate KeyUriMatchAt(line: string, start: int, len: int) {
    0 <= start && 1 <= len && start + 6 + len <= |line|
    && line[start..start + 5] == UriAttributeOpen
    && (forall j :: start + 5 <= j < start + 5 + len ==> line[j] != '"')
    && line[start + 5 + len] == '"'
  }

  /** A quote closes a run of exactly `n` non-quote characters starting at index `i`. */
  ghost predicate QuoteClosesRun(line: string, i: int, n: int) {
    0 <= i && 0 <= n && i + n < |line| && line[i + n] == '"'
    && forall j :: i <= j < i + n ==> line[j] != '"'
  }

  /** The run length is the only one that a quote closes. */
  lemma {:induction false} NonQuoteRunIsExact(line: string, i: nat)
    requires i <= |line|
    ensures forall n :: QuoteClosesRun(line, i, n) ==> n == NonQuoteRun(line, i)
    decreases |line| - i
  {
    forall n | QuoteClosesRun(line, i, n) ensures n == NonQuoteRun(line, i) {
      if n > 0 {
        NonQuoteRunIsExact(line, i + 1);
        assert QuoteClosesRun(line, i + 1, n - 1);
      }
    }
  }

  /** At one start index, the pattern matches with at most one capture length. */
  lemma KeyUriMatchUnique(line: string, start: int, len1: int, len2: int)
    requires KeyUriMatchAt(line, start, len1) && KeyUriMatchAt(line, start, len2)
    ensures len1 == len2
  {
    NonQuoteRunIsExact(line, start + 5);
    assert QuoteClosesRun(line, start + 5, len1) && QuoteClosesRun(line, start + 5, len2);
  }

  /** Tries the pattern at one index; the capture length when it matches there. */
  function MatchKeyUriAt(line: string, start: nat): (r: Option<nat>)
    requires start <= |line|
    ensures r.Some? ==> KeyUriMatchAt(line, start, r.value)
    ensures r.None? ==> forall len :: !KeyUriMatchAt(line, start, len)
  {
    if start + 5 <= |line| && line[start..start + 5] == UriAttributeOpen then
      var n := NonQuoteRun(line, start + 5);
      NonQuoteRunIsExact(line, start + 5);
      assert forall len :: KeyUriMatchAt(line, start, len) ==> QuoteClosesRun(line, start + 5, len);
      if n >= 1 && start + 5 + n < |line| then Some(n) else None
    else None
  }

  /** A match of the key-attribute pattern: where it starts and how long its capture is. */
  datatype KeyUriMatch = KeyUriMatch(start: nat, len: nat)

  /**
   * `line.match(/URI="([^"]+)"/)` searching from index `from`: the leftmost
   * match, or `None` when there is none.
   */
  function FindKeyUri(line: string, from: nat): (m: Option<KeyUriMatch>)
    requires from <= |line|
    ensures m.Some? ==> from <= m.value.start && KeyUriMatchAt(line, m.value.start, m.value.len)
    ensures m.Some? ==> forall q, len :: from <= q < m.value.start ==> !KeyUriMatchAt(line, q, len)
    ensures m.None? ==> forall q, len :: from <= q ==> !KeyUriMatchAt(line, q, len)
    decreases |line| - from
  {
    match MatchKeyUriAt(line, from)
    case Some(n) => Some(KeyUriMatch(from, n))
    case None => if from == |line| then None else FindKeyUri(line, from + 1)
  }

  /** The captured value of a match. */
  function KeyUriValue(line: string, m: KeyUriMatch): string
    requires m.start + 5 + m.len <= |line|
  {
    line[m.start + 5..m.start + 5 + m.len]
  }

  /**
   * `line.replace(/URI="([^"]+)"/, 'URI="' + value + '"')` at the match `m`:
   * the matched text is replaced, the text around it kept.
   */
  function ReplaceKeyUri(line: string, m: KeyUriMatch, value: string): (r: string)
    requires m.start + 6 + m.len <= |line|
    ensures '\n' !in line && '\n' !in value ==> '\n' !in r
  {
    line[..m.start] + UriAttributeOpen + value + "\"" + line[m.start + 6 + m.len..]
  }

  /**
   * The reference a trimmed line carries: the key attribute's value, the
   * whole line for a playlist or segment line, none otherwise.
   */
  function LineReference(line: string): Option<string>
  {
    match Classify(line)
    case KeyLine =>
      (match FindKeyUri(line, 0)
       case Some(m) => Some(KeyUriValue(line, m))
       case None => None)
    case PlaylistLine => Some(line)
    case SegmentLine => Some(line)
    case OtherLine => None
  }

  /** The relay path for a resolved reference: a route followed by the encoded URL. */
  function RelayPath(route: string, url: string): (r: string)
    ensures '\n' !in route ==> '\n' !in r
  {
    route + EncodeURIComponent(url)
  }

  /** A reference line (playlist or segment) becomes the relay path of its resolved URL. */
  function RewriteReferenceLine(route: string, line: string, base: string): (r: Option<string>)
    requires '\n' !in route
    ensures r.None? <==> ResolveReference(line, base).None?
    ensures r.Some? ==> '\n' !in r.value
  {
    match ResolveReference(line, base)
    case None => None
    case Some(url) => Some(RelayPath(route, url))
  }

  /**
   * A key line has its first `URI="..."` attribute pointed at the key route;
   * without one it stays as it is.
   */
  function RewriteKeyLine(line: string, base: string): (r: Option<string>)
    ensures FindKeyUri(line, 0).None? ==> r == Some(line)
    ensures FindKeyUri(line, 0).Some? ==>
              (r.None? <==> ResolveReference(KeyUriValue(line, FindKeyUri(line, 0).value), base).None?)
    ensures r.Some? && '\n' !in line ==> '\n' !in r.value
  {
    match FindKeyUri(line, 0)
    case None => Some(line)
    case Some(m) =>
      match ResolveReference(KeyUriValue(line, m), base)
      case None => None
      case Some(keyUrl) =>
        Some(ReplaceKeyUri(line, m, RelayPath(KeyRoute, keyUrl)))
  }

  /**
   * Rewrites one trimmed line against the base URL. It fails exactly when the
   * line carries a reference whose resolution throws; a line without a
   * reference comes out unchanged; no line feed is added.
   */
  function RewriteLine(line: string, base: string): (r: Option<string>)
    ensures r.None? <==> LineReference(line).Some? && ResolveReference(LineReference(line).value, base).None?
    ensures LineReference(line).None? ==> r == Some(line)
    ensures line == [] || (line[0] == '#' && !StartsWith(line, KeyTag)) ==> r == Some(line)
    ensures StartsWith(line, KeyTag) && FindKeyUri(line, 0).None? ==> r == Some(line)
    ensures r.Some? && '\n' !in line ==> '\n' !in r.value
  {
    match Classify(line)
    case KeyLine => RewriteKeyLine(line, base)
    case PlaylistLine => RewriteReferenceLine(StreamRoute, line, base)
    case SegmentLine => RewriteReferenceLine(SegmentRoute, line, base)
    case OtherLine => Some(line)
  }

  /**
   * Applies a step that may fail to every element in order, with a shared
   * context `c`; fails when any step fails (the first exception ends the
   * handler's loop).
   */
  function MapEach<C, T, U>(f: (T, C) -> Option<U>, c: C, xs: seq<T>): (r: Option<seq<U>>)
    ensures r.Some? ==> |r.value| == |xs|
  {
    if xs == [] then Some([])
    else
      match MapEach(f, c, xs[..|xs| - 1])
      case None => None
      case Some(prefix) =>
        match f(xs[|xs| - 1], c)
        case None => None
        case Some(last) => Some(prefix + [last])
  }

  /**
   * `MapEach` succeeds exactly when every step succeeds, and then output `k`
   * is the result of the step on input `k`.
   */
  lemma {:induction false} MapEachPointwise<C, T, U>(f: (T, C) -> Option<U>, c: C, xs: seq<T>)
    ensures MapEach(f, c, xs).Some? <==> forall k :: 0 <= k < |xs| ==> f(xs[k], c).Some?
    ensures MapEach(f, c, xs).Some? ==>
              forall k :: 0 <= k < |xs| ==> f(xs[k], c) == Some(MapEach(f, c, xs).value[k])
  {
    if xs != [] {
      var init := xs[..|xs| - 1];
      MapEachPointwise(f, c, init);
      assert forall k :: 0 <= k < |init| ==> init[k] == xs[k];
    }
  }

  /** One raw line of the split playlist: trimmed, then rewritten. */
  function RewriteRawLine(raw: string, base: string): Option<string>
  {
    RewriteLine(Trim(raw), base)
  }

  /** Rewrites the lines of a split playlist in order. */
  function RewriteLines(lines: seq<string>, base: string): Option<seq<string>>
  {
    MapEach(RewriteRawLine, base, lines)
  }

  /**
   * One output line per input line, output line `k` depending only on input
   * line `k` and the base; the rewrite fails exactly when some line fails.
   */
  lemma RewriteLinesPointwise(lines: seq<string>, base: string)
    ensures RewriteLines(lines, base).Some? <==>
              forall k :: 0 <= k < |lines| ==> RewriteLine(Trim(lines[k]), base).Some?
    ensures RewriteLines(lines, base).Some? ==>
              |RewriteLines(lines, base).value| == |lines| &&
              forall k :: 0 <= k < |lines| ==> RewriteLine(Trim(lines[k]), base) == Some(RewriteLines(lines, base).value[k])
  {
    MapEachPointwise(RewriteRawLine, base, lines);
  }

  /** The rewritten playlist: the rewritten lines joined with line feeds. */
  function RewrittenPlaylist(streamUrl: string, data: string): Option<string>
  {
    match RewriteLines(Split(data, '\n'), BaseUrl(streamUrl))
    case None => None
    case Some(modifiedLines) => Some(Join(modifiedLines, '\n'))
  }

  /** Pushing the rewrite of the next line extends the rewritten prefix. */
  lemma RewriteLinesExtend(lines: seq<string>, base: string, i: nat, prefix: seq<string>, line: string)
    requires i < |lines|
    requires RewriteLines(lines[..i], base) == Some(prefix)
    requires RewriteRawLine(lines[i], base) == Some(line)
    ensures RewriteLines(lines[..i + 1], base) == Some(prefix + [line])
  {
    assert lines[..i + 1][..i] == lines[..i];
  }

  /** A line whose rewrite fails makes the whole rewrite fail. */
  lemma RewriteLinesAbort(lines: seq<string>, base: string, i: nat)
    requires i < |lines|
    requires RewriteRawLine(lines[i], base).None?
    ensures RewriteLines(lines, base).None?
  {
    RewriteLinesPointwise(lines, base);
  }

  /**
   * The rewrite loop of the `/stream` handler: computes the base URL once,
   * walks the lines pushing each rewritten line, and joins them. `None` is the
   * exception the URL constructor throws, which ends the whole rewrite.
   */
  method RewritePlaylist(streamUrl: string, data: string) returns (result: Option<string>)
    ensures result == RewrittenPlaylist(streamUrl, data)
  {
    var baseUrl := BaseUrl(streamUrl);
    var lines := Split(data, '\n');
    var modifiedLines: seq<string> := [];
    for i := 0 to |lines|
      invariant RewriteLines(lines[..i], baseUrl) == Some(modifiedLines)
    {
      var line := Trim(lines[i]);
      var rewritten: string;
      if StartsWith(line, KeyTag) {
        var keyMatch := FindKeyUri(line, 0);
        rewritten := line;
        if keyMatch.Some? {
          var keyUrl := ResolveReference(KeyUriValue(line, keyMatch.value), baseUrl);
          if keyUrl.None? {
            RewriteLinesAbort(lines, baseUrl, i);
            return None;
          }
          rewritten := ReplaceKeyUri(line, keyMatch.value, KeyRoute + EncodeURIComponent(keyUrl.value));
        }
      } else if !StartsWith(line, "#") && EndsWith(line, PlaylistSuffix) {
        var playlistUrl := ResolveReference(line, baseUrl);
        if playlistUrl.None? {
          RewriteLinesAbort(lines, baseUrl, i);
          return None;
        }
        rewritten := StreamRoute + EncodeURIComponent(playlistUrl.value);
      } else if !StartsWith(line, "#") && |line| > 0 {
        var segmentUrl := ResolveReference(line, baseUrl);
        if segmentUrl.None? {
          RewriteLinesAbort(lines, baseUrl, i);
          return None;
        }
        rewritten := SegmentRoute + EncodeURIComponent(segmentUrl.value);
      } else {
        rewritten := line;
      }
      RewriteLinesExtend(lines, baseUrl, i, modifiedLines, rewritten);
      modifiedLines := modifiedLines + [rewritten];
    }
    assert lines[..|lines|] == lines;
    result := Some(Join(modifiedLines, '\n'));
  }

  // Properties of the rewritten playlist

  /**
   * The rewrite keeps the line structure: splitting the output on line feeds
   * gives exactly one line per input line, and output line `k` is the rewrite
   * of trimmed input line `k`.
   */
  lemma RewritePreservesLines(streamUrl: string, data: string)
    requires RewrittenPlaylist(streamUrl, data).Some?
    ensures var input := Split(data, '\n');
            var output := Split(RewrittenPlaylist(streamUrl, data).value, '\n');
            |output| == |input| &&
            forall k :: 0 <= k < |input| ==> RewriteLine(Trim(input[k]), BaseUrl(streamUrl)) == Some(output[k])
  {
    var input := Split(data, '\n');
    var base := BaseUrl(streamUrl);
    RewriteLinesPointwise(input, base);
    var out := RewriteLines(input, base).value;
    forall k | 0 <= k < |out| ensures '\n' !in out[k] {
      assert '\n' !in Trim(input[k]);
    }
    SplitJoin(out, '\n');
  }

  /** A line that needs the URL constructor: it carries a reference not starting with `https`. */
  predicate NeedsResolution(line: string) {
    LineReference(line).Some? && !StartsWith(LineReference(line).value, SecurePrefix)
  }

  /** A line on which the URL constructor is called and throws. */
  predicate LineThrows(line: string, base: string) {
    NeedsResolution(line) && !Resolvable(LineReference(line).value, base)
  }

  /** One line fails exactly when it needs resolution and its reference does not resolve. */
  lemma LineFailure(line: string, base: string)
    ensures RewriteLine(line, base).None? <==> LineThrows(line, base)
  {
  }

  /**
   * The rewrite of the split lines fails (the handler answers 500) exactly
   * when some line carries a reference that needs resolution and does not
   * resolve against the base.
   */
  lemma RewriteLinesFailure(lines: seq<string>, base: string)
    ensures RewriteLines(lines, base).None? <==> exists k :: 0 <= k < |lines| && LineThrows(Trim(lines[k]), base)
  {
    RewriteLinesPointwise(lines, base);
    if RewriteLines(lines, base).None? {
      var k :| 0 <= k < |lines| && RewriteLine(Trim(lines[k]), base).None?;
      LineFailure(Trim(lines[k]), base);
    } else {
      forall k | 0 <= k < |lines| ensures !LineThrows(Trim(lines[k]), base) {
        LineFailure(Trim(lines[k]), base);
      }
    }
  }

  /**
   * When every reference that needs resolution is a path reference (no
   * scheme, no authority), the rewrite fails exactly when the base URL is
   * not valid and some line needs resolution.
   */
  lemma PathReferencesFailure(lines: seq<string>, base: string)
    requires forall k :: 0 <= k < |lines| && NeedsResolution(Trim(lines[k])) ==>
               IsPathReference(LineReference(Trim(lines[k])).value)
    ensures RewriteLines(lines, base).None? <==>
              !IsValidBase(base) && exists k :: 0 <= k < |lines| && NeedsResolution(Trim(lines[k]))
  {
    RewriteLinesFailure(lines, base);
    forall k | 0 <= k < |lines| && NeedsResolution(Trim(lines[k]))
      ensures LineThrows(Trim(lines[k]), base) <==> !IsValidBase(base)
    {
      PathReferenceResolvable(LineReference(Trim(lines[k])).value, base);
    }
  }

  /** A string without a scheme, in particular the empty string, is not a valid base. */
  lemma EmptyBaseInvalid()
    ensures !IsValidBase("")
  {
    assert Parse("").scheme == None by {
      assert Recompose(Parse("")) == "";
    }
  }

  /**
   * A stream URL without any `/` has the empty string as base, so every
   * reference that does not start with `https` makes the rewrite throw.
   */
  lemma NoSlashNoBase(streamUrl: string, reference: string)
    requires '/' !in streamUrl
    requires !StartsWith(reference, SecurePrefix)
    ensures BaseUrl(streamUrl) == ""
    ensures ResolveReference(reference, BaseUrl(streamUrl)).None?
  {
    EmptyBaseInvalid();
  }

  /**
   * A relative reference is resolved by appending it to the base URL when the
   * base is a plain directory URL and the reference a plain relative path.
   */
  lemma RelativeReferenceAppends(streamUrl: string, reference: string)
    requires IsValidBase(BaseUrl(streamUrl))
    requires Parse(BaseUrl(streamUrl)).query == None && Parse(BaseUrl(streamUrl)).fragment == None
    requires EndsWith(Parse(BaseUrl(streamUrl)).path, "/")
    requires reference != "" && reference[0] != '/' && !StartsWith(reference, SecurePrefix)
    requires ':' !in reference && '?' !in reference && '#' !in reference
    requires NoDotSegments(Parse(BaseUrl(streamUrl)).path + reference)
    ensures ResolveReference(reference, BaseUrl(streamUrl)) == Some(BaseUrl(streamUrl) + reference)
  {
    ResolveRelativePath(reference, BaseUrl(streamUrl));
  }

  /**
   * A relay path starts with its route, carries only unreserved characters and
   * `%` after it (so no quote, no `$` and no line feed), and the query value
   * decodes back to the resolved URL.
   */
  lemma RelayPathDecodes(route: string, url: string)
    ensures StartsWith(RelayPath(route, url), route)
    ensures forall c :: c in RelayPath(route, url)[|route|..] ==> IsUnreserved(c) || c == '%'
    ensures '"' !in RelayPath(route, url)[|route|..] && '$' !in RelayPath(route, url)[|route|..]
    ensures DecodeURIComponent(RelayPath(route, url)[|route|..]) == Some(url)
  {
    assert RelayPath(route, url)[|route|..] == EncodeURIComponent(url);
    DecodeEncode(url);
  }

  /**
   * A playlist line becomes a `/stream?url=` path and a segment line a
   * `/segment?url=` path, whose query value decodes to the resolved reference.
   */
  lemma ReferenceLineRewrite(line: string, base: string)
    requires Classify(line) == PlaylistLine || Classify(line) == SegmentLine
    requires ResolveReference(line, base).Some?
    ensures var route := if Classify(line) == PlaylistLine then StreamRoute else SegmentRoute;
            var out := RewriteLine(line, base);
            out == Some(route + EncodeURIComponent(ResolveReference(line, base).value)) &&
            DecodeURIComponent(out.value[|route|..]) == ResolveReference(line, base)
  {
    var route := if Classify(line) == PlaylistLine then StreamRoute else SegmentRoute;
    RelayPathDecodes(route, ResolveReference(line, base).value);
  }

  /** The leftmost match is the one `FindKeyUri` reports. */
  lemma FindKeyUriLeftmost(line: string, p: nat, len: nat)
    requires KeyUriMatchAt(line, p, len)
    requires forall q, len' :: 0 <= q < p ==> !KeyUriMatchAt(line, q, len')
    ensures FindKeyUri(line, 0) == Some(KeyUriMatch(p, len))
  {
    var m := FindKeyUri(line, 0);
    assert m.Some?;
    assert m.value.start == p;
    KeyUriMatchUnique(line, p, len, m.value.len);
  }

  /**
   * Replacing the leftmost match by a quote-free value: the text around the
   * match is kept, and the leftmost match of the result is the new value at
   * the same place.
   */
  lemma ReplaceKeyUriRematches(line: string, m: KeyUriMatch, value: string)
    requires KeyUriMatchAt(line, m.start, m.len)
    requires forall q, len :: 0 <= q < m.start ==> !KeyUriMatchAt(line, q, len)
    requires value != [] && '"' !in value
    ensures var out := ReplaceKeyUri(line, m, value);
            out[..m.start] == line[..m.start] &&
            out[m.start + 6 + |value|..] == line[m.start + 6 + m.len..] &&
            FindKeyUri(out, 0) == Some(KeyUriMatch(m.start, |value|)) &&
            KeyUriValue(out, KeyUriMatch(m.start, |value|)) == value
  {
    var out := ReplaceKeyUri(line, m, value);
    forall q, len | 0 <= q < m.start ensures !KeyUriMatchAt(out, q, len) {
      if KeyUriMatchAt(out, q, len) {
        EarlierMatchSurvives(line, m, value, q, len);
      }
    }
    ReplacedValueMatches(line, m, value);
    FindKeyUriLeftmost(out, m.start, |value|);
  }

  /** A match of the replaced line before the replaced one is a match of the original line. */
  lemma EarlierMatchSurvives(line: string, m: KeyUriMatch, value: string, q: int, len: int)
    requires KeyUriMatchAt(line, m.start, m.len)
    requires 0 <= q < m.start
    requires KeyUriMatchAt(ReplaceKeyUri(line, m, value), q, len)
    ensures KeyUriMatchAt(line, q, len)
  {
    var out := ReplaceKeyUri(line, m, value);
    var p := m.start;
    assert out[..p + 5] == line[..p + 5];
    assert out[p + 4] == '"';
    assert q + 5 + len <= p + 4;
  }

  /** The new value sits where the old one was, as a match of the key pattern. */
  lemma ReplacedValueMatches(line: string, m: KeyUriMatch, value: string)
    requires m.start + 6 + m.len <= |line|
    requires value != [] && '"' !in value
    ensures var out := ReplaceKeyUri(line, m, value);
            KeyUriMatchAt(out, m.start, |value|) &&
            KeyUriValue(out, KeyUriMatch(m.start, |value|)) == value &&
            out[..m.start] == line[..m.start] &&
            out[m.start + 6 + |value|..] == line[m.start + 6 + m.len..]
  {
    var out := ReplaceKeyUri(line, m, value);
    var p := m.start;
    assert out[p..p + 5] == UriAttributeOpen;
    assert out[p + 5..p + 5 + |value|] == value;
    assert out[p + 5 + |value|] == '"';
  }

  /** A key line whose URI value resolves becomes the line with that value replaced by its relay path. */
  lemma RewriteKeyLineReplaces(line: string, base: string)
    requires Classify(line) == KeyLine
    requires FindKeyUri(line, 0).Some?
    requires ResolveReference(KeyUriValue(line, FindKeyUri(line, 0).value), base).Some?
    ensures var m := FindKeyUri(line, 0).value;
            var url := ResolveReference(KeyUriValue(line, m), base).value;
            RewriteLine(line, base) == Some(ReplaceKeyUri(line, m, RelayPath(KeyRoute, url)))
  {
  }

  /** A relay path is non-empty and has no quote. */
  lemma RelayPathQuoteFree(url: string)
    ensures RelayPath(KeyRoute, url) != [] && '"' !in RelayPath(KeyRoute, url)
  {
    var value := RelayPath(KeyRoute, url);
    RelayPathDecodes(KeyRoute, url);
    assert value == KeyRoute + value[|KeyRoute|..];
  }

  /**
   * A key line with a `URI="..."` attribute whose value resolves keeps its
   * text around the attribute and stays a key line, and its leftmost
   * `URI="..."` attribute now holds the `/key?url=` relay path of the resolved
   * key URL (which `RelayPathDecodes` decodes back).
   */
  lemma KeyLineRewrite(line: string, base: string)
    requires Classify(line) == KeyLine
    requires FindKeyUri(line, 0).Some?
    requires ResolveReference(KeyUriValue(line, FindKeyUri(line, 0).value), base).Some?
    ensures var m := FindKeyUri(line, 0).value;
            var value := RelayPath(KeyRoute, ResolveReference(KeyUriValue(line, m), base).value);
            var out := RewriteLine(line, base);
            out.Some? &&
            out.value[..m.start] == line[..m.start] &&
            out.value[m.start + 6 + |value|..] == line[m.start + 6 + m.len..] &&
            Classify(out.value) == KeyLine &&
            FindKeyUri(out.value, 0) == Some(KeyUriMatch(m.start, |value|)) &&
            KeyUriValue(out.value, KeyUriMatch(m.start, |value|)) == value
  {
    var m := FindKeyUri(line, 0).value;
    var url := ResolveReference(KeyUriValue(line, m), base).value;
    var value := RelayPath(KeyRoute, url);
    RewriteKeyLineReplaces(line, base);
    RelayPathQuoteFree(url);
    ReplaceKeyUriRematches(line, m, value);
    KeyLineStaysKeyLine(line, m, value);
  }

  /** The `URI="` attribute of a key line lies after its `#EXT-X-KEY` tag, which the replacement keeps. */
  lemma KeyLineStaysKeyLine(line: string, m: KeyUriMatch, value: string)
    requires StartsWith(line, KeyTag)
    requires KeyUriMatchAt(line, m.start, m.len)
    ensures StartsWith(ReplaceKeyUri(line, m, value), KeyTag)
  {
    assert line[m.start] == 'U';
    assert forall j | 0 <= j < |KeyTag| :: line[j] != 'U';
    assert ReplaceKeyUri(line, m, value)[..|KeyTag|] == line[..|KeyTag|];
  }
}
