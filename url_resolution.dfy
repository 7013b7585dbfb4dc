/**
 * Reference resolution after RFC 3986, section 5.2, standing in for the WHATWG
 * `new URL(reference, base).href` that the rewriter calls: the base must be an
 * absolute URL (otherwise the constructor throws), and the reference is parsed
 * (Appendix B), transformed (section 5.2.2), merged (section 5.2.3), cleaned of
 * dot segments (section 5.2.4) and recomposed (section 5.3).
 */
module UrlResolution {
  import opened Wrappers
  import opened JsStrings

  /** The five components of a URI reference; absent ones are `None`. */
  datatype UriReference = UriReference(
    scheme: Option<string>,
    authority: Option<string>,
    path: string,
    query: Option<string>,
    fragment: Option<string>)

  predicate IsAlpha(c: char) {
    ('A' <= c <= 'Z') || ('a' <= c <= 'z')
  }

  /** scheme = ALPHA *( ALPHA / DIGIT / "+" / "-" / "." ) */
  predicate IsScheme(s: string) {
    |s| >= 1 && IsAlpha(s[0])
    && forall i :: 1 <= i < |s| ==>
         IsAlpha(s[i]) || ('0' <= s[i] <= '9') || s[i] == '+' || s[i] == '-' || s[i] == '.'
  }

  /** `scheme ":"` when there is a scheme. */
  function SchemePart(scheme: Option<string>): string {
    if scheme.Some? then scheme.value + ":" else ""
  }

  /** `"//" authority` when there is an authority. */
  function AuthorityPart(authority: Option<string>): string {
    if authority.Some? then "//" + authority.value else ""
  }

  /** `delimiter component` when the component is present. */
  function DelimitedPart(delimiter: char, component: Option<string>): string {
    if component.Some? then [delimiter] + component.value else ""
  }

  /** The scheme, authority and path, recomposed. */
  function HierarchyPart(u: UriReference): string {
    SchemePart(u.scheme) + AuthorityPart(u.authority) + u.path
  }

  /** Component recomposition (section 5.3). */
  function Recompose(u: UriReference): string {
    HierarchyPart(u) + DelimitedPart('?', u.query) + DelimitedPart('#', u.fragment)
  }

  lemma SplitAround(s: string, i: nat)
    requires i < |s|
    ensures s == s[..i] + [s[i]] + s[i + 1..]
  {
  }

  /** Splits `s` at the first `delimiter`: what comes before, and what comes after if it occurs. */
  function SplitAtFirst(s: string, delimiter: char): (r: (string, Option<string>))
    ensures s == r.0 + DelimitedPart(delimiter, r.1)
    ensures delimiter !in r.0
  {
    var i := IndexOf(s, delimiter);
    if i == -1 then (s, None)
    else
      SplitAround(s, i);
      (s[..i], Some(s[i + 1..]))
  }

  /** Splits off the scheme: the text before the first `:` when it is a well-formed scheme. */
  function SplitScheme(h: string): (r: (Option<string>, string))
    ensures h == SchemePart(r.0) + r.1
    ensures r.0.Some? ==> IsScheme(r.0.value)
    ensures r.0.None? ==> r.1 == h
  {
    var c := IndexOf(h, ':');
    if c >= 0 && IsScheme(h[..c]) then
      SchemeJoin(h, c);
      (Some(h[..c]), h[c + 1..])
    else (None, h)
  }

  /**
   * The scheme is split off exactly when the text before the first `:` is a
   * well-formed scheme, and it is that text.
   */
  lemma SchemeBeforeFirstColon(h: string)
    ensures SplitScheme(h).0.Some? <==> IndexOf(h, ':') >= 0 && IsScheme(h[..IndexOf(h, ':')])
    ensures SplitScheme(h).0.Some? ==> SplitScheme(h).0.value == h[..IndexOf(h, ':')]
  {
  }

  lemma SchemeJoin(h: string, c: nat)
    requires c < |h| && h[c] == ':'
    ensures SchemePart(Some(h[..c])) + h[c + 1..] == h
  {
    assert h == h[..c] + ":" + h[c + 1..];
  }

  /** Splits the hierarchical part (no `?` or `#` in it) into scheme, authority and path. */
  function ParseHierarchy(h: string): (u: UriReference)
    ensures u.query == None && u.fragment == None
    ensures HierarchyPart(u) == h
    ensures u.scheme == SplitScheme(h).0
    ensures u.authority.Some? <==> StartsWith(SplitScheme(h).1, "//")
    ensures u.authority.Some? ==> '/' !in u.authority.value && (u.path == "" || u.path[0] == '/')
  {
    var split := SplitScheme(h);
    if StartsWith(split.1, "//") then
      var parts := SplitAuthority(split.1[2..]);
      AuthorityJoin(split.0, split.1, parts.0, parts.1);
      UriReference(split.0, Some(parts.0), parts.1, None, None)
    else
      UriReference(split.0, None, split.1, None, None)
  }

  lemma AuthorityJoin(scheme: Option<string>, rest: string, authority: string, path: string)
    requires StartsWith(rest, "//") && rest[2..] == authority + path
    ensures HierarchyPart(UriReference(scheme, Some(authority), path, None, None)) == SchemePart(scheme) + rest
  {
    assert rest == "//" + authority + path;
  }

  /** Splits what follows `//` into the authority and the path that starts at the next `/`. */
  function SplitAuthority(tail: string): (r: (string, string))
    ensures tail == r.0 + r.1
    ensures '/' !in r.0
    ensures r.1 == "" || r.1[0] == '/'
  {
    var slash := IndexOf(tail, '/');
    if slash == -1 then (tail, "")
    else
      assert tail == tail[..slash] + tail[slash..];
      (tail[..slash], tail[slash..])
  }

  /**
   * Parsing a URI reference into its components, as the regular expression of
   * Appendix B does (with the scheme syntax of section 3.1 checked): the
   * fragment follows the first `#`, the query the first `?` before it, and
   * the rest is split into scheme, authority and path as ParseHierarchy
   * does. Putting the components back together gives the string back.
   */
  function Parse(s: string): (u: UriReference)
    ensures Recompose(u) == s
    ensures '?' !in HierarchyPart(u) && '#' !in HierarchyPart(u)
    ensures u.query.Some? ==> '#' !in u.query.value
    ensures var h := ParseHierarchy(HierarchyPart(u));
            u.scheme == h.scheme && u.authority == h.authority && u.path == h.path
    ensures u.scheme.Some? ==> IsScheme(u.scheme.value)
  {
    var (beforeFragment, fragment) := SplitAtFirst(s, '#');
    var (hierarchy, query) := SplitAtFirst(beforeFragment, '?');
    var h := ParseHierarchy(hierarchy);
    var u := UriReference(h.scheme, h.authority, h.path, query, fragment);
    assert HierarchyPart(u) == hierarchy;
    u
  }

  /** The WHATWG special schemes that require a non-empty host. */
  predicate IsSpecialScheme(scheme: string) {
    var s := AsciiLower(scheme);
    s == "http" || s == "https" || s == "ws" || s == "wss" || s == "ftp"
  }

  /** A URL with a special scheme must have a non-empty host. */
  predicate RequiredHostPresent(scheme: Option<string>, authority: Option<string>) {
    scheme.Some? && IsSpecialScheme(scheme.value) ==> authority.Some? && authority.value != ""
  }

  predicate HasRequiredHost(u: UriReference) {
    RequiredHostPresent(u.scheme, u.authority)
  }

  /**
   * A base the URL constructor accepts: it has a scheme, and a special
   * scheme comes with a non-empty authority.
   */
  predicate IsValidBase(base: string) {
    var b := Parse(base);
    b.scheme.Some? && HasRequiredHost(b)
  }

  /** A reference without a scheme and without an authority: a path, query or fragment only. */
  predicate IsPathReference(reference: string) {
    Parse(reference).scheme.None? && Parse(reference).authority.None?
  }

  /**
   * Where the first segment of a non-empty path buffer ends: just before the
   * next `/` after its initial character, or at the end.
   */
  function SegmentEnd(p: string): (e: nat)
    requires p != ""
    ensures 1 <= e <= |p|
    ensures e < |p| ==> p[e] == '/'
    ensures forall j :: 1 <= j < e ==> p[j] != '/'
    ensures p[0] != '/' ==> '/' !in p[..e]
  {
    var k := IndexOf(p[1..], '/');
    assert forall j :: 1 <= j < |p| ==> p[j] == p[1..][j - 1];
    if k == -1 then |p| else k + 1
  }

  /** The first segment of a path buffer, without its initial `/`. */
  function FirstSegment(p: string): string
    requires p != ""
  {
    if p[0] == '/' then p[1..SegmentEnd(p)] else p[..SegmentEnd(p)]
  }

  /** No segment of the path is `.` or `..`. */
  predicate NoDotSegments(p: string)
    decreases |p|
  {
    p == "" || (FirstSegment(p) != "." && FirstSegment(p) != ".." && NoDotSegments(p[SegmentEnd(p)..]))
  }

  /** Removes the last segment of the output buffer and the `/` before it (if any). */
  function DropLastSegment(output: string): (r: string)
    ensures '/' !in output ==> r == ""
    ensures '/' in output ==>
              |r| < |output| && r == output[..|r|] && output[|r|] == '/' && '/' !in output[|r| + 1..]
  {
    var i := LastIndexOf(output, '/');
    if i == -1 then "" else output[..i]
  }

  /** The loop of section 5.2.4, one step per call. */
  function RemoveDots(input: string, output: string): string
    decreases |input|
  {
    if input == "" then output
    else if StartsWith(input, "../") then RemoveDots(input[3..], output)
    else if StartsWith(input, "./") then RemoveDots(input[2..], output)
    else if StartsWith(input, "/./") then RemoveDots("/" + input[3..], output)
    else if input == "/." then RemoveDots("/", output)
    else if StartsWith(input, "/../") then RemoveDots("/" + input[4..], DropLastSegment(output))
    else if input == "/.." then RemoveDots("/", DropLastSegment(output))
    else if input == "." || input == ".." then output
    else
      var e := SegmentEnd(input);
      RemoveDots(input[e..], output + input[..e])
  }

  /** remove_dot_segments (section 5.2.4). */
  function RemoveDotSegments(path: string): string {
    RemoveDots(path, "")
  }

  /** Merging a relative path with the base's path (section 5.2.3). */
  function Merge(base: UriReference, path: string): string {
    if base.authority.Some? && base.path == "" then "/" + path
    else base.path[..LastIndexOf(base.path, '/') + 1] + path
  }

  /** The target of a reference against a parsed base (section 5.2.2, strict). */
  function Transform(r: UriReference, b: UriReference): UriReference {
    if r.scheme.Some? then
      UriReference(r.scheme, r.authority, RemoveDotSegments(r.path), r.query, r.fragment)
    else if r.authority.Some? then
      UriReference(b.scheme, r.authority, RemoveDotSegments(r.path), r.query, r.fragment)
    else if r.path == "" then
      UriReference(b.scheme, b.authority, b.path, if r.query.Some? then r.query else b.query, r.fragment)
    else if r.path[0] == '/' then
      UriReference(b.scheme, b.authority, RemoveDotSegments(r.path), r.query, r.fragment)
    else
      UriReference(b.scheme, b.authority, RemoveDotSegments(Merge(b, r.path)), r.query, r.fragment)
  }

  /** The target URL of a reference against a base, before it is recomposed. */
  function Target(reference: string, base: string): UriReference {
    Transform(Parse(reference), Parse(base))
  }

  /**
   * The scheme and authority of the target of section 5.2.2: the
   * reference's own when it has a scheme, the base's scheme with the
   * reference's authority when it has only an authority, the base's otherwise.
   */
  function TargetSchemeAuthority(r: UriReference, b: UriReference): (Option<string>, Option<string>) {
    if r.scheme.Some? then (r.scheme, r.authority)
    else if r.authority.Some? then (b.scheme, r.authority)
    else (b.scheme, b.authority)
  }

  /** The transform gives the target exactly that scheme and authority. */
  lemma TransformSchemeAuthority(r: UriReference, b: UriReference)
    ensures (Transform(r, b).scheme, Transform(r, b).authority) == TargetSchemeAuthority(r, b)
  {
  }

  /**
   * The URL constructor accepts the pair: the base is a valid absolute URL,
   * and the target keeps a non-empty host where its scheme requires one.
   */
  predicate Resolvable(reference: string, base: string) {
    IsValidBase(base)
    && var target := TargetSchemeAuthority(Parse(reference), Parse(base));
       RequiredHostPresent(target.0, target.1)
  }

  /** Resolvable is the host requirement on the target URL itself. */
  lemma ResolvableTarget(reference: string, base: string)
    ensures Resolvable(reference, base) <==> IsValidBase(base) && HasRequiredHost(Target(reference, base))
  {
    TransformSchemeAuthority(Parse(reference), Parse(base));
  }

  /**
   * `new URL(reference, base).href`: `None` when the constructor throws.
   * A valid base is necessary; see PathReferenceResolvable and
   * HostlessReferenceRejected for what the reference adds.
   */
  function Resolve(reference: string, base: string): (r: Option<string>)
    ensures r.Some? <==> Resolvable(reference, base)
    ensures !IsValidBase(base) ==> r.None?
  {
    if !Resolvable(reference, base) then None
    else Some(Recompose(Target(reference, base)))
  }

  /**
   * A path, query or fragment reference takes the base's scheme and
   * authority, so it resolves exactly when the base is valid.
   */
  lemma PathReferenceResolvable(reference: string, base: string)
    requires IsPathReference(reference)
    ensures Resolvable(reference, base) <==> IsValidBase(base)
  {
  }

  /**
   * In the model, a reference with a special scheme and no host (such as
   * `http://` or `https:`) makes the constructor throw against every base.
   */
  lemma HostlessReferenceRejected(reference: string, base: string)
    requires Parse(reference).scheme.Some? && IsSpecialScheme(Parse(reference).scheme.value)
    requires Parse(reference).authority.None? || Parse(reference).authority == Some("")
    ensures Resolve(reference, base) == None
  {
  }

  /** Each of the rules A to D of section 5.2.4 fires only on a dot segment. */
  lemma DotRulesSeeDotSegment(input: string)
    requires input != ""
    ensures StartsWith(input, "../") || input == ".." || StartsWith(input, "/../") || input == "/.."
            ==> FirstSegment(input) == ".."
    ensures StartsWith(input, "./") || input == "." || StartsWith(input, "/./") || input == "/."
            ==> FirstSegment(input) == "."
  {
    var e := SegmentEnd(input);
    if StartsWith(input, "../") {
      assert input[..3] == "../";
      assert input[0] == '.' && input[1] == '.' && input[2] == '/';
      assert e == 2 && FirstSegment(input) == input[..2];
    } else if StartsWith(input, "./") {
      assert input[..2] == "./";
      assert input[0] == '.' && input[1] == '/';
      assert e == 1 && FirstSegment(input) == input[..1];
    } else if StartsWith(input, "/./") {
      assert input[..3] == "/./";
      assert input[0] == '/' && input[1] == '.' && input[2] == '/';
      assert e == 2 && FirstSegment(input) == input[1..2];
    } else if StartsWith(input, "/../") {
      assert input[..4] == "/../";
      assert input[0] == '/' && input[1] == '.' && input[2] == '.' && input[3] == '/';
      assert e == 3 && FirstSegment(input) == input[1..3];
    }
  }

  /** On a buffer that does not start with a dot segment, the loop moves the first segment (rule E). */
  lemma PlainSegmentStep(input: string, output: string)
    requires input != ""
    requires FirstSegment(input) != "." && FirstSegment(input) != ".."
    ensures RemoveDots(input, output)
            == RemoveDots(input[SegmentEnd(input)..], output + input[..SegmentEnd(input)])
  {
    DotRulesSeeDotSegment(input);
  }

  /** remove_dot_segments leaves a path without dot segments as it is. */
  lemma {:induction false} RemoveDotsKeepsPlainPath(input: string, output: string)
    requires NoDotSegments(input)
    ensures RemoveDots(input, output) == output + input
    decreases |input|
  {
    if input != "" {
      var e := SegmentEnd(input);
      PlainSegmentStep(input, output);
      RemoveDotsKeepsPlainPath(input[e..], output + input[..e]);
      AppendAcross(output, input, e);
    }
  }

  lemma AppendAcross(a: string, s: string, e: nat)
    requires e <= |s|
    ensures a + s[..e] + s[e..] == a + s
  {
    assert s == s[..e] + s[e..];
  }

  /**
   * A reference with a scheme and no dot segments in its path resolves to
   * itself against any valid base.
   */
  lemma ResolveAbsoluteReference(reference: string, base: string)
    requires IsValidBase(base)
    requires Parse(reference).scheme.Some? && HasRequiredHost(Parse(reference))
    requires NoDotSegments(Parse(reference).path)
    ensures Resolve(reference, base) == Some(reference)
  {
    TransformAbsolute(Parse(reference), Parse(base));
  }

  /** The target of a reference with a scheme and no dot segments is the reference. */
  lemma TransformAbsolute(r: UriReference, b: UriReference)
    requires r.scheme.Some? && NoDotSegments(r.path)
    ensures Transform(r, b) == r
  {
    RemoveDotsKeepsPlainPath(r.path, "");
  }

  /**
   * A relative path (no scheme, authority, query or fragment, and not
   * starting with `/`) resolved against a base whose path ends in `/` and
   * which has no query or fragment is the base followed by the reference,
   * when the joined path has no dot segments.
   */
  lemma ResolveRelativePath(reference: string, base: string)
    requires IsValidBase(base)
    requires Parse(base).query == None && Parse(base).fragment == None
    requires EndsWith(Parse(base).path, "/")
    requires reference != "" && reference[0] != '/'
    requires ':' !in reference && '?' !in reference && '#' !in reference
    requires NoDotSegments(Parse(base).path + reference)
    ensures Resolve(reference, base) == Some(base + reference)
  {
    assert Resolvable(reference, base) by {
      ParsePlainPath(reference);
      PathReferenceResolvable(reference, base);
    }
    var b := Parse(base);
    var t := UriReference(b.scheme, b.authority, b.path + reference, None, None);
    assert Transform(Parse(reference), b) == t by {
      TransformRelativePath(reference, b);
    }
    assert Recompose(t) == base + reference by {
      RecomposeAppendPath(b, reference);
    }
  }

  lemma RecomposeAppendPath(b: UriReference, suffix: string)
    requires b.query == None && b.fragment == None
    ensures Recompose(UriReference(b.scheme, b.authority, b.path + suffix, None, None)) == Recompose(b) + suffix
  {
  }

  /** The target of such a relative path keeps the base's scheme and authority and appends to its path. */
  lemma TransformRelativePath(reference: string, b: UriReference)
    requires EndsWith(b.path, "/")
    requires reference != "" && reference[0] != '/'
    requires ':' !in reference && '?' !in reference && '#' !in reference
    requires NoDotSegments(b.path + reference)
    ensures Transform(Parse(reference), b)
            == UriReference(b.scheme, b.authority, b.path + reference, None, None)
  {
    ParsePlainPath(reference);
    MergeAfterSlash(b, reference);
    RemoveDotsKeepsPlainPath(b.path + reference, "");
  }

  lemma MergeAfterSlash(b: UriReference, path: string)
    requires EndsWith(b.path, "/")
    ensures Merge(b, path) == b.path + path
  {
    assert LastIndexOf(b.path, '/') == |b.path| - 1;
  }

  /** A string without `:`, `?` or `#` that does not start with `/` parses as a bare path. */
  lemma ParsePlainPath(reference: string)
    requires reference == "" || reference[0] != '/'
    requires ':' !in reference && '?' !in reference && '#' !in reference
    ensures Parse(reference) == UriReference(None, None, reference, None, None)
  {
    assert SplitAtFirst(reference, '#') == (reference, None);
    assert SplitAtFirst(reference, '?') == (reference, None);
    assert SplitScheme(reference) == (None, reference);
    assert !StartsWith(reference, "//");
  }
}
