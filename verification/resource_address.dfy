/**
 * Resource addressing of the PostgreSQL server. The schema resource of table
 * `t` is `${t}/schema` resolved against the resource base URL; read-resource
 * takes a URI apart again by splitting its pathname at '/' and popping the
 * marker and then the table name.
 */
module ResourceAddress {
  import opened Common
  import opened UrlPath

  /** The marker that ends every resource path. */
  const SchemaPath := "schema"

  /** Why read-resource rejects a URI before it issues any query. */
  datatype AddressError =
    | InvalidUrl          // `new URL(uri)` throws
    | InvalidResourceUri  // the last path segment is not the marker

  /** A character that URL handling copies unchanged and that URL syntax gives no meaning to. */
  predicate PlainChar(c: char)
  {
    'a' <= c <= 'z' || 'A' <= c <= 'Z' || '0' <= c <= '9' || c == '_' || c == '-' || c == '.' || c == '$'
  }

  /** A table name the model can address: plain characters only, and not a dot segment. */
  predicate ValidTableName(t: string)
  {
    |t| > 0 && t != "." && t != ".." && forall i :: 0 <= i < |t| ==> PlainChar(t[i])
  }

  /** A plain table name holds none of the characters that URL syntax reserves here. */
  lemma PlainTableChars(t: string)
    requires ValidTableName(t)
    ensures forall i :: 0 <= i < |t| ==> t[i] != '/' && t[i] != ':' && t[i] != '?' && t[i] != '#'
  {
  }

  /** The reference `${t}/schema` is a relative path of the two segments `t` and the marker. */
  lemma ReferenceSegments(t: string)
    requires ValidTableName(t)
    ensures RelativePathReference(t + "/" + SchemaPath)
    ensures Split(t + "/" + SchemaPath, '/') == [t, SchemaPath]
  {
    var ref := t + "/" + SchemaPath;
    assert RelativePathReference(ref) by {
      PlainTableChars(t);
      forall i | 0 <= i < |ref|
        ensures ref[i] != ':' && ref[i] != '?' && ref[i] != '#'
      {
        if i < |t| {
          assert ref[i] == t[i];
        } else if i > |t| {
          assert ref[i] == SchemaPath[i - |t| - 1];
        }
      }
      assert ref[0] == t[0];
    }
    assert Split(ref, '/') == [t, SchemaPath] by {
      PlainTableChars(t);
      assert ref == t + ['/'] + SchemaPath;
      SplitLastOff(t, '/', SchemaPath);
      SplitWithoutSeparator(t, '/');
    }
  }

  /** The URL that `new URL(`${t}/schema`, base)` denotes (index.ts:51). */
  function ResourceUrl(base: Url, t: string): Option<Url>
    requires ValidTableName(t)
  {
    ReferenceSegments(t);
    Resolve(base, t + "/" + SchemaPath)
  }

  /** Its `href`, the `uri` of the table's resource. */
  function ResourceUri(base: Url, t: string): Option<string>
    requires ValidTableName(t)
  {
    match ResourceUrl(base, t)
    case None => None
    case Some(u) => Some(Href(u))
  }

  /**
   * Resolution keeps the base's scheme and authority, drops the last segment of
   * its path and ends the path with the two segments `t` and `schema`; a base
   * with an opaque path cannot be resolved against.
   */
  lemma ResourceUrlShape(base: Url, t: string)
    requires ValidTableName(t)
    ensures ResourceUrl(base, t).Some? <==> base.path.Segments?
    ensures base.path.Segments? ==>
              var segments := base.path.segments;
              var directory := if segments == [] then [] else DropLast(segments);
              ResourceUrl(base, t) == Some(Url(base.scheme, base.authority, Segments(directory + [t, SchemaPath])))
  {
    ReferenceSegments(t);
    if base.path.Segments? {
      var segments := base.path.segments;
      var directory := if segments == [] then [] else DropLast(segments);
      AppendPlainSegments(directory, [t, SchemaPath]);
    }
  }

  predicate EndsWith(s: string, suffix: string)
  {
    |suffix| <= |s| && s[|s| - |suffix|..] == suffix
  }

  /** A pathname that ends in "/schema" splits into pieces the last of which is the marker. */
  lemma MarkerAfterSlash(pathname: string)
    requires EndsWith(pathname, "/" + SchemaPath)
    ensures var parts := Split(pathname, '/');
            |parts| >= 2 && Last(parts) == SchemaPath &&
            DropLast(parts) == Split(pathname[..|pathname| - |SchemaPath| - 1], '/')
  {
    var front := pathname[..|pathname| - |SchemaPath| - 1];
    assert pathname == front + ['/'] + SchemaPath;
    SplitLastOff(front, '/', SchemaPath);
  }

  /** If the last piece is the marker, the pathname is the marker or ends in "/schema". */
  lemma MarkerLastPieceEnds(pathname: string)
    ensures var parts := Split(pathname, '/');
            Last(parts) == SchemaPath ==> pathname == SchemaPath || EndsWith(pathname, "/" + SchemaPath)
  {
    SplitLastPiece(pathname, '/');
    var tail := Last(Split(pathname, '/'));
    if tail == SchemaPath && |tail| < |pathname| {
      assert pathname[|pathname| - |SchemaPath| - 1..] == "/" + SchemaPath;
    }
  }

  /** The last piece of a pathname split at '/' is the marker exactly when the pathname is "schema" or ends in "/schema". */
  lemma MarkerIsLastPiece(pathname: string)
    ensures var parts := Split(pathname, '/');
            (Last(parts) == SchemaPath <==> pathname == SchemaPath || EndsWith(pathname, "/" + SchemaPath)) &&
            (Last(parts) == SchemaPath && |parts| == 1 <==> pathname == SchemaPath)
  {
    MarkerLastPieceEnds(pathname);
    if EndsWith(pathname, "/" + SchemaPath) {
      MarkerAfterSlash(pathname);
    } else if pathname == SchemaPath {
      SplitWithoutSeparator(SchemaPath, '/');
    }
  }

  /** A suffix of `front` that follows a '/' (or is all of it) is followed in `front + "/schema"` by the marker. */
  lemma SuffixBeforeMarker(front: string, t: string)
    requires |t| <= |front| && front[|front| - |t|..] == t
    requires |t| < |front| ==> front[|front| - |t| - 1] == '/'
    ensures var pathname := front + "/" + SchemaPath;
            EndsWith(pathname, t + "/" + SchemaPath) &&
            (|pathname| > |t| + 1 + |SchemaPath| ==> pathname[|pathname| - |t| - |SchemaPath| - 2] == '/')
  {
  }

  /**
   * When a pathname ends in "/schema", the piece before the marker holds no '/'
   * and is the text between the previous '/' (or the start) and "/schema".
   */
  lemma TableIsPieceBeforeMarker(pathname: string)
    requires EndsWith(pathname, "/" + SchemaPath)
    ensures |Split(pathname, '/')| >= 2
    ensures var t := Last(DropLast(Split(pathname, '/')));
            '/' !in t && EndsWith(pathname, t + "/" + SchemaPath) &&
            (|pathname| > |t| + 1 + |SchemaPath| ==> pathname[|pathname| - |t| - |SchemaPath| - 2] == '/')
  {
    var front := pathname[..|pathname| - |SchemaPath| - 1];
    assert |Split(pathname, '/')| >= 2 && DropLast(Split(pathname, '/')) == Split(front, '/') by {
      MarkerAfterSlash(pathname);
    }
    var t := Last(Split(front, '/'));
    assert '/' !in t;
    assert |t| <= |front| && front[|front| - |t|..] == t && (|t| < |front| ==> front[|front| - |t| - 1] == '/') by {
      SplitLastPiece(front, '/');
    }
    assert pathname == front + "/" + SchemaPath;
    SuffixBeforeMarker(front, t);
  }

  /**
   * What read-resource does with a pathname (index.ts:61-67): split it at '/',
   * pop the marker, then pop the table name (`None` plays `undefined` when
   * nothing is left).
   */
  function DecodePathname(pathname: string): (r: Result<Option<string>, AddressError>)
    ensures r.Ok? <==> pathname == SchemaPath || EndsWith(pathname, "/" + SchemaPath)
    ensures r.Err? ==> r.error == InvalidResourceUri
    ensures r == Ok(None) <==> pathname == SchemaPath
    ensures r.Ok? && r.value.Some? ==>
              var t := r.value.value;
              '/' !in t && EndsWith(pathname, t + "/" + SchemaPath) &&
              (|pathname| > |t| + 1 + |SchemaPath| ==> pathname[|pathname| - |t| - |SchemaPath| - 2] == '/')
  {
    MarkerIsLastPiece(pathname);
    if EndsWith(pathname, "/" + SchemaPath) then
      TableIsPieceBeforeMarker(pathname);
      DecodeComponents(Split(pathname, '/'))
    else
      DecodeComponents(Split(pathname, '/'))
  }

  /** The two pops of index.ts:62-63 and the check of index.ts:65-67. */
  function DecodeComponents(components: seq<string>): Result<Option<string>, AddressError>
    requires |components| >= 1
  {
    var schema := Last(components);
    var rest := DropLast(components);
    var tableName := if rest == [] then None else Some(Last(rest));
    if schema != SchemaPath then Err(InvalidResourceUri) else Ok(tableName)
  }

  /** A pathname ending in '/' has an empty last piece, so read-resource refuses it. */
  lemma TrailingSlashRefused(pathname: string)
    requires pathname != [] && pathname[|pathname| - 1] == '/'
    ensures DecodePathname(pathname) == Err(InvalidResourceUri)
  {
  }

  /** The front half of read-resource: parse the request URI, then decode its pathname. */
  function TableOfUri(uri: string): (r: Result<Option<string>, AddressError>)
    ensures ParseUrl(uri).None? ==> r == Err(InvalidUrl)
    ensures ParseUrl(uri).Some? ==>
              var pathname := Pathname(ParseUrl(uri).value);
              (r.Ok? <==> pathname == SchemaPath || EndsWith(pathname, "/" + SchemaPath)) &&
              (r.Err? ==> r.error == InvalidResourceUri) &&
              (r == Ok(None) <==> pathname == SchemaPath)
  {
    match ParseUrl(uri)
    case None => Err(InvalidUrl)
    case Some(u) => DecodePathname(Pathname(u))
  }

  /** The rooted pathname "/schema" names the empty table. */
  lemma RootedMarker()
    ensures DecodePathname("/" + SchemaPath) == Ok(Some(""))
  {
    RootedSegment(SchemaPath);
  }

  /**
   * For a special scheme other than `file`, such as `http:`, the first piece
   * after the scheme is the host, not a path segment: `http:t/schema` has the
   * pathname "/schema" and names the empty table, not `t`.
   */
  lemma SpecialSchemeReadsHost(scheme: string, host: string)
    requires ValidScheme(scheme) && SpecialScheme(Lower(scheme)) && Lower(scheme) != "file"
    requires host != [] && PlainText(host)
    ensures TableOfUri(scheme + ":" + host + "/" + SchemaPath) == Ok(Some(""))
  {
    SpecialHostOf(scheme, host, SchemaPath);
    RootedSegment(SchemaPath);
    RootedMarker();
  }

  /** A `file:` URL always has a rooted path: `file:schema` has the pathname "/schema" and names the empty table. */
  lemma FileSchemeRootsPath(scheme: string)
    requires ValidScheme(scheme) && Lower(scheme) == "file"
    ensures TableOfUri(scheme + ":" + SchemaPath) == Ok(Some(""))
  {
    FilePathOf(scheme, SchemaPath);
    RootedSegment(SchemaPath);
    RootedMarker();
  }

  /** For a scheme that is not special, `postgres:schema` has the opaque path `schema`, which names no table. */
  lemma OpaqueMarkerNamesNoTable(scheme: string)
    requires ValidScheme(scheme) && !SpecialScheme(Lower(scheme))
    ensures TableOfUri(scheme + ":" + SchemaPath) == Ok(None)
  {
    OpaquePathOf(scheme, SchemaPath);
  }

  /** The URL of a table's resource, built on a canonical base, is canonical itself. */
  lemma ResourceUrlCanonical(base: Url, t: string)
    requires Canonical(base) && ValidTableName(t)
    ensures ResourceUrl(base, t).Some? && Canonical(ResourceUrl(base, t).value)
  {
    ResourceUrlShape(base, t);
    var segments := ResourceUrl(base, t).value.path.segments;
    var front := base.path.segments;
    forall k | 0 <= k < |segments|
      ensures segments[k] != "." && segments[k] != ".." && PlainText(segments[k])
    {
      if k < |segments| - 2 {
        assert segments[k] == front[k];
      } else if k == |segments| - 2 {
        assert segments[k] == t;
        PlainTableChars(t);
      }
    }
  }

  /** Decoding the pathname of segments that end in `t` and the marker gives `t`. */
  lemma DecodeResourcePathname(segments: seq<string>, t: string)
    requires PlainSegments(segments) && |segments| >= 2
    requires segments[|segments| - 2..] == [t, SchemaPath]
    ensures DecodePathname(Pathname(Url("", None, Segments(segments)))) == Ok(Some(t))
  {
    PathnameOfSegments(segments);
    var parts := [""] + segments;
    assert Last(parts) == SchemaPath && Last(DropLast(parts)) == t;
  }

  /** Reading back the URI of a table's resource gives the table name. */
  lemma ResourceUriRoundTrip(base: Url, t: string)
    requires Canonical(base) && ValidTableName(t)
    ensures ResourceUri(base, t).Some?
    ensures TableOfUri(ResourceUri(base, t).value) == Ok(Some(t))
  {
    ResourceUrlCanonical(base, t);
    ResourceUrlShape(base, t);
    var u := ResourceUrl(base, t).value;
    ParseHref(u);
    var segments := u.path.segments;
    DecodeResourcePathname(segments, t);
    assert Pathname(u) == Pathname(Url("", None, Segments(segments)));
  }
}
