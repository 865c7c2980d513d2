/**
 * The part of URL handling that the PostgreSQL server relies on, reduced to
 * path segments: JavaScript's `String.prototype.split`, the WHATWG URL parser
 * as far as `pathname` is concerned, the serialisation `href`, and the
 * resolution of a relative-path reference against a base URL ("merge paths",
 * section 5.2.3 of RFC 3986, with the WHATWG treatment of "." and "..").
 * Percent-encoding, host and port validation and the trimming of whitespace
 * are not modelled.
 */
module UrlPath {
  import opened Common

  /** `s.split(sep)` for a one-character separator: the pieces between separators, empty ones included. */
  function Split(s: string, sep: char): (parts: seq<string>)
    ensures |parts| >= 1
    ensures forall k :: 0 <= k < |parts| ==> sep !in parts[k]
  {
    if s == [] then [""]
    else
      var rest := Split(s[1..], sep);
      if s[0] == sep then [""] + rest
      else [[s[0]] + rest[0]] + rest[1..]
  }

  /** `parts.join(sep)`. */
  function Join(parts: seq<string>, sep: char): string
    requires |parts| >= 1
  {
    if |parts| == 1 then parts[0] else parts[0] + [sep] + Join(parts[1..], sep)
  }

  lemma {:induction false} SplitWithoutSeparator(s: string, sep: char)
    requires sep !in s
    ensures Split(s, sep) == [s]
  {
    if s != [] {
      SplitWithoutSeparator(s[1..], sep);
      assert [s[0]] + s[1..] == s;
    }
  }

  /** Splitting at a separator splits each side independently. */
  lemma {:induction false} SplitAppend(a: string, sep: char, b: string)
    ensures Split(a + [sep] + b, sep) == Split(a, sep) + Split(b, sep)
  {
    var s := a + [sep] + b;
    if a == [] {
      assert s[0] == sep && s[1..] == b;
    } else {
      assert s[0] == a[0] && s[1..] == a[1..] + [sep] + b;
      SplitAppend(a[1..], sep, b);
      var front, back := Split(a[1..], sep), Split(b, sep);
      if a[0] != sep {
        var whole := front + back;
        assert Split(s, sep) == [[a[0]] + whole[0]] + whole[1..];
        assert whole[0] == front[0] && whole[1..] == front[1..] + back;
        assert Split(a, sep) == [[a[0]] + front[0]] + front[1..];
      }
    }
  }

  /** The piece after the last separator comes off as the last piece; the rest splits as before. */
  lemma SplitLastOff(front: string, sep: char, back: string)
    requires sep !in back
    ensures var parts := Split(front + [sep] + back, sep);
            |parts| >= 2 && Last(parts) == back && DropLast(parts) == Split(front, sep)
  {
    SplitAppend(front, sep, back);
    SplitWithoutSeparator(back, sep);
  }

  /** Splitting a join gives the parts back, provided no part holds the separator. */
  lemma {:induction false} SplitJoin(parts: seq<string>, sep: char)
    requires |parts| >= 1
    requires forall k :: 0 <= k < |parts| ==> sep !in parts[k]
    ensures Split(Join(parts, sep), sep) == parts
  {
    SplitWithoutSeparator(parts[0], sep);
    if |parts| > 1 {
      SplitAppend(parts[0], sep, Join(parts[1..], sep));
      SplitJoin(parts[1..], sep);
      assert parts == [parts[0]] + parts[1..];
    }
  }

  /**
   * The last piece of a split is the suffix after the last separator: the whole
   * string when there is a single piece, and otherwise a suffix preceded by `sep`.
   */
  lemma {:induction false} SplitLastPiece(s: string, sep: char)
    ensures var parts := Split(s, sep);
            var tail := Last(parts);
            |tail| <= |s| && s[|s| - |tail|..] == tail &&
            (|parts| == 1 <==> |tail| == |s|) &&
            (|tail| < |s| ==> s[|s| - |tail| - 1] == sep)
  {
    if s != [] {
      var parts, rest := Split(s, sep), Split(s[1..], sep);
      var tail := Last(rest);
      var m := |s| - |tail|;
      assert 1 <= m <= |s| && s[m..] == tail && (|rest| == 1 <==> m == 1) && (m > 1 ==> s[m - 1] == sep) by {
        SplitLastPiece(s[1..], sep);
        assert s[1..][m - 1..] == s[m..];
      }
      if s[0] != sep && |rest| == 1 {
        assert parts == [[s[0]] + tail] && s == [s[0]] + s[1..];
      } else {
        assert |parts| > 1 && Last(parts) == tail by {
          if s[0] == sep {
            assert parts == [""] + rest;
          } else {
            assert parts == [[s[0]] + rest[0]] + rest[1..];
          }
        }
        assert s[m - 1] == sep;
      }
    }
  }

  /** Joining pieces that avoid some characters, with a separator that avoids them too, avoids them. */
  lemma {:induction false} JoinAvoids(parts: seq<string>, sep: char, stops: set<char>)
    requires |parts| >= 1 && sep !in stops
    requires forall k :: 0 <= k < |parts| ==> forall i :: 0 <= i < |parts[k]| ==> parts[k][i] !in stops
    ensures forall i :: 0 <= i < |Join(parts, sep)| ==> Join(parts, sep)[i] !in stops
  {
    if |parts| > 1 {
      JoinAvoids(parts[1..], sep, stops);
      var tail := Join(parts[1..], sep);
      forall i | 0 <= i < |Join(parts, sep)|
        ensures Join(parts, sep)[i] !in stops
      {
        if i < |parts[0]| {
        } else if i == |parts[0]| {
        } else {
          assert Join(parts, sep)[i] == tail[i - |parts[0]| - 1];
        }
      }
    }
  }

  /** The longest prefix of `s` holding none of the characters in `stops`. */
  function TakeUntil(s: string, stops: set<char>): (prefix: string)
    ensures |prefix| <= |s| && prefix == s[..|prefix|]
    ensures forall k :: 0 <= k < |prefix| ==> prefix[k] !in stops
    ensures |prefix| < |s| ==> s[|prefix|] in stops
  {
    if s == [] || s[0] in stops then [] else [s[0]] + TakeUntil(s[1..], stops)
  }

  /** `TakeUntil` stops exactly at the end of a prefix free of `stops` that a stop (or the end) follows. */
  lemma {:induction false} TakeUntilExact(a: string, b: string, stops: set<char>)
    requires forall k :: 0 <= k < |a| ==> a[k] !in stops
    requires b == [] || b[0] in stops
    ensures TakeUntil(a + b, stops) == a
  {
    if a == [] {
      assert a + b == b;
    } else {
      assert (a + b)[0] == a[0] && (a + b)[1..] == a[1..] + b;
      TakeUntilExact(a[1..], b, stops);
      assert [a[0]] + a[1..] == a;
    }
  }

  /** A URL path: a list of segments, or the opaque text of a URL such as `postgres:db`. */
  datatype UrlPath = Segments(segments: seq<string>) | OpaquePath(text: string)

  /** A parsed URL, reduced to what path handling needs (query and fragment are dropped). */
  datatype Url = Url(scheme: string, authority: Option<string>, path: UrlPath)

  predicate SchemeChar(c: char)
  {
    'a' <= c <= 'z' || 'A' <= c <= 'Z' || '0' <= c <= '9' || c == '+' || c == '-' || c == '.'
  }

  /** A scheme: an ASCII letter followed by letters, digits, '+', '-' or '.'. */
  predicate ValidScheme(s: string)
  {
    |s| > 0 && ('a' <= s[0] <= 'z' || 'A' <= s[0] <= 'Z') && forall k :: 0 <= k < |s| ==> SchemeChar(s[k])
  }

  /** `url.pathname`: "/" before every segment, or the opaque path as it stands. */
  function Pathname(u: Url): string
  {
    match u.path
    case Segments(segments) => if segments == [] then "" else Join([""] + segments, '/')
    case OpaquePath(text) => text
  }

  /** `url.href` for a URL without query and fragment. */
  function Href(u: Url): string
  {
    u.scheme + ":" + (match u.authority case Some(a) => "//" + a case None => "") + Pathname(u)
  }

  /**
   * The path state of the WHATWG parser: appends each raw segment to `path`,
   * where ".." removes the last segment and "." is dropped; either of them,
   * when it ends the input, leaves an empty last segment (a trailing "/").
   */
  function AppendSegments(path: seq<string>, raw: seq<string>): seq<string>
    decreases |raw|
  {
    if raw == [] then path
    else
      var atEnd := |raw| == 1;
      var next :=
        if raw[0] == ".." then (if path == [] then [] else DropLast(path)) + (if atEnd then [""] else [])
        else if raw[0] == "." then path + (if atEnd then [""] else [])
        else path + [raw[0]];
      AppendSegments(next, raw[1..])
  }

  predicate NoDotSegment(segments: seq<string>)
  {
    forall k :: 0 <= k < |segments| ==> segments[k] != "." && segments[k] != ".."
  }

  /** Segments that are neither "." nor ".." are appended as they are. */
  lemma {:induction false} AppendPlainSegments(path: seq<string>, raw: seq<string>)
    requires NoDotSegment(raw)
    ensures AppendSegments(path, raw) == path + raw
    decreases |raw|
  {
    if raw != [] {
      AppendPlainSegments(path + [raw[0]], raw[1..]);
      assert path + [raw[0]] + raw[1..] == path + raw;
    }
  }

  /** The segment list of a hierarchical path, given as "" or as text starting with '/'. */
  function ParsePath(p: string): seq<string>
    requires p == [] || p[0] == '/'
  {
    if p == [] then [] else AppendSegments([], Split(p, '/')[1..])
  }

  /** The schemes the WHATWG URL standard treats as special: their URLs always have a host (possibly empty for `file`) and a path of segments. */
  predicate SpecialScheme(scheme: string)
  {
    scheme in {"ftp", "file", "http", "https", "ws", "wss"}
  }

  /**
   * `new URL(s)` without a base: `None` where the parser throws "Invalid URL".
   * The scheme runs up to the first ':' and is lower-cased; what follows it,
   * up to the first '?' or '#', is read by the rules of a special scheme, of
   * `file`, or of any other scheme.
   */
  function ParseUrl(s: string): (r: Option<Url>)
    ensures (forall i :: 0 <= i < |s| ==> s[i] != ':') ==> r.None?
    ensures r.Some? ==> ValidScheme(r.value.scheme) && Lower(r.value.scheme) == r.value.scheme
    ensures r.Some? && SpecialScheme(r.value.scheme) ==> r.value.authority.Some? && r.value.path.Segments?
  {
    var raw := TakeUntil(s, {':'});
    if |raw| == |s| || !ValidScheme(raw) then None
    else ParseWithScheme(Lower(raw), s[|raw| + 1..])
  }

  /** What follows "scheme:", for a lower-cased scheme. */
  function ParseWithScheme(scheme: string, rest: string): (r: Option<Url>)
    ensures r.Some? ==> r.value.scheme == scheme
    ensures r.Some? && SpecialScheme(scheme) ==> r.value.authority.Some? && r.value.path.Segments?
  {
    if scheme == "file" then Some(ParseFileBody(TakeUntil(rest, {'?', '#'})))
    else if SpecialScheme(scheme) then ParseSpecialBody(scheme, TakeUntil(rest, {'?', '#'}))
    else Some(ParseAfterScheme(scheme, rest))
  }

  /**
   * What follows "scheme:" for a scheme that is not special, read up to the
   * first '?' or '#': an authority and a path (after "//"), a path (after "/"),
   * or else an opaque path.
   */
  function ParseAfterScheme(scheme: string, rest: string): Url
  {
    var body := TakeUntil(rest, {'?', '#'});
    if |body| >= 2 && body[..2] == "//" then
      var authority := TakeUntil(body[2..], {'/'});
      Url(scheme, Some(authority), Segments(ParsePath(body[2 + |authority|..])))
    else if |body| >= 1 && body[0] == '/' then
      Url(scheme, None, Segments(ParsePath(body)))
    else
      Url(scheme, None, OpaquePath(body))
  }

  /** `s` without its leading '/' characters. */
  function DropSlashes(s: string): (r: string)
    ensures |r| <= |s| && r == s[|s| - |r|..]
    ensures r == [] || r[0] != '/'
    ensures forall k :: 0 <= k < |s| - |r| ==> s[k] == '/'
  {
    if s != [] && s[0] == '/' then DropSlashes(s[1..]) else s
  }

  /** The path of a special URL: an empty path is read as the single empty segment, so the pathname is "/". */
  function SpecialPath(p: string): seq<string>
    requires p == [] || p[0] == '/'
  {
    ParsePath(if p == [] then "/" else p)
  }

  /**
   * The body of a special URL other than `file`: any number of '/' (none
   * included) is skipped, and the host runs up to the next '/'. An empty host
   * makes the parser throw.
   */
  function ParseSpecialBody(scheme: string, body: string): Option<Url>
  {
    var afterSlashes := DropSlashes(body);
    var authority := TakeUntil(afterSlashes, {'/'});
    if authority == [] then None
    else Some(Url(scheme, Some(authority), Segments(SpecialPath(afterSlashes[|authority|..]))))
  }

  /**
   * The body of a `file` URL: after "//" a host (where "localhost" means the
   * empty host) and a path; otherwise the empty host and a path, whether or
   * not the body starts with '/'.
   */
  function ParseFileBody(body: string): Url
  {
    if |body| >= 2 && body[..2] == "//" then
      var host := TakeUntil(body[2..], {'/'});
      Url("file", Some(if host == "localhost" then "" else host), Segments(SpecialPath(body[2 + |host|..])))
    else if |body| >= 1 && body[0] == '/' then
      Url("file", Some(""), Segments(ParsePath(body)))
    else
      Url("file", Some(""), Segments(ParsePath("/" + body)))
  }

  /** Text that ends neither an authority nor a path segment. */
  predicate PlainText(s: string)
  {
    forall i :: 0 <= i < |s| ==> s[i] != '/' && s[i] != '?' && s[i] != '#'
  }

  predicate PlainSegments(segments: seq<string>)
  {
    NoDotSegment(segments) && forall k :: 0 <= k < |segments| ==> PlainText(segments[k])
  }

  /**
   * A URL in the form the parser produces for a scheme that is not special: a
   * lower-case scheme, an authority, and segments the parser would not rewrite.
   */
  predicate Canonical(u: Url)
  {
    ValidScheme(u.scheme) && Lower(u.scheme) == u.scheme && !SpecialScheme(u.scheme) &&
    u.authority.Some? && PlainText(u.authority.value) &&
    u.path.Segments? && PlainSegments(u.path.segments)
  }

  /** The pathname of plain segments starts with '/', holds no '?' or '#', and splits back into "" and the segments. */
  lemma PathnameOfSegments(segments: seq<string>)
    requires segments != [] && PlainSegments(segments)
    ensures var p := Join([""] + segments, '/');
            p != [] && p[0] == '/' && (forall i :: 0 <= i < |p| ==> p[i] !in {'?', '#'}) &&
            Split(p, '/') == [""] + segments
  {
    var parts := [""] + segments;
    forall k | 0 <= k < |parts|
      ensures '/' !in parts[k]
      ensures forall i :: 0 <= i < |parts[k]| ==> parts[k][i] !in {'?', '#'}
    {
      if k > 0 {
        assert parts[k] == segments[k - 1];
        assert PlainText(segments[k - 1]);
      }
    }
    JoinAvoids(parts, '/', {'?', '#'});
    SplitJoin(parts, '/');
    assert Join(parts, '/') == "" + "/" + Join(segments, '/');
  }

  /** "//", an authority and a pathname, none of which holds '?' or '#', hold none together. */
  lemma AuthorityAndPathAvoid(authority: string, p: string)
    requires PlainText(authority)
    requires forall i :: 0 <= i < |p| ==> p[i] !in {'?', '#'}
    ensures forall i :: 0 <= i < |"//" + authority + p| ==> ("//" + authority + p)[i] !in {'?', '#'}
  {
  }

  /** The pathname of plain segments parses back into the segments and holds no '?' or '#'. */
  lemma ParsePathname(segments: seq<string>)
    requires PlainSegments(segments)
    ensures var p := Pathname(Url("", None, Segments(segments)));
            (p == [] || p[0] == '/') && (forall i :: 0 <= i < |p| ==> p[i] !in {'?', '#'}) &&
            ParsePath(p) == segments
  {
    if segments != [] {
      var p := Join([""] + segments, '/');
      PathnameOfSegments(segments);
      assert Split(p, '/')[1..] == segments;
      AppendPlainSegments([], segments);
    }
  }

  /** "//", a plain authority and a path free of '?' and '#' read back as that authority and the path's segments. */
  lemma ParseAuthorityAndPath(scheme: string, authority: string, p: string)
    requires PlainText(authority)
    requires p == [] || p[0] == '/'
    requires forall i :: 0 <= i < |p| ==> p[i] !in {'?', '#'}
    ensures ParseAfterScheme(scheme, "//" + authority + p) == Url(scheme, Some(authority), Segments(ParsePath(p)))
  {
    var body := "//" + authority + p;
    assert TakeUntil(body, {'?', '#'}) == body by {
      AuthorityAndPathAvoid(authority, p);
      TakeUntilExact(body, [], {'?', '#'});
      assert body + [] == body;
    }
    assert TakeUntil(body[2..], {'/'}) == authority && body[2 + |authority|..] == p by {
      assert body[2..] == authority + p;
      TakeUntilExact(authority, p, {'/'});
    }
    assert |body| >= 2 && body[..2] == "//";
  }

  /** Reading back "//authority" followed by a pathname gives the authority and the segments. */
  lemma ParseAfterSchemeOfCanonical(u: Url)
    requires Canonical(u)
    ensures ParseAfterScheme(u.scheme, "//" + u.authority.value + Pathname(u)) == u
  {
    var p := Pathname(u);
    assert (p == [] || p[0] == '/') && (forall i :: 0 <= i < |p| ==> p[i] !in {'?', '#'}) &&
           ParsePath(p) == u.path.segments by {
      ParsePathname(u.path.segments);
      assert p == Pathname(Url("", None, Segments(u.path.segments)));
    }
    ParseAuthorityAndPath(u.scheme, u.authority.value, p);
  }

  /** Parsing the serialisation of a canonical URL gives the URL back. */
  lemma ParseHref(u: Url)
    requires Canonical(u)
    ensures ParseUrl(Href(u)) == Some(u)
  {
    var rest := "//" + u.authority.value + Pathname(u);
    forall k | 0 <= k < |u.scheme|
      ensures u.scheme[k] !in {':'}
    {
      assert SchemeChar(u.scheme[k]);
    }
    TakeUntilExact(u.scheme, ":" + rest, {':'});
    assert Href(u) == u.scheme + (":" + rest);
    assert Href(u)[|u.scheme| + 1..] == rest;
    ParseAfterSchemeOfCanonical(u);
  }

  /** `scheme:rest` is read by the rules of its lower-cased scheme. */
  lemma SchemeOf(scheme: string, rest: string)
    requires ValidScheme(scheme)
    ensures ParseUrl(scheme + ":" + rest) == ParseWithScheme(Lower(scheme), rest)
  {
    forall k | 0 <= k < |scheme|
      ensures scheme[k] !in {':'}
    {
      assert SchemeChar(scheme[k]);
    }
    assert scheme + ":" + rest == scheme + (":" + rest);
    TakeUntilExact(scheme, ":" + rest, {':'});
    assert (scheme + ":" + rest)[|scheme| + 1..] == rest;
  }

  /** Text free of '?' and '#' is read whole, as the body of the URL. */
  lemma BodyWhole(body: string)
    requires forall i :: 0 <= i < |body| ==> body[i] !in {'?', '#'}
    ensures TakeUntil(body, {'?', '#'}) == body
  {
    TakeUntilExact(body, [], {'?', '#'});
    assert body + [] == body;
  }

  /** "/" followed by one plain segment is the path of that segment, and its pathname is the same text. */
  lemma RootedSegment(text: string)
    requires text != [] && PlainText(text) && NoDotSegment([text])
    ensures Split("/" + text, '/') == ["", text]
    ensures ParsePath("/" + text) == [text]
    ensures Join(["", text], '/') == "/" + text
  {
    assert Split("/" + text, '/') == ["", text] by {
      assert "/" + text == "" + ['/'] + text;
      SplitLastOff("", '/', text);
      var parts := Split("/" + text, '/');
      assert parts == DropLast(parts) + [Last(parts)];
    }
    assert ParsePath("/" + text) == AppendSegments([], [text]);
    AppendPlainSegments([], [text]);
    assert Join(["", text], '/') == "" + ['/'] + Join([text], '/');
  }

  /** After a scheme that is not special, text without '/' is an opaque path. */
  lemma OpaquePathOf(scheme: string, text: string)
    requires ValidScheme(scheme) && !SpecialScheme(Lower(scheme)) && PlainText(text)
    ensures ParseUrl(scheme + ":" + text) == Some(Url(Lower(scheme), None, OpaquePath(text)))
  {
    SchemeOf(scheme, text);
    OpaqueBodyOf(Lower(scheme), text);
  }

  /** The body-level half of `OpaquePathOf`. */
  lemma OpaqueBodyOf(scheme: string, text: string)
    requires !SpecialScheme(scheme) && PlainText(text)
    ensures ParseWithScheme(scheme, text) == Some(Url(scheme, None, OpaquePath(text)))
  {
    BodyWhole(text);
  }

  /** After `file:`, a segment without a leading '/' still becomes a rooted path, with the empty host. */
  lemma FilePathOf(scheme: string, text: string)
    requires ValidScheme(scheme) && Lower(scheme) == "file"
    requires text != [] && PlainText(text) && NoDotSegment([text])
    ensures ParseUrl(scheme + ":" + text) == Some(Url("file", Some(""), Segments([text])))
  {
    SchemeOf(scheme, text);
    FileBodyOf(text);
  }

  /** The body-level half of `FilePathOf`. */
  lemma FileBodyOf(text: string)
    requires text != [] && PlainText(text) && NoDotSegment([text])
    ensures ParseWithScheme("file", text) == Some(Url("file", Some(""), Segments([text])))
  {
    BodyWhole(text);
    assert ParseFileBody(text) == Url("file", Some(""), Segments(ParsePath("/" + text)));
    RootedSegment(text);
  }

  /** A body that starts with a plain host and a '/' keeps that host, and what follows is the path. */
  lemma SpecialBodyOf(scheme: string, host: string, text: string)
    requires host != [] && PlainText(host)
    requires text != [] && PlainText(text) && NoDotSegment([text])
    ensures ParseSpecialBody(scheme, host + "/" + text) == Some(Url(scheme, Some(host), Segments([text])))
  {
    var body := host + ("/" + text);
    assert host + "/" + text == body;
    assert body[0] == host[0];
    assert DropSlashes(body) == body;
    TakeUntilExact(host, "/" + text, {'/'});
    assert body[|host|..] == "/" + text;
    RootedSegment(text);
  }

  /** Two plain texts joined by '/' hold no '?' or '#'. */
  lemma PlainBodyWhole(host: string, text: string)
    requires PlainText(host) && PlainText(text)
    ensures TakeUntil(host + "/" + text, {'?', '#'}) == host + "/" + text
  {
    var body := host + "/" + text;
    forall i | 0 <= i < |body|
      ensures body[i] !in {'?', '#'}
    {
      if i < |host| {
        assert body[i] == host[i];
      } else if i > |host| {
        assert body[i] == text[i - |host| - 1];
      }
    }
    BodyWhole(body);
  }

  /**
   * After a special scheme other than `file`, the text up to the first '/' is
   * the host even without a leading "//"; what follows is the path.
   */
  lemma SpecialHostOf(scheme: string, host: string, text: string)
    requires ValidScheme(scheme) && SpecialScheme(Lower(scheme)) && Lower(scheme) != "file"
    requires host != [] && PlainText(host)
    requires text != [] && PlainText(text) && NoDotSegment([text])
    ensures ParseUrl(scheme + ":" + host + "/" + text) == Some(Url(Lower(scheme), Some(host), Segments([text])))
  {
    assert scheme + ":" + host + "/" + text == scheme + ":" + (host + "/" + text);
    SchemeOf(scheme, host + "/" + text);
    PlainBodyWhole(host, text);
    SpecialBodyOf(Lower(scheme), host, text);
  }

  /** A reference that the WHATWG parser reads as a relative path: no scheme, no leading '/', no query or fragment. */
  predicate RelativePathReference(ref: string)
  {
    ref != [] && ref[0] != '/' && ':' !in ref && '?' !in ref && '#' !in ref
  }

  /**
   * `new URL(ref, base)` for a relative-path reference: the last segment of the
   * base path is dropped and the reference's segments are appended; a base with
   * an opaque path cannot be resolved against (`None`, the parser throws).
   */
  function Resolve(base: Url, ref: string): (r: Option<Url>)
    requires RelativePathReference(ref)
    ensures r.Some? <==> base.path.Segments?
    ensures r.Some? ==> r.value.scheme == base.scheme && r.value.authority == base.authority && r.value.path.Segments?
  {
    match base.path
    case OpaquePath(_) => None
    case Segments(segments) =>
      var directory := if segments == [] then [] else DropLast(segments);
      Some(Url(base.scheme, base.authority, Segments(AppendSegments(directory, Split(ref, '/')))))
  }
}
