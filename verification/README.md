# Two MCP servers, modelled in Dafny

This repository holds two small Model Context Protocol servers. The model covers the parts of them that are logic rather than plumbing.

**The PostgreSQL server** (`index.ts`) exposes each table of the `public` schema as a resource. A table's URI is `${t}/schema` resolved against the database URL. read-resource takes that URI apart again and asks the database for the table's columns. list-tools offers one tool, `query`, and call-tool runs the caller's SQL through it. When that SQL fails, the server sends a `ROLLBACK` on the same session and re-throws the original error.

The model's pieces:

- **The session.** A `Client` object keeps the log of the statements sent on it. The database is an oracle: a function from the earlier log and the new statement to a reply (rows, or an error message). SQL is never parsed.
- **The handlers.** They are the methods of a `Server` class. Their contracts say which statements are sent, in what order, and what comes back.
- **URLs.** URL handling is modelled down to path segments. This covers JavaScript's `split` and `join`, the WHATWG parser's `pathname` and `href`, and relative resolution ("merge paths", section 5.2.3 of RFC 3986, with the WHATWG treatment of `.` and `..`). The parser lower-cases the scheme and treats the special schemes (`ftp`, `file`, `http`, `https`, `ws`, `wss`) apart: their path is always a list of segments. After a special scheme other than `file`, the first piece is a host even without `//`. After `file:` without `//`, the host is empty and the rest is the path.

**The paper searcher** (`paper_searcher/src/index.ts`) lists a directory. It keeps the names of the `.txt` and `.pdf` files whose text contains a search string, and skips any file whose read or parse throws. The directory is an oracle: a listing of entries, each holding either the text its reader would produce or the fact that reading it throws. `searchPapers` is modelled as an imperative loop. It is proved equal to a recursive specification, `Matching`. The lemmas about `Matching` state what the result is: a subsequence of the listing, in order and without repetition. It holds exactly the selected entries. Other files are never read, and unreadable files are skipped.

Two behaviours of the code are worth stating outright:

- **Short resource paths.** Decoding does not count path segments: `index.ts:61-67` only checks that the last piece is `schema`. A pathname that is exactly `schema` (an opaque path such as `postgres:schema`) gives an undefined table name, and the column query is still sent with a NULL parameter. `ResourceAddress.DecodePathname` returns `Ok(None)` for it. The pathname `/schema` gives the empty table name.
- **Read-only is not enforced.** The `query` tool is described as read-only (`index.ts:90`), but nothing in the handler enforces it. No `BEGIN ... READ ONLY` is sent, so the caller's statement is sent as it is. The model does the same.

Files:

- `common.dfy`: `Option`, `Result`, `Last`, `DropLast` and ASCII lower-casing.
- `mcp.dfy`: the protocol records: tools, their input schemas, text content and call results.
- `url.dfy`: `split`/`join`, URL parsing and serialisation down to path segments, and relative resolution.
- `resource_address.dfy`: building a table's resource URI and decoding it back.
- `postgres_server.dfy`: the client session and the four handlers of the PostgreSQL server.
- `paper_searcher.dfy`: `path.extname`, the search loop and its specification, and the two handlers.

## Model

| member | source | states |
|---|---|---|
| UrlPath.Split | index.ts:61 | `pathname.split("/")` yields at least one piece, and no piece contains the separator |
| UrlPath.SplitJoin | index.ts:61 | splitting the join of separator-free pieces gives the pieces back |
| UrlPath.SplitLastPiece | index.ts:61-62 | the popped last piece is the suffix after the last separator: the whole string when there is one piece, otherwise a suffix preceded by the separator |
| UrlPath.Href | index.ts:51 | no contract of its own: `ParseHref` proves that parsing the serialised URL gives it back, and `ResourceUriRoundTrip` uses it for the listed URIs |
| UrlPath.ParseUrl | index.ts:59 | a string without ':' does not parse; a parsed scheme is valid and lower-case; a URL with a special scheme always has a host and a path of segments. `ParseHref`, `OpaquePathOf`, `FilePathOf` and `SpecialHostOf` pin down what it reads |
| UrlPath.Resolve | index.ts:51 | resolving a relative path fails exactly when the base has an opaque path; otherwise it keeps the base's scheme and authority and gives a path of segments (`ResourceUrlShape` states the path) |
| UrlPath.ParseHref | index.ts:51 | parsing the `href` of a URL in parsed form (a lower-case scheme that is not special, an authority, plain segments) gives that URL back |
| UrlPath.OpaquePathOf | index.ts:59 | after a scheme that is not special, in any letter case, text without '/' is an opaque path, with no host, and the scheme is lower-cased |
| UrlPath.FilePathOf | index.ts:59 | after `file:`, in any letter case, a single plain segment without a leading '/' becomes the rooted path of that segment, with the empty host |
| UrlPath.SpecialHostOf | index.ts:59 | after a special scheme other than `file`, the text up to the first '/' is the host even without `//`, and the rest is the path |
| ResourceAddress.ResourceUrlShape | index.ts:43-51 | resolving `${t}/schema` succeeds exactly when the base has a hierarchical path; it keeps the scheme and authority, and the path becomes the base's directory followed by the two segments `t` and `schema` |
| ResourceAddress.TableOfUri | index.ts:59-67 | a URI that does not parse fails with "Invalid URL"; otherwise it decodes exactly when its pathname is `schema` or ends in `/schema`, fails with "Invalid resource URI" otherwise, and names no table exactly for the pathname `schema` |
| ResourceAddress.DecodePathname | index.ts:61-67 | decoding succeeds exactly when the pathname is `schema` or ends in `/schema`, and fails otherwise with "Invalid resource URI"; no table name exactly for `schema`; a table name holds no '/' and is the text between the previous '/' (or the start) and `/schema` |
| ResourceAddress.MarkerIsLastPiece | index.ts:61-67 | the last piece of the pathname split at '/' is `schema` exactly when the pathname is `schema` or ends in `/schema`, and it is also the only piece exactly when the pathname is `schema` |
| ResourceAddress.TrailingSlashRefused | index.ts:61-67 | a pathname ending in '/' is refused with "Invalid resource URI" |
| ResourceAddress.RootedMarker | index.ts:61-67 | the pathname `/schema` names the empty table |
| ResourceAddress.OpaqueMarkerNamesNoTable | index.ts:59-67 | for any scheme that is not special, `<scheme>:schema` decodes to no table name at all |
| ResourceAddress.FileSchemeRootsPath | index.ts:59-67 | `file:schema` (in any letter case) has a rooted path and names the empty table |
| ResourceAddress.SpecialSchemeReadsHost | index.ts:59-67 | for a special scheme other than `file`, `<scheme>:<host>/schema` reads `<host>` as the host, not as a table, and names the empty table |
| ResourceAddress.ResourceUriRoundTrip | index.ts:51-63 | the URI built for a plain table name on a base in parsed form decodes back to that table name |
| PostgresServer.ResourcesFor | index.ts:49-54 | one resource per catalog row, in row order, each with mime type `application/json`, name `"<t>" database schema` and the URI built for `t`; a base with an opaque path fails with "Invalid URL" exactly when there is a row |
| PostgresServer.ListedResourcesReadBack | index.ts:49-67 | every URI that list-resources returns decodes, in read-resource, to its own row's table name |
| PostgresServer.ReadReply | index.ts:74-81 | a successful column query gives exactly one content item that echoes the request URI, with mime type `application/json` and the serialised rows; a failed one passes the database's error on |
| PostgresServer.ListTools | index.ts:85-100 | exactly one tool, `query`, whose input schema is the single string property `sql`, whatever the database holds |
| PostgresServer.Client.constructor | index.ts:38-41 | a new session has sent nothing |
| PostgresServer.Client.Query | index.ts:46-48 | sending a statement appends it to the session log, and the reply is the database's answer given everything sent before it |
| PostgresServer.Server.constructor | index.ts:13-36 | the server holds the shared client, the resource base URL and the serialiser |
| PostgresServer.Server.ListResources | index.ts:45-56 | exactly the catalog query is sent; its failure is passed on, otherwise the reply is `ResourcesFor` of its rows |
| PostgresServer.Server.ReadResource | index.ts:58-83 | a URI that does not parse, or whose last path piece is not `schema`, is refused and nothing is sent; otherwise exactly one column query, for the decoded table, is sent and its reply is returned as `ReadReply` |
| PostgresServer.Server.CallTool | index.ts:102-131 | a name other than `query` fails with "Unknown tool: <name>" and sends nothing; on success exactly the caller's SQL is sent and its rows come back as one text item with `isError` false; on failure the SQL and then one `ROLLBACK` are sent, the rollback's reply is ignored, and the original error is returned; a missing `sql` fails in the client before sending, and the `ROLLBACK` still follows |
| PaperSearcher.LastIndexOf | paper_searcher/src/index.ts:26 | the position of the last occurrence of a character, or none when it does not occur |
| PaperSearcher.ExtName | paper_searcher/src/index.ts:26 | `path.extname`: a non-empty extension is a proper suffix that starts with '.' and holds no other '.'; it is empty exactly when the name has no '.', when its only '.' is the first character, or when the name is `..` |
| Common.Lower | paper_searcher/src/index.ts:26 | lower-casing keeps the length, leaves no upper-case letter, keeps every other character, and maps each upper-case letter to the lower-case letter at the same place in the alphabet |
| Common.LowerIdempotent | paper_searcher/src/index.ts:26 | lower-casing twice is lower-casing once |
| PaperSearcher.ExtNameOfLower | paper_searcher/src/index.ts:26 | taking the extension of the lower-cased name is lower-casing the extension |
| PaperSearcher.PaperNameCaseInsensitive | paper_searcher/src/index.ts:26-34 | a name counts as a paper exactly when its lower-cased form does, so `X.TXT` is treated like `x.txt` |
| PaperSearcher.Matching | paper_searcher/src/index.ts:24-44 | the specification of the search loop, with no contract of its own: `SearchPapers` is proved equal to it, and `MatchingIsPicked`, `PicksAreSelected`, `KeptIffSelected`, `MatchingDistinct`, `OtherFilesNotRead` and `UnreadableSkipped` say what it returns |
| PaperSearcher.SearchStringOf | paper_searcher/src/index.ts:65 | the default of `searchString`: the given value, or `""` when it is missing; no contract of its own, used by `CallTool` and characterised for `""` by `EmptySearchKeepsReadablePapers` |
| PaperSearcher.SearchPapers | paper_searcher/src/index.ts:20-47 | a failing directory listing is thrown; otherwise the loop returns exactly `Matching` of the listing |
| PaperSearcher.MatchingAppend | paper_searcher/src/index.ts:24-44 | searching two listings one after the other gives the two results one after the other |
| PaperSearcher.Picks | paper_searcher/src/index.ts:24-44 | the positions of the kept entries are in range and strictly increasing |
| PaperSearcher.PicksAreSelected | paper_searcher/src/index.ts:26-39 | every kept position holds a selected entry (a readable `.txt`/`.pdf` file containing the search string), and every selected entry is kept |
| PaperSearcher.MatchingIsPicked | paper_searcher/src/index.ts:21-46 | the result is the listing's names at the kept positions, so it is a subsequence of the listing in listing order |
| PaperSearcher.KeptIffSelected | paper_searcher/src/index.ts:29-39 | in a listing of distinct names, a name is returned exactly when its entry is a readable `.txt`/`.pdf` file whose text contains the search string |
| PaperSearcher.MatchingDistinct | paper_searcher/src/index.ts:21-46 | a listing of distinct names gives a result without repetitions |
| PaperSearcher.OtherFilesNotRead | paper_searcher/src/index.ts:29-40 | the contents of files that are not `.txt`/`.pdf` cannot change the result: they are never read |
| PaperSearcher.SkipUnselected | paper_searcher/src/index.ts:24-44 | removing an entry that is not kept from the listing leaves the result unchanged |
| PaperSearcher.UnreadableSkipped | paper_searcher/src/index.ts:28-43 | a file whose read or parse throws is left out, and the search carries on with the files after it |
| PaperSearcher.EmptySearchKeepsReadablePapers | paper_searcher/src/index.ts:65 | with the default empty search string, a name is returned exactly when its entry is a readable `.txt`/`.pdf` file |
| PaperSearcher.CallTool | paper_searcher/src/index.ts:63-73 | `searchPapers` returns the search result, for the given search string or `""` when it is missing, as one text item with `isError` false; a failing listing is thrown; any other name fails with "Unknown tool: <name>" |
| PaperSearcher.ListTools | paper_searcher/src/index.ts:76-91 | exactly one tool, `searchPapers`, whose input schema is the single string property `searchString` |

## Left out

- Process start-up is I/O and is not modelled: the argument check and `process.exit` (index.ts:26-30), `client.connect()` (index.ts:41), and the stdio transport (index.ts:143-147, paper_searcher/src/index.ts:95-104).
- The `CREATE TABLE` and `COMMIT` that `runServer` sends at start-up (index.ts:135-142) are not modelled. They change the schema, which contradicts the "read-only" description of the `query` tool. The model starts from the session after them: the oracle's log may begin with any statements.
- The resource base URL is a given of the `Server`. Deriving it from the database URL is not modelled: that means setting the scheme to `postgres:` and clearing the password (index.ts:34-36).
- SQL semantics and the `pg` client are not modelled. Each query is answered by the database oracle.
- `JSON.stringify` is an abstract serialiser passed to each server (index.ts:79, index.ts:118, paper_searcher/src/index.ts:68).
- The rollback's promise is not awaited (index.ts:122-126). The model appends the `ROLLBACK` to the log at the point of failure and ignores its reply. Interleaving with later requests is not modelled.
- Console logging is not modelled (`console.log`, `console.warn`, `console.error`).
- `fs.readdirSync`, `fs.readFileSync` and `pdf-parse` are replaced by the directory oracle. `path.join` only builds the path to read and is not modelled.
- Tool arguments are modelled as strings. A non-string `sql` or `searchString` value is not modelled.
- WHATWG URL details are not modelled: percent-encoding, host and port validation (including IDNA), trimming of leading and trailing whitespace, removal of tabs and newlines inside the input, backslashes in special URLs, Windows drive letters in `file` URLs, and `%2e` dot segments.
- UrlPath.Href: does not write the "/." that WHATWG puts after the scheme when there is no host and the path has more than one segment with an empty first one. Such a URL (for instance a base read from `postgresql:/.//y`) serialises to a string that parses back with a host. Database URLs with a host never reach this case.
- `paper_searcher/dist/src/index.js` is the compiled form of `paper_searcher/src/index.ts`, so it is not modelled separately.
- PostgresServer.ResourcesFor: requires every catalog row to carry a plain, non-empty table name (letters, digits, `_`, `-`, `.`, `$`; not `.` or `..`). Names that would be percent-encoded or read as dot segments are outside the model.
- PostgresServer.Server.ListResources: requires the catalog reply, when it has rows, to list only plain table names, as for `ResourcesFor`.
- ResourceAddress.ResourceUriRoundTrip: holds for a base URL with a lower-case scheme that is not special (as the `postgres:` base is, index.ts:35), an authority and plain path segments, and for plain table names. A table named `..` would resolve one directory up and not read back.
- PostgresServer.ListedResourcesReadBack: holds under the same conditions as `ResourceUriRoundTrip`.
- Common.Lower: lower-cases ASCII letters only. `toLowerCase` also maps non-ASCII letters.
- PaperSearcher.ExtName: models `path.extname` on a base name, as `readdirSync` returns it. Names containing '/' are not covered.
