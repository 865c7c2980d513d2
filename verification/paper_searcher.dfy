/**
 * The paper searcher MCP server. `searchPapers` walks a directory listing and
 * keeps the names of the `.txt` and `.pdf` files whose text holds the search
 * string. The file system is an oracle: each listed entry carries the text its
 * reader would produce (UTF-8 decoding for `.txt`, `pdf-parse` for `.pdf`), or
 * the fact that reading it throws.
 */
module PaperSearcher {
  import opened Common
  import opened Mcp

  /** What reading a file yields: its text, or an exception. */
  datatype FileText = Readable(text: string) | Unreadable

  /** A directory entry, named as `readdirSync` names it, with the outcome of reading it. */
  datatype DirEntry = DirEntry(name: string, content: FileText)

  /** `fs.readdirSync(papersDirectory)`: the entries in listing order, or the error it throws. */
  datatype Directory = Listing(entries: seq<DirEntry>) | ListingFailed(message: string)

  /** What the tool handler throws. */
  datatype Error = DirectoryUnreadable(message: string) | UnknownTool(name: string)

  function Message(e: Error): string
  {
    match e
    case DirectoryUnreadable(message) => message
    case UnknownTool(name) => "Unknown tool: " + name
  }

  const SearchToolName := "searchPapers"

  /** The position of the last `c` in `s`, if any. */
  function LastIndexOf(s: string, c: char): (r: Option<nat>)
    ensures r.None? ==> c !in s
    ensures r.Some? ==> r.value < |s| && s[r.value] == c && forall j :: r.value < j < |s| ==> s[j] != c
  {
    if s == [] then None
    else if Last(s) == c then Some(|s| - 1)
    else
      assert s == DropLast(s) + [Last(s)];
      LastIndexOf(DropLast(s), c)
  }

  /**
   * Node's `path.extname` of a base name: the suffix from the last '.', or ""
   * when the name has no '.', when its last '.' is its first character, or
   * when the name is "..".
   */
  function ExtName(name: string): (ext: string)
    ensures ext != [] ==> |ext| < |name| && name[|name| - |ext|..] == ext && ext[0] == '.' && '.' !in ext[1..]
    ensures ext == [] <==> '.' !in name || (name[0] == '.' && forall j :: 0 < j < |name| ==> name[j] != '.') || name == ".."
  {
    match LastIndexOf(name, '.')
    case None => ""
    case Some(k) =>
      if k == 0 || name == ".." then "" else name[k..]
  }

  /** Whether `searchPapers` reads a file: its extension, lower-cased, is `.txt` or `.pdf`. */
  predicate IsPaper(name: string)
  {
    var ext := Lower(ExtName(name));
    ext == ".txt" || ext == ".pdf"
  }

  /** `text.includes(s)`. */
  predicate Contains(text: string, s: string)
    decreases |text|
  {
    s <= text || (text != [] && Contains(text[1..], s))
  }

  /** Whether `searchPapers` keeps an entry: a paper that reads without throwing and whose text holds the search string. */
  predicate Selected(e: DirEntry, searchString: string)
  {
    IsPaper(e.name) && e.content.Readable? && Contains(e.content.text, searchString)
  }

  /** The names `searchPapers` returns for a listing. */
  function Matching(entries: seq<DirEntry>, searchString: string): seq<string>
  {
    if entries == [] then []
    else
      Matching(DropLast(entries), searchString) +
      (if Selected(Last(entries), searchString) then [Last(entries).name] else [])
  }

  /**
   * `searchPapers(searchString)`: a failing `readdirSync` is thrown; otherwise
   * each entry is examined in turn, a read that throws skips the entry, and
   * the names kept are those of `Matching`.
   */
  method SearchPapers(directory: Directory, searchString: string) returns (r: Result<seq<string>, Error>)
    ensures directory.ListingFailed? ==> r == Err(DirectoryUnreadable(directory.message))
    ensures directory.Listing? ==> r == Ok(Matching(directory.entries, searchString))
  {
    if directory.ListingFailed? {
      return Err(DirectoryUnreadable(directory.message));
    }
    var files := directory.entries;
    var matchingFiles: seq<string> := [];
    for i := 0 to |files|
      invariant matchingFiles == Matching(files[..i], searchString)
    {
      var file := files[i];
      var fileExtension := Lower(ExtName(file.name));
      if fileExtension == ".txt" {
        match file.content {
          case Unreadable =>
          case Readable(content) =>
            if Contains(content, searchString) {
              matchingFiles := matchingFiles + [file.name];
            }
        }
      } else if fileExtension == ".pdf" {
        match file.content {
          case Unreadable =>
          case Readable(text) =>
            if Contains(text, searchString) {
              matchingFiles := matchingFiles + [file.name];
            }
        }
      }
      assert DropLast(files[..i + 1]) == files[..i] && Last(files[..i + 1]) == file;
    }
    assert files[..|files|] == files;
    return Ok(matchingFiles);
  }

  /** The search over two listings one after the other is the two searches one after the other. */
  lemma {:induction false} MatchingAppend(a: seq<DirEntry>, b: seq<DirEntry>, searchString: string)
    ensures Matching(a + b, searchString) == Matching(a, searchString) + Matching(b, searchString)
    decreases |b|
  {
    if b == [] {
      assert a + b == a;
    } else {
      assert DropLast(a + b) == a + DropLast(b) && Last(a + b) == Last(b);
      MatchingAppend(a, DropLast(b), searchString);
    }
  }

  /** The positions of the entries `searchPapers` keeps, in increasing order. */
  function Picks(entries: seq<DirEntry>, searchString: string): (positions: seq<nat>)
    ensures forall k :: 0 <= k < |positions| ==> positions[k] < |entries|
    ensures forall k, l :: 0 <= k < l < |positions| ==> positions[k] < positions[l]
  {
    if entries == [] then []
    else
      Picks(DropLast(entries), searchString) +
      (if Selected(Last(entries), searchString) then [|entries| - 1] else [])
  }

  /** Every picked position holds a selected entry, and every selected entry is picked. */
  lemma {:induction false} PicksAreSelected(entries: seq<DirEntry>, searchString: string)
    ensures forall k :: 0 <= k < |Picks(entries, searchString)| ==>
              Selected(entries[Picks(entries, searchString)[k]], searchString)
    ensures forall i :: 0 <= i < |entries| && Selected(entries[i], searchString) ==>
              i in Picks(entries, searchString)
  {
    if entries != [] {
      var front, last := DropLast(entries), |entries| - 1;
      PicksAreSelected(front, searchString);
      var earlier, positions := Picks(front, searchString), Picks(entries, searchString);
      assert forall i :: 0 <= i < |front| ==> front[i] == entries[i];
      assert forall k :: 0 <= k < |earlier| ==> positions[k] == earlier[k];
      var picked := Selected(entries[last], searchString);
      assert positions == earlier + (if picked then [last] else []);
      forall i | 0 <= i < |entries| && Selected(entries[i], searchString)
        ensures i in positions
      {
        if i < last {
          assert Selected(front[i], searchString);
          var k :| 0 <= k < |earlier| && earlier[k] == i;
          assert positions[k] == i;
        } else {
          assert i == last;
          assert picked && positions[|earlier|] == i;
        }
      }
    }
  }

  /**
   * The result is the listing's names at the picked positions: a subsequence
   * of the listing, in listing order, each entry at most once.
   */
  lemma {:induction false} MatchingIsPicked(entries: seq<DirEntry>, searchString: string)
    ensures |Matching(entries, searchString)| == |Picks(entries, searchString)|
    ensures forall k :: 0 <= k < |Picks(entries, searchString)| ==>
              Matching(entries, searchString)[k] == entries[Picks(entries, searchString)[k]].name
  {
    if entries != [] {
      var front := DropLast(entries);
      MatchingIsPicked(front, searchString);
      var result, positions := Matching(entries, searchString), Picks(entries, searchString);
      var n := |Picks(front, searchString)|;
      forall k | 0 <= k < |positions|
        ensures result[k] == entries[positions[k]].name
      {
        if k < n {
          assert result[k] == Matching(front, searchString)[k];
          assert positions[k] == Picks(front, searchString)[k];
          assert entries[positions[k]] == front[positions[k]];
        }
      }
    }
  }

  predicate DistinctNames(entries: seq<DirEntry>)
  {
    forall i, j :: 0 <= i < j < |entries| ==> entries[i].name != entries[j].name
  }

  /** In a listing of distinct names, an entry's name is returned exactly when the entry is selected. */
  lemma KeptIffSelected(entries: seq<DirEntry>, searchString: string, i: nat)
    requires DistinctNames(entries) && i < |entries|
    ensures entries[i].name in Matching(entries, searchString) <==> Selected(entries[i], searchString)
  {
    var result, positions := Matching(entries, searchString), Picks(entries, searchString);
    MatchingIsPicked(entries, searchString);
    PicksAreSelected(entries, searchString);
    if entries[i].name in result {
      var k :| 0 <= k < |result| && result[k] == entries[i].name;
      var j := positions[k];
      assert entries[j].name == entries[i].name;
      assert j == i;
    }
    if Selected(entries[i], searchString) {
      var k :| 0 <= k < |positions| && positions[k] == i;
      assert result[k] == entries[i].name;
    }
  }

  /** A listing of distinct names gives a result without repetitions. */
  lemma MatchingDistinct(entries: seq<DirEntry>, searchString: string)
    requires DistinctNames(entries)
    ensures var result := Matching(entries, searchString);
            forall k, l :: 0 <= k < l < |result| ==> result[k] != result[l]
  {
    MatchingIsPicked(entries, searchString);
  }

  /** The contents of files that are not papers play no part: they are never read. */
  lemma {:induction false} OtherFilesNotRead(a: seq<DirEntry>, b: seq<DirEntry>, searchString: string)
    requires |a| == |b|
    requires forall i :: 0 <= i < |a| ==> a[i].name == b[i].name
    requires forall i :: 0 <= i < |a| && IsPaper(a[i].name) ==> a[i].content == b[i].content
    ensures Matching(a, searchString) == Matching(b, searchString)
  {
    if a != [] {
      OtherFilesNotRead(DropLast(a), DropLast(b), searchString);
    }
  }

  /** An entry that is not selected can be taken out of the listing without changing the result. */
  lemma SkipUnselected(before: seq<DirEntry>, e: DirEntry, after: seq<DirEntry>, searchString: string)
    requires !Selected(e, searchString)
    ensures Matching(before + [e] + after, searchString) == Matching(before + after, searchString)
  {
    assert Matching([e], searchString) == [] by {
      assert DropLast([e]) == [];
    }
    MatchingAppend(before, [e], searchString);
    MatchingAppend(before + [e], after, searchString);
    MatchingAppend(before, after, searchString);
  }

  /** A file whose read throws is left out, and the search goes on with the files after it. */
  lemma UnreadableSkipped(entries: seq<DirEntry>, i: nat, searchString: string)
    requires i < |entries| && entries[i].content.Unreadable?
    ensures Matching(entries, searchString) == Matching(entries[..i] + entries[i + 1..], searchString)
  {
    assert entries == entries[..i] + [entries[i]] + entries[i + 1..];
    SkipUnselected(entries[..i], entries[i], entries[i + 1..], searchString);
  }

  /** With the empty search string every readable paper is kept. */
  lemma EmptySearchKeepsReadablePapers(entries: seq<DirEntry>, i: nat)
    requires DistinctNames(entries) && i < |entries|
    ensures entries[i].name in Matching(entries, "") <==> IsPaper(entries[i].name) && entries[i].content.Readable?
  {
    KeptIffSelected(entries, "", i);
  }

  /** The last position of `c` depends only on where `c` occurs. */
  lemma LastIndexOfSamePositions(s: string, t: string, c: char)
    requires |s| == |t| && forall i :: 0 <= i < |s| ==> (s[i] == c <==> t[i] == c)
    ensures LastIndexOf(s, c) == LastIndexOf(t, c)
  {
  }

  /** Lower-casing a name and then taking its extension is taking the extension and then lower-casing it. */
  lemma ExtNameOfLower(name: string)
    ensures ExtName(Lower(name)) == Lower(ExtName(name))
  {
    var low := Lower(name);
    LastIndexOfSamePositions(name, low, '.');
    assert low == ".." <==> name == "..";
    match LastIndexOf(name, '.') {
      case None =>
      case Some(k) =>
        assert Lower(name[k..]) == low[k..];
    }
  }

  /** The extension test ignores case: `X.TXT` is a paper exactly as `x.txt` is. */
  lemma PaperNameCaseInsensitive(name: string)
    ensures IsPaper(Lower(name)) == IsPaper(name)
  {
    ExtNameOfLower(name);
    LowerIdempotent(ExtName(name));
  }

  /** The search string a call-tool request carries: `arguments?.searchString || ""`. */
  function SearchStringOf(arguments: map<string, string>): string
  {
    if "searchString" in arguments then arguments["searchString"] else ""
  }

  /**
   * call-tool: `searchPapers` runs the search and returns the names as one
   * text item; any other name is refused.
   */
  method CallTool(name: string, arguments: map<string, string>, directory: Directory, stringify: seq<string> -> string)
    returns (r: Result<CallToolResult, Error>)
    ensures name != SearchToolName ==> r == Err(UnknownTool(name)) && Message(r.error) == "Unknown tool: " + name
    ensures name == SearchToolName && directory.ListingFailed? ==> r == Err(DirectoryUnreadable(directory.message))
    ensures name == SearchToolName && directory.Listing? ==>
              r == Ok(CallToolResult([TextContent(stringify(Matching(directory.entries, SearchStringOf(arguments))))], false))
  {
    if name == SearchToolName {
      var searchString := SearchStringOf(arguments);
      var results := SearchPapers(directory, searchString);
      match results {
        case Err(e) => return Err(e);
        case Ok(names) => return Ok(CallToolResult([TextContent(stringify(names))], false));
      }
    }
    return Err(UnknownTool(name));
  }

  /** The list-tools reply: the single `searchPapers` tool. */
  function ListTools(): (tools: seq<Tool>)
    ensures |tools| == 1 && tools[0].name == SearchToolName
    ensures tools[0].inputSchema == ObjectSchema([Property("searchString", "string")])
  {
    [Tool(SearchToolName, "Search for a string in text files and PDFs within the papers directory.",
          ObjectSchema([Property("searchString", "string")]))]
  }
}
