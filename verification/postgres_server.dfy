/**
 * The PostgreSQL MCP server: four request handlers over one shared database
 * session. The session is a `Client` that keeps the log of the statements sent
 * on it and asks an oracle, the database, for each reply; SQL is never parsed.
 */
module PostgresServer {
  import opened Common
  import opened UrlPath
  import opened ResourceAddress
  import opened Mcp

  /** A positional query parameter; JavaScript `undefined` goes to the server as NULL. */
  datatype Param = Null | Text(value: string)

  /** A statement sent on the session: its text and its parameters. */
  datatype Statement = Statement(text: string, params: seq<Param>)

  /** A result row: column name to value, the value in its rendered form. */
  type Row = map<string, string>

  /** The database's answer to one statement. */
  datatype Reply = Rows(rows: seq<Row>) | Failed(message: string)

  /** The database as an oracle: the reply to a statement, given every statement sent on the session before it. */
  type Database = (seq<Statement>, Statement) -> Reply

  /** The catalog query of list-resources. */
  const TablesQuery := Statement("SELECT table_name FROM information_schema.tables WHERE table_schema = 'public'", [])

  const ColumnsSql := "SELECT column_name, data_type FROM information_schema.columns WHERE table_name = $1"

  /** The catalog query of read-resource, with the table name as its one parameter. */
  function ColumnsQuery(tableName: Option<string>): Statement
  {
    Statement(ColumnsSql, [match tableName case None => Null case Some(t) => Text(t)])
  }

  /** The compensating statement sent after a failed tool query. */
  const Rollback := Statement("ROLLBACK", [])

  const JsonMimeType := "application/json"

  const QueryToolName := "query"

  /** What a handler throws. */
  datatype Error =
    | BadAddress(address: AddressError)  // a URL could not be built or parsed
    | UnknownTool(name: string)          // call-tool with a name other than `query`
    | QueryFailed(message: string)       // the database's own error, passed on unchanged
    | MissingQueryText                   // `client.query(undefined)` refuses before sending anything

  /** The message of each error, as the caller sees it. */
  function Message(e: Error): string
  {
    match e
    case BadAddress(InvalidUrl) => "Invalid URL"
    case BadAddress(InvalidResourceUri) => "Invalid resource URI"
    case UnknownTool(name) => "Unknown tool: " + name
    case QueryFailed(message) => message
    case MissingQueryText => "Client was passed a null or undefined query"
  }

  /** An entry of the list-resources reply. */
  datatype Resource = Resource(uri: string, mimeType: string, name: string)

  /** The one entry of the read-resource reply. */
  datatype ResourceContents = ResourceContents(uri: string, mimeType: string, text: string)

  /** `${row.table_name}`: a row without that column renders as "undefined". */
  function TableNameOf(row: Row): string
  {
    if "table_name" in row then row["table_name"] else "undefined"
  }

  function ResourceName(t: string): string
  {
    "\"" + t + "\" database schema"
  }

  /** A table listing whose names the model can address. */
  predicate PlainListing(rows: seq<Row>)
  {
    forall i :: 0 <= i < |rows| ==> ValidTableName(TableNameOf(rows[i]))
  }

  /**
   * `result.rows.map(...)` of list-resources: one resource per catalog row, in
   * row order. Building a URI on a base with an opaque path throws, so the
   * whole mapping fails as soon as there is a row.
   */
  function ResourcesFor(base: Url, rows: seq<Row>): (r: Result<seq<Resource>, Error>)
    requires PlainListing(rows)
    ensures r.Err? <==> rows != [] && base.path.OpaquePath?
    ensures r.Err? ==> r.error == BadAddress(InvalidUrl)
    ensures r.Ok? ==> |r.value| == |rows|
    ensures r.Ok? ==> forall i :: 0 <= i < |rows| ==>
              var t := TableNameOf(rows[i]);
              r.value[i].mimeType == JsonMimeType && r.value[i].name == ResourceName(t) &&
              ResourceUri(base, t) == Some(r.value[i].uri)
  {
    if rows != [] && base.path.OpaquePath? then Err(BadAddress(InvalidUrl))
    else
      Ok(seq(|rows|, i requires 0 <= i < |rows| =>
        var t := TableNameOf(rows[i]);
        ResourceUrlShape(base, t);
        Resource(ResourceUri(base, t).value, JsonMimeType, ResourceName(t))))
  }

  /**
   * Every resource that list-resources returns addresses its own row's table:
   * read-resource on its URI asks for that table's columns.
   */
  lemma ListedResourcesReadBack(base: Url, rows: seq<Row>)
    requires Canonical(base) && PlainListing(rows)
    ensures ResourcesFor(base, rows).Ok?
    ensures forall i :: 0 <= i < |rows| ==>
              TableOfUri(ResourcesFor(base, rows).value[i].uri) == Ok(Some(TableNameOf(rows[i])))
  {
    var resources := ResourcesFor(base, rows).value;
    forall i | 0 <= i < |rows|
      ensures TableOfUri(resources[i].uri) == Ok(Some(TableNameOf(rows[i])))
    {
      ResourceUriRoundTrip(base, TableNameOf(rows[i]));
    }
  }

  /** The read-resource reply for a column query's reply: one content item echoing the request URI. */
  function ReadReply(uri: string, reply: Reply, stringify: seq<Row> -> string): (r: Result<seq<ResourceContents>, Error>)
    ensures r.Ok? <==> reply.Rows?
    ensures r.Ok? ==> |r.value| == 1 && r.value[0].uri == uri && r.value[0].mimeType == JsonMimeType &&
                      r.value[0].text == stringify(reply.rows)
    ensures r.Err? ==> r.error == QueryFailed(reply.message)
  {
    match reply
    case Rows(rows) => Ok([ResourceContents(uri, JsonMimeType, stringify(rows))])
    case Failed(message) => Err(QueryFailed(message))
  }

  /** The list-tools reply: the single `query` tool, whatever the database holds. */
  function ListTools(): (tools: seq<Tool>)
    ensures |tools| == 1 && tools[0].name == QueryToolName
    ensures tools[0].inputSchema == ObjectSchema([Property("sql", "string")])
  {
    [Tool(QueryToolName, "Run a read-only SQL query", ObjectSchema([Property("sql", "string")]))]
  }

  /** The `pg` client: one session, the statements sent on it so far, and the database answering them. */
  class Client {
    var log: seq<Statement>
    const database: Database

    constructor (database: Database)
      ensures log == [] && this.database == database
    {
      log := [];
      this.database := database;
    }

    /** `client.query(statement)`: sends the statement and returns the database's reply to it. */
    method Query(statement: Statement) returns (reply: Reply)
      modifies this
      ensures log == old(log) + [statement]
      ensures reply == database(old(log), statement)
    {
      reply := database(log, statement);
      log := log + [statement];
    }
  }

  /** The server's request handlers, sharing one client. */
  class Server {
    const client: Client
    /** The database URL with its scheme set to `postgres:` and its password removed. */
    const resourceBase: Url
    /** `JSON.stringify(rows, null, 2)`. */
    const stringify: seq<Row> -> string

    constructor (client: Client, resourceBase: Url, stringify: seq<Row> -> string)
      ensures this.client == client && this.resourceBase == resourceBase && this.stringify == stringify
    {
      this.client := client;
      this.resourceBase := resourceBase;
      this.stringify := stringify;
    }

    /**
     * list-resources: sends the table listing query, and maps its rows to
     * resources; a failure of the query is passed on.
     */
    method ListResources() returns (r: Result<seq<Resource>, Error>)
      requires client.database(client.log, TablesQuery).Rows? ==> PlainListing(client.database(client.log, TablesQuery).rows)
      modifies client
      ensures client.log == old(client.log) + [TablesQuery]
      ensures match client.database(old(client.log), TablesQuery)
              case Failed(message) => r == Err(QueryFailed(message))
              case Rows(rows) => r == ResourcesFor(resourceBase, rows)
    {
      var reply := client.Query(TablesQuery);
      match reply {
        case Failed(message) => r := Err(QueryFailed(message));
        case Rows(rows) => r := ResourcesFor(resourceBase, rows);
      }
    }

    /**
     * read-resource: a URI that cannot be parsed, or whose last path segment
     * is not `schema`, is refused before anything is sent; otherwise one
     * column query for the decoded table is sent.
     */
    method ReadResource(uri: string) returns (r: Result<seq<ResourceContents>, Error>)
      modifies client
      ensures TableOfUri(uri).Err? ==>
                r == Err(BadAddress(TableOfUri(uri).error)) && client.log == old(client.log)
      ensures TableOfUri(uri) == Err(InvalidResourceUri) ==> Message(r.error) == "Invalid resource URI"
      ensures TableOfUri(uri).Ok? ==>
                var query := ColumnsQuery(TableOfUri(uri).value);
                client.log == old(client.log) + [query] &&
                r == ReadReply(uri, client.database(old(client.log), query), stringify)
    {
      var address := TableOfUri(uri);
      if address.Err? {
        return Err(BadAddress(address.error));
      }
      var reply := client.Query(ColumnsQuery(address.value));
      r := ReadReply(uri, reply, stringify);
    }

    /**
     * call-tool: any name but `query` is refused before anything is sent.
     * For `query`, the caller's text is sent verbatim; on success its rows
     * come back as one text item; on failure a ROLLBACK follows on the same
     * session, its own reply is ignored, and the original error is thrown.
     */
    method CallTool(name: string, arguments: map<string, string>) returns (r: Result<CallToolResult, Error>)
      modifies client
      ensures name != QueryToolName ==> r == Err(UnknownTool(name)) && client.log == old(client.log)
      ensures name != QueryToolName ==> Message(r.error) == "Unknown tool: " + name
      ensures name == QueryToolName && "sql" !in arguments ==>
                r == Err(MissingQueryText) && client.log == old(client.log) + [Rollback]
      ensures name == QueryToolName && "sql" in arguments ==>
                var statement := Statement(arguments["sql"], []);
                match client.database(old(client.log), statement)
                case Rows(rows) =>
                  r == Ok(CallToolResult([TextContent(stringify(rows))], false)) &&
                  client.log == old(client.log) + [statement]
                case Failed(message) =>
                  r == Err(QueryFailed(message)) && client.log == old(client.log) + [statement, Rollback]
    {
      if name != QueryToolName {
        return Err(UnknownTool(name));
      }
      if "sql" !in arguments {
        var ignored := client.Query(Rollback);
        return Err(MissingQueryText);
      }
      var statement := Statement(arguments["sql"], []);
      var reply := client.Query(statement);
      match reply {
        case Rows(rows) =>
          r := Ok(CallToolResult([TextContent(stringify(rows))], false));
        case Failed(message) =>
          var ignored := client.Query(Rollback);
          r := Err(QueryFailed(message));
      }
    }
  }
}
