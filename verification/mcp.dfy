/** The Model Context Protocol records that both servers build. */
module Mcp {

  /** One entry of a tool's JSON-Schema `properties`: a name and its JSON type. */
  datatype Property = Property(name: string, jsonType: string)

  /** `{ type: "object", properties: { ... } }`, properties in declaration order. */
  datatype InputSchema = ObjectSchema(properties: seq<Property>)

  /** A tool advertised by list-tools. */
  datatype Tool = Tool(name: string, description: string, inputSchema: InputSchema)

  /** `{ type: "text", text }`: the only content kind these servers produce. */
  datatype TextContent = TextContent(text: string)

  /** The reply to a successful call-tool request. */
  datatype CallToolResult = CallToolResult(content: seq<TextContent>, isError: bool)
}
