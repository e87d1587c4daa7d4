/**
 * The values the agent SDK streams back from a query, as far as the tools
 * look at them, and the JSON-like payloads they carry.
 */
module Messages {
  import opened Common

  /**
   * A JSON-like value as the SDK hands it over (decoded JSON). `JNull` is
   * Python's `None`; numbers are integers only.
   */
  datatype Json =
    | JNull
    | JBool(b: bool)
    | JNum(n: int)
    | JStr(s: string)
    | JArr(items: seq<Json>)
    | JObj(fields: map<string, Json>)

  /** Python's truth value of the decoded JSON value (`if x:`). */
  predicate Truthy(j: Json) {
    match j
    case JNull => false
    case JBool(b) => b
    case JNum(n) => n != 0
    case JStr(s) => s != ""
    case JArr(items) => items != []
    case JObj(fields) => fields != map[]
  }

  /** The content blocks of an assistant or user turn. */
  datatype Block =
    | TextBlock(text: string)
    | ThinkingBlock(thinking: string, signature: string)
    | ToolUseBlock(id: string, name: string, input: Json)
    | ToolResultBlock(toolUseId: string, content: Json, isError: bool)

  /**
   * One event of the query stream. `result` and `structuredOutput` are the two
   * fields of the terminal result event that the tools read.
   */
  datatype Message =
    | UserMessage(userContent: seq<Block>)
    | AssistantMessage(content: seq<Block>, model: string)
    | SystemMessage(subtype: string, data: Json)
    | ResultMessage(isError: bool, numTurns: int, result: Option<string>, structuredOutput: Json)
}
