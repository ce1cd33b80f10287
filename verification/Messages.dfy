/** The messages that the engine, the compactor and the transcript share. */
module Messages {

  datatype Role = User | Assistant | Tool

  /** Call arguments and image data are opaque text. */
  datatype Content =
    | Text(text: string)
    | Image(data: string)
    | ToolUse(id: string, name: string, arguments: string)
    | ToolResult(id: string, output: string, isError: bool, images: seq<string>)

  datatype Message = Message(role: Role, content: seq<Content>)

  function UserText(text: string): Message {
    Message(User, [Text(text)])
  }

  function AssistantText(text: string): Message {
    Message(Assistant, [Text(text)])
  }

  function ResultMessage(id: string, output: string, isError: bool, images: seq<string>): Message {
    Message(Tool, [ToolResult(id, output, isError, images)])
  }

  function Calls(content: seq<Content>): set<Content> {
    set c | c in content && c.ToolUse?
  }

  function CallIds(content: seq<Content>): set<string> {
    set c | c in Calls(content) :: c.id
  }

  function ResultIds(content: seq<Content>): set<string> {
    set c | c in content && c.ToolResult? :: c.id
  }
}
