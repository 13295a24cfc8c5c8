/**
 Chat-message dictionaries, as far as history repair and compaction look at them.
 */
module MessageHistory {
  import opened SharedTypes

  /** The id of a call or response: a string, or the value `None`. */
  type Id = Option<string>

  /** An `id` key: missing, or there with a value. */
  datatype IdKey = Absent | Present(value: Id)
  {
    /** What reading the key yields; a missing one counts as the empty string. */
    function Read(): (id: Id)
      ensures this.Absent? ==> id == Some("")
      ensures this.Present? ==> this == Present(id)
    {
      match this
      case Absent => Some("")
      case Present(v) => v
    }
  }

  /** A declared tool call. */
  datatype ToolCall = ToolCall(id: IdKey)

  /** The `content` entry: missing, a string, or some other object. */
  datatype Content = Missing | Text(text: string) | NonText(tag: nat)

  /** `toolCalls` is empty when the key is missing or its value is falsy; `rest` stands
      for every other key. */
  datatype Message = Message(
    role: Option<string>,
    toolCalls: seq<ToolCall>,
    toolCallId: IdKey,
    content: Content,
    rest: map<string, string>)
  {
    predicate IsTool() {
      role == Some("tool")
    }

    /** An assistant message that opens a block. */
    predicate IsCaller() {
      role == Some("assistant") && toolCalls != []
    }

    /** The id that a tool message answers to. */
    function AnswerId(): Id {
      toolCallId.Read()
    }

    function DeclaredIds(): set<Id> {
      set call | call in toolCalls :: call.id.Read()
    }
  }
}
